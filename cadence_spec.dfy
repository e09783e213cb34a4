/** A discrete-time model of WebRTC's frame cadence adapter.
    Every operation of the adapter is a pure transition on the value `Adapter`;
    the class in module CadenceAdapter runs the same transitions in place.
    Times and durations are integer microseconds of the adapter's clock. */
module CadenceSpec {

  datatype Option<+T> = None | Some(value: T)

  const MicrosPerSecond: int := 1_000_000
  const MicrosPerMilli: int := 1_000

  /** A strictly positive duration. */
  type PosMicros = d: int | d > 0 witness 1

  /** A video frame: an opaque payload (its id) and two timestamps, each unset when 0. */
  datatype Frame = Frame(id: int, timestampUs: int, ntpTimeMs: int)

  /** What the adapter hands to its callback, in order. */
  datatype Event =
    | Delivered(postTime: int, queueOverloaded: bool, frame: Frame)   // Callback::OnFrame
    | DiscardForwarded(time: int)                                   // Callback::OnDiscardedFrame
    | RefreshRequested(time: int)                                   // Callback::RequestRefreshFrame

  datatype Constraints = Constraints(minFps: Option<int>, maxFps: Option<int>)

  /** One row of the per-layer convergence table. */
  datatype Layer = Layer(enabled: bool, converged: bool)

  /** A frame handed over by the capture side, not yet processed by the adapter's queue. */
  datatype Posted = Posted(frame: Frame, postTime: int)

  /** A frame waiting for its delayed forward task. */
  datatype Queued = Queued(frame: Frame, due: int)

  /** The pending repeat: the original frame, the time of its delivery (origin),
      when the repeat was scheduled, whether it is an idle repeat, and when it fires. */
  datatype ScheduledRepeat = ScheduledRepeat(frame: Frame, origin: int, scheduled: int, idle: bool, due: int)

  /** The zero-hertz scheduler: one instance per activation and per max frame rate. */
  datatype ZeroHertz = ZeroHertz(
    maxFps: int,
    period: PosMicros,
    queued: seq<Queued>,
    repeat: Option<ScheduledRepeat>,
    refreshDue: Option<int>,
    layers: seq<Layer>)

  /** The field trial and the two policy constants, which are not part of the model's inputs. */
  datatype Config = Config(zeroHertzTrial: bool, refreshGracePeriods: nat, idleRepeatPeriod: PosMicros)

  datatype Adapter = Adapter(
    cfg: Config,
    clock: int,
    params: Option<nat>,            // ZeroHertzModeParams: number of simulcast layers
    constraints: Option<Constraints>,
    restriction: Option<int>,       // encoder-driven max frame rate for unconverged repeats
    zh: Option<ZeroHertz>,          // present exactly while zero-hertz mode is active
    posted: seq<Posted>,
    log: seq<Event>,
    released: bool)

  function Max(a: int, b: int): int { if a < b then b else a }

  /** One frame interval at `fps` frames per second, at least one microsecond. */
  function FramePeriod(fps: int): (p: PosMicros)
    requires fps > 0
    ensures fps <= MicrosPerSecond ==> p * fps <= MicrosPerSecond < (p + 1) * fps
    ensures fps > MicrosPerSecond ==> p == 1
  {
    if fps <= MicrosPerSecond then
      var q := MicrosPerSecond / fps;
      assert MicrosPerSecond == q * fps + MicrosPerSecond % fps;
      q
    else 1
  }

  /** Zero-hertz mode is active when the field trial allows it, parameters are set,
      and the constraints ask for min 0 fps and a positive max fps. */
  predicate ZeroHertzEnabled(cfg: Config, params: Option<nat>, constraints: Option<Constraints>)
  {
    && cfg.zeroHertzTrial
    && params.Some?
    && constraints.Some?
    && constraints.value.minFps == Some(0)
    && constraints.value.maxFps.Some?
    && constraints.value.maxFps.value > 0
  }

  // ---------------------------------------------------------------- layers

  function UnconvergedLayers(n: nat): (ls: seq<Layer>)
  {
    seq(n, _ => Layer(false, false))
  }

  function ResetConvergence(ls: seq<Layer>): (r: seq<Layer>)
  {
    seq(|ls|, i requires 0 <= i < |ls| => ls[i].(converged := false))
  }

  /** The stream is settled when some layer is enabled and every enabled layer has converged. */
  predicate Settled(ls: seq<Layer>)
  {
    (exists i :: 0 <= i < |ls| && ls[i].enabled) &&
    (forall i :: 0 <= i < |ls| && ls[i].enabled ==> ls[i].converged)
  }

  // ---------------------------------------------------------------- periods and timestamps

  /** The repeat period while unsettled: the frame period, slowed by a positive restriction. */
  function ShortRepeatPeriod(z: ZeroHertz, restriction: Option<int>): PosMicros
  {
    if restriction.Some? && restriction.value > 0
    then Max(z.period, FramePeriod(restriction.value))
    else z.period
  }

  function RepeatPeriod(cfg: Config, z: ZeroHertz, restriction: Option<int>, idle: bool): PosMicros
  {
    if idle then cfg.idleRepeatPeriod else ShortRepeatPeriod(z, restriction)
  }

  /** A repeat of `f`, `elapsed` microseconds after the original delivery. */
  function Advanced(f: Frame, elapsed: int): Frame
  {
    Frame(f.id,
          if f.timestampUs != 0 then f.timestampUs + elapsed else 0,
          if f.ntpTimeMs != 0 then f.ntpTimeMs + elapsed / MicrosPerMilli else 0)
  }

  // ---------------------------------------------------------------- operations

  function Create(cfg: Config, now: int): Adapter
  {
    Adapter(cfg, now, None, None, None, None, [], [], false)
  }

  /** FrameCadenceAdapterInterface::OnFrame: hand the frame to the adapter's queue. */
  function OnFrame(s: Adapter, f: Frame): Adapter
  {
    if s.released then s else s.(posted := s.posted + [Posted(f, s.clock)])
  }

  function ArmRefresh(z: ZeroHertz, cfg: Config, now: int): ZeroHertz
  {
    if z.refreshDue.Some? then z
    else z.(refreshDue := Some(now + cfg.refreshGracePeriods * z.period))
  }

  /** The discard notice is forwarded at once; in zero-hertz mode it also arms the refresh requester. */
  function OnDiscardedFrame(s: Adapter): Adapter
  {
    if s.released then s
    else s.(log := s.log + [DiscardForwarded(s.clock)],
            zh := if s.zh.Some? then Some(ArmRefresh(s.zh.value, s.cfg, s.clock)) else None)
  }

  function FreshZeroHertz(cfg: Config, fps: int, layers: nat, now: int): ZeroHertz
    requires fps > 0
  {
    var p := FramePeriod(fps);
    ZeroHertz(fps, p, [], None, Some(now + cfg.refreshGracePeriods * p), UnconvergedLayers(layers))
  }

  /** Enter, leave or rebuild the zero-hertz scheduler after parameters or constraints changed. */
  function Reconfigure(s: Adapter, resetLayers: bool): Adapter
  {
    if !ZeroHertzEnabled(s.cfg, s.params, s.constraints) then s.(zh := None)
    else
      var fps := s.constraints.value.maxFps.value;
      var n := s.params.value;
      if s.zh.None? || s.zh.value.maxFps != fps then
        s.(zh := Some(FreshZeroHertz(s.cfg, fps, n, s.clock)))
      else if resetLayers then
        s.(zh := Some(s.zh.value.(layers := UnconvergedLayers(n))))
      else s
  }

  function OnConstraintsChanged(s: Adapter, c: Constraints): Adapter
  {
    if s.released then s else Reconfigure(s.(constraints := Some(c)), false)
  }

  function SetZeroHertzModeEnabled(s: Adapter, p: Option<nat>): Adapter
  {
    if s.released then s else Reconfigure(s.(params := p), true)
  }

  function UpdateVideoSourceRestrictions(s: Adapter, maxFps: Option<int>): Adapter
  {
    if s.released then s else s.(restriction := maxFps)
  }

  /** Enabling or disabling a configured layer invalidates that layer's convergence. */
  function UpdateLayerStatus(s: Adapter, index: nat, enabled: bool): Adapter
  {
    if s.released || s.zh.None? || index >= |s.zh.value.layers| then s
    else
      var z := s.zh.value;
      s.(zh := Some(z.(layers := z.layers[index := Layer(enabled, false)])))
  }

  function UpdateLayerQualityConvergence(s: Adapter, index: nat, converged: bool): Adapter
  {
    if s.released || s.zh.None? || index >= |s.zh.value.layers| then s
    else
      var z := s.zh.value;
      s.(zh := Some(z.(layers := z.layers[index := z.layers[index].(converged := converged)])))
  }

  /** A key frame is coming: convergence is reset; an idle repeat more than one period
      away is replaced by a short repeat from now. No refresh frame is requested. */
  function ProcessKeyFrameRequest(s: Adapter): Adapter
  {
    if s.released || s.zh.None? then s
    else
      var z := s.zh.value.(layers := ResetConvergence(s.zh.value.layers));
      if z.repeat.None? || !z.repeat.value.idle || z.repeat.value.due - s.clock <= z.period then
        s.(zh := Some(z))
      else
        var r := z.repeat.value;
        var due := s.clock + ShortRepeatPeriod(z, s.restriction);
        s.(zh := Some(z.(repeat := Some(r.(scheduled := s.clock, idle := false, due := due)))))
  }

  /** The frame rate the adapter reports: max fps in zero-hertz mode, else the measured rate. */
  function InputFrameRateFps(s: Adapter, measured: int): int
  {
    if s.zh.Some? then s.zh.value.maxFps else measured
  }

  /** The adapter's queue does not run while the clock moves to `t`. */
  function SkipTo(s: Adapter, t: int): Adapter
    requires s.clock <= t
  {
    s.(clock := t)
  }

  /** Destruction: every queued task becomes a no-op. */
  function Release(s: Adapter): Adapter
  {
    s.(released := true, zh := None, posted := [])
  }

  // ---------------------------------------------------------------- running the queue

  datatype Task = FrameTask(due: int) | RefreshTask(due: int)

  /** Due time of the forward or repeat task, if any. */
  function FrameDue(z: ZeroHertz): Option<int>
  {
    if |z.queued| > 0 then Some(z.queued[0].due)
    else if z.repeat.Some? then Some(z.repeat.value.due)
    else None
  }

  /** The earliest delayed task due by `t`; at equal times the frame task runs first. */
  function NextTask(s: Adapter, t: int): Option<Task>
  {
    if s.zh.None? then None
    else
      var z := s.zh.value;
      var fd := FrameDue(z);
      if fd.Some? && fd.value <= t && (z.refreshDue.None? || fd.value <= z.refreshDue.value) then
        Some(FrameTask(fd.value))
      else if z.refreshDue.Some? && z.refreshDue.value <= t then
        Some(RefreshTask(z.refreshDue.value))
      else None
  }

  function EnqueueFrame(z: ZeroHertz, p: Posted, now: int): ZeroHertz
  {
    z.(queued := z.queued + [Queued(p.frame, Max(p.postTime + z.period, now))],
       repeat := None,
       refreshDue := None,
       layers := ResetConvergence(z.layers))
  }

  /** Run the oldest posted frame on the adapter's queue at the current clock. */
  function ProcessPosted(s: Adapter): Adapter
    requires |s.posted| > 0
  {
    var p := s.posted[0];
    if s.zh.None? then
      s.(posted := s.posted[1..], log := s.log + [Delivered(p.postTime, |s.posted| > 1, p.frame)])
    else
      s.(posted := s.posted[1..], zh := Some(EnqueueFrame(s.zh.value, p, s.clock)))
  }

  /** The forward or repeat task fires (late if the clock is past its due time). */
  function FireFrameTask(s: Adapter, d: int): Adapter
    requires s.zh.Some? && FrameDue(s.zh.value) == Some(d)
  {
    var z := s.zh.value;
    var now := Max(s.clock, d);
    var idle := Settled(z.layers);
    var next := now + RepeatPeriod(s.cfg, z, s.restriction, idle);
    if |z.queued| > 0 then
      var f := z.queued[0].frame;
      var z' := if |z.queued| > 1 then z.(queued := z.queued[1..])
                else z.(queued := [], repeat := Some(ScheduledRepeat(f, now, now, idle, next)));
      s.(clock := now, zh := Some(z'), log := s.log + [Delivered(now, false, f)])
    else
      var r := z.repeat.value;
      s.(clock := now,
         zh := Some(z.(repeat := Some(r.(scheduled := now, idle := idle, due := next)))),
         log := s.log + [Delivered(now, false, Advanced(r.frame, now - r.origin))])
  }

  /** The refresh requester fires and re-arms itself one frame period later. */
  function FireRefresh(s: Adapter, d: int): Adapter
    requires s.zh.Some? && s.zh.value.refreshDue == Some(d)
  {
    var z := s.zh.value;
    var now := Max(s.clock, d);
    s.(clock := now,
       zh := Some(z.(refreshDue := Some(now + z.period))),
       log := s.log + [RefreshRequested(now)])
  }

  function Due(d: int, t: int): nat
  {
    if d <= t then t - d + 1 else 0
  }

  function QueueCost(q: seq<Queued>, t: int): nat
  {
    if q == [] then 0 else Due(q[0].due, t) + QueueCost(q[1..], t)
  }

  /** Termination measure of Advance: how far overdue, by `t`, the pending tasks are. */
  function Cost(s: Adapter, t: int): nat
  {
    if s.zh.None? then 0
    else
      var z := s.zh.value;
      QueueCost(z.queued, t)
      + (if z.repeat.Some? then Due(z.repeat.value.due, t) else 0)
      + (if z.refreshDue.Some? then Due(z.refreshDue.value, t) else 0)
  }

  lemma FireFrameTaskCost(s: Adapter, d: int, t: int)
    requires s.zh.Some? && FrameDue(s.zh.value) == Some(d) && d <= t && s.clock <= t
    ensures FireFrameTask(s, d).clock <= t
    ensures Cost(FireFrameTask(s, d), t) < Cost(s, t)
  {
  }

  lemma FireRefreshCost(s: Adapter, d: int, t: int)
    requires s.zh.Some? && s.zh.value.refreshDue == Some(d) && d <= t && s.clock <= t
    ensures FireRefresh(s, d).clock <= t
    ensures Cost(FireRefresh(s, d), t) < Cost(s, t)
  {
  }

  /** Let the queue run until the clock reads `t`: posted frames first, then every delayed
      task due by `t` in time order. */
  function Advance(s: Adapter, t: int): (r: Adapter)
    requires s.clock <= t
    decreases |s.posted|, Cost(s, t)
  {
    if |s.posted| > 0 then Advance(ProcessPosted(s), t)
    else
      match NextTask(s, t)
      case None => s.(clock := t)
      case Some(FrameTask(d)) =>
        FireFrameTaskCost(s, d, t);
        Advance(FireFrameTask(s, d), t)
      case Some(RefreshTask(d)) =>
        FireRefreshCost(s, d, t);
        Advance(FireRefresh(s, d), t)
  }
}
