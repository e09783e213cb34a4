/** The frame cadence adapter as an object whose methods update its state in place.
    Each method is proved to perform exactly the transition of the same name in
    CadenceSpec on the abstract value `Model()`, so every property proved in
    CadenceProperties holds of the object. */
module CadenceAdapter {
  import opened CadenceSpec

  class FrameCadenceAdapter {
    const cfg: Config
    var clock: int
    var params: Option<nat>
    var constraints: Option<Constraints>
    var restriction: Option<int>
    var released: bool
    /** Frames handed over by OnFrame and not yet run on the adapter's queue. */
    var posted: seq<Posted>
    /** Everything handed to the callback so far. */
    var log: seq<Event>

    // The zero-hertz scheduler; its fields mean something only while it is active.
    var zeroHertzActive: bool
    var maxFps: int
    var framePeriod: PosMicros
    var queued: seq<Queued>
    var repeat: Option<ScheduledRepeat>
    var refreshDue: Option<int>
    var layers: seq<Layer>

    ghost function Model(): Adapter
      reads this
    {
      Adapter(cfg, clock, params, constraints, restriction,
              if zeroHertzActive then Some(ZeroHertz(maxFps, framePeriod, queued, repeat, refreshDue, layers))
              else None,
              posted, log, released)
    }

    constructor(cfg: Config, now: int)
      ensures Model() == Create(cfg, now)
    {
      this.cfg := cfg;
      clock := now;
      params := None;
      constraints := None;
      restriction := None;
      released := false;
      posted := [];
      log := [];
      zeroHertzActive := false;
      maxFps := 0;
      framePeriod := 1;
      queued := [];
      repeat := None;
      refreshDue := None;
      layers := [];
    }

    method OnFrame(f: Frame)
      modifies this
      ensures Model() == CadenceSpec.OnFrame(old(Model()), f)
    {
      if !released {
        posted := posted + [Posted(f, clock)];
      }
    }

    method OnDiscardedFrame()
      modifies this
      ensures Model() == CadenceSpec.OnDiscardedFrame(old(Model()))
    {
      if !released {
        log := log + [DiscardForwarded(clock)];
        if zeroHertzActive && refreshDue.None? {
          refreshDue := Some(clock + cfg.refreshGracePeriods * framePeriod);
        }
      }
    }

    /** Enter, leave or rebuild the zero-hertz scheduler. */
    method Reconfigure(resetLayers: bool)
      modifies this
      ensures Model() == CadenceSpec.Reconfigure(old(Model()), resetLayers)
    {
      if !ZeroHertzEnabled(cfg, params, constraints) {
        zeroHertzActive := false;
      } else {
        var fps := constraints.value.maxFps.value;
        var n := params.value;
        if !zeroHertzActive || maxFps != fps {
          zeroHertzActive := true;
          maxFps := fps;
          framePeriod := FramePeriod(fps);
          queued := [];
          repeat := None;
          refreshDue := Some(clock + cfg.refreshGracePeriods * framePeriod);
          layers := UnconvergedLayers(n);
        } else if resetLayers {
          layers := UnconvergedLayers(n);
        }
      }
    }

    method OnConstraintsChanged(c: Constraints)
      modifies this
      ensures Model() == CadenceSpec.OnConstraintsChanged(old(Model()), c)
    {
      if !released {
        constraints := Some(c);
        Reconfigure(false);
      }
    }

    method SetZeroHertzModeEnabled(p: Option<nat>)
      modifies this
      ensures Model() == CadenceSpec.SetZeroHertzModeEnabled(old(Model()), p)
    {
      if !released {
        params := p;
        Reconfigure(true);
      }
    }

    method UpdateVideoSourceRestrictions(fps: Option<int>)
      modifies this
      ensures Model() == CadenceSpec.UpdateVideoSourceRestrictions(old(Model()), fps)
    {
      if !released {
        restriction := fps;
      }
    }

    /** Clears the converged flag of every layer. */
    method ResetLayerConvergence()
      modifies this`layers
      ensures layers == ResetConvergence(old(layers))
    {
      var i := 0;
      while i < |layers|
        invariant 0 <= i <= |layers| == |old(layers)|
        invariant forall j :: 0 <= j < i ==> layers[j] == old(layers)[j].(converged := false)
        invariant forall j :: i <= j < |layers| ==> layers[j] == old(layers)[j]
      {
        layers := layers[i := layers[i].(converged := false)];
        i := i + 1;
      }
    }

    method UpdateLayerStatus(index: nat, enabled: bool)
      modifies this
      ensures Model() == CadenceSpec.UpdateLayerStatus(old(Model()), index, enabled)
    {
      if !released && zeroHertzActive && index < |layers| {
        layers := layers[index := Layer(enabled, false)];
      }
    }

    method UpdateLayerQualityConvergence(index: nat, converged: bool)
      modifies this
      ensures Model() == CadenceSpec.UpdateLayerQualityConvergence(old(Model()), index, converged)
    {
      if !released && zeroHertzActive && index < |layers| {
        layers := layers[index := layers[index].(converged := converged)];
      }
    }

    /** Whether the stream has settled: some layer is enabled and all enabled layers converged. */
    method HasQualityConverged() returns (settled: bool)
      ensures settled == Settled(layers)
    {
      var anyEnabled := false;
      var i := 0;
      while i < |layers|
        invariant 0 <= i <= |layers|
        invariant anyEnabled <==> exists j :: 0 <= j < i && layers[j].enabled
        invariant forall j :: 0 <= j < i && layers[j].enabled ==> layers[j].converged
      {
        if layers[i].enabled {
          if !layers[i].converged {
            return false;
          }
          anyEnabled := true;
        }
        i := i + 1;
      }
      return anyEnabled;
    }

    /** The repeat period while unsettled. */
    method ShortRepeatPeriod() returns (p: PosMicros)
      requires zeroHertzActive
      ensures p == CadenceSpec.ShortRepeatPeriod(Model().zh.value, restriction)
    {
      p := framePeriod;
      if restriction.Some? && restriction.value > 0 {
        var limit := FramePeriod(restriction.value);
        if p < limit {
          p := limit;
        }
      }
    }

    method ProcessKeyFrameRequest()
      modifies this
      ensures Model() == CadenceSpec.ProcessKeyFrameRequest(old(Model()))
    {
      if !released && zeroHertzActive {
        ResetLayerConvergence();
        if repeat.Some? && repeat.value.idle && repeat.value.due - clock > framePeriod {
          var short := ShortRepeatPeriod();
          repeat := Some(repeat.value.(scheduled := clock, idle := false, due := clock + short));
        }
      }
    }

    method GetInputFrameRateFps(measured: int) returns (fps: int)
      ensures zeroHertzActive ==> fps == maxFps
      ensures !zeroHertzActive ==> fps == measured
      ensures fps == InputFrameRateFps(Model(), measured)
    {
      fps := if zeroHertzActive then maxFps else measured;
    }

    /** Destruction: what is still queued never runs. */
    method Release()
      modifies this
      ensures Model() == CadenceSpec.Release(old(Model()))
    {
      released := true;
      zeroHertzActive := false;
      posted := [];
    }

    /** The clock moves to `t` while the adapter's queue does not run. */
    method SkipTo(t: int)
      requires clock <= t
      modifies this
      ensures Model() == CadenceSpec.SkipTo(old(Model()), t)
    {
      clock := t;
    }

    /** Runs the oldest posted frame. */
    method ProcessOnePosted()
      requires |posted| > 0
      modifies this
      ensures Model() == CadenceSpec.ProcessPosted(old(Model()))
    {
      var p := posted[0];
      if !zeroHertzActive {
        log := log + [Delivered(p.postTime, |posted| > 1, p.frame)];
      } else {
        queued := queued + [Queued(p.frame, Max(p.postTime + framePeriod, clock))];
        repeat := None;
        refreshDue := None;
        ResetLayerConvergence();
      }
      posted := posted[1..];
    }

    /** One step of AdvanceTo: fires the forward or repeat task due at `d`, which must be the
        next task of the queue. */
    method FireFrame(d: int)
      requires posted == [] && zeroHertzActive
      requires NextTask(Model(), d) == Some(FrameTask(d))
      modifies this
      ensures Model() == CadenceSpec.FireFrameTask(old(Model()), d)
    {
      var now := Max(clock, d);
      var idle := HasQualityConverged();
      var every: PosMicros := cfg.idleRepeatPeriod;
      if !idle {
        every := ShortRepeatPeriod();
      }
      var next := now + every;
      if |queued| > 0 {
        var f := queued[0].frame;
        if |queued| > 1 {
          queued := queued[1..];
        } else {
          queued := [];
          repeat := Some(ScheduledRepeat(f, now, now, idle, next));
        }
        log := log + [Delivered(now, false, f)];
      } else {
        var r := repeat.value;
        repeat := Some(r.(scheduled := now, idle := idle, due := next));
        log := log + [Delivered(now, false, Advanced(r.frame, now - r.origin))];
      }
      clock := now;
    }

    /** One step of AdvanceTo: fires the refresh requester due at `d`, which must be the next
        task of the queue, and re-arms it. */
    method FireRefresh(d: int)
      requires posted == [] && zeroHertzActive
      requires NextTask(Model(), d) == Some(RefreshTask(d))
      modifies this
      ensures Model() == CadenceSpec.FireRefresh(old(Model()), d)
    {
      var now := Max(clock, d);
      refreshDue := Some(now + framePeriod);
      log := log + [RefreshRequested(now)];
      clock := now;
    }

    /** Lets the adapter's queue run until the clock reads `t`: posted frames first,
        then every delayed task due by `t`, earliest first. */
    method AdvanceTo(t: int)
      requires clock <= t
      modifies this
      ensures Model() == CadenceSpec.Advance(old(Model()), t)
    {
      while true
        invariant clock <= t
        invariant Advance(Model(), t) == Advance(old(Model()), t)
        decreases |posted|, Cost(Model(), t)
      {
        if |posted| > 0 {
          ProcessOnePosted();
        } else {
          var frameDue: Option<int> := None;
          if zeroHertzActive && |queued| > 0 {
            frameDue := Some(queued[0].due);
          } else if zeroHertzActive && repeat.Some? {
            frameDue := Some(repeat.value.due);
          }
          if frameDue.Some? && frameDue.value <= t && (refreshDue.None? || frameDue.value <= refreshDue.value) {
            FireFrameTaskCost(Model(), frameDue.value, t);
            FireFrame(frameDue.value);
          } else if zeroHertzActive && refreshDue.Some? && refreshDue.value <= t {
            FireRefreshCost(Model(), refreshDue.value, t);
            FireRefresh(refreshDue.value);
          } else {
            clock := t;
            return;
          }
        }
      }
    }
  }
}
