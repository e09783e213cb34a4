/** What the adapter promises, proved about the transitions of module CadenceSpec. */
module CadenceProperties {
  import opened CadenceSpec

  // ---------------------------------------------------------------- invariant

  ghost predicate ZeroHertzValid(z: ZeroHertz)
  {
    && z.maxFps > 0
    && z.period == FramePeriod(z.maxFps)
    && (z.repeat.Some? ==> z.queued == [])
  }

  /** The adapter invariant: the zero-hertz scheduler exists exactly while the mode is
      enabled, runs at the configured max fps, and has one layer row per configured layer;
      a released adapter has nothing left to run. */
  ghost predicate Valid(s: Adapter)
  {
    && (s.released ==> s.zh.None? && s.posted == [])
    && (!s.released ==> (s.zh.Some? <==> ZeroHertzEnabled(s.cfg, s.params, s.constraints)))
    && (s.zh.Some? ==>
          && ZeroHertzValid(s.zh.value)
          && s.constraints.Some? && s.constraints.value.maxFps == Some(s.zh.value.maxFps)
          && s.params.Some? && |s.zh.value.layers| == s.params.value)
  }

  lemma CreateValid(cfg: Config, now: int)
    ensures Valid(Create(cfg, now))
    ensures Create(cfg, now).log == [] && Create(cfg, now).zh.None?
  {
  }

  lemma OperationsPreserveValid(s: Adapter, f: Frame, c: Constraints, p: Option<nat>, r: Option<int>, i: nat, b: bool)
    requires Valid(s)
    ensures Valid(OnFrame(s, f)) && Valid(OnDiscardedFrame(s))
    ensures Valid(OnConstraintsChanged(s, c)) && Valid(SetZeroHertzModeEnabled(s, p))
    ensures Valid(UpdateVideoSourceRestrictions(s, r)) && Valid(ProcessKeyFrameRequest(s))
    ensures Valid(UpdateLayerStatus(s, i, b)) && Valid(UpdateLayerQualityConvergence(s, i, b))
    ensures Valid(Release(s))
  {
  }

  lemma {:induction false} AdvancePreservesValid(s: Adapter, t: int)
    requires Valid(s) && s.clock <= t
    ensures Valid(Advance(s, t))
    decreases |s.posted|, Cost(s, t)
  {
    if |s.posted| > 0 {
      AdvancePreservesValid(ProcessPosted(s), t);
    } else {
      match NextTask(s, t)
      case None =>
      case Some(FrameTask(d)) =>
        FireFrameTaskCost(s, d, t);
        AdvancePreservesValid(FireFrameTask(s, d), t);
      case Some(RefreshTask(d)) =>
        FireRefreshCost(s, d, t);
        AdvancePreservesValid(FireRefresh(s, d), t);
    }
  }

  /** Running the queue only appends to the callback log and ends at the target time. */
  lemma {:induction false} AdvanceAppends(s: Adapter, t: int)
    requires s.clock <= t
    ensures |s.log| <= |Advance(s, t).log| && Advance(s, t).log[..|s.log|] == s.log
    ensures Advance(s, t).clock == t && Advance(s, t).posted == []
    decreases |s.posted|, Cost(s, t)
  {
    if |s.posted| > 0 {
      AdvanceAppends(ProcessPosted(s), t);
    } else {
      match NextTask(s, t)
      case None =>
      case Some(FrameTask(d)) =>
        FireFrameTaskCost(s, d, t);
        AdvanceAppends(FireFrameTask(s, d), t);
      case Some(RefreshTask(d)) =>
        FireRefreshCost(s, d, t);
        AdvanceAppends(FireRefresh(s, d), t);
    }
  }

  // ---------------------------------------------------------------- passthrough

  /** The deliveries passthrough mode makes for frames posted in this order: each frame once,
      with its own post time, flagged when more frames were waiting behind it. */
  function PassthroughEvents(ps: seq<Posted>): seq<Event>
  {
    seq(|ps|, i requires 0 <= i < |ps| => Delivered(ps[i].postTime, |ps| - i > 1, ps[i].frame))
  }

  lemma {:induction false} PassthroughDeliversEachFrameOnce(s: Adapter, t: int)
    requires s.zh.None? && s.clock <= t
    ensures Advance(s, t).log == s.log + PassthroughEvents(s.posted)
    ensures Advance(s, t).posted == [] && Advance(s, t).clock == t
    decreases |s.posted|
  {
    if |s.posted| > 0 {
      var s' := ProcessPosted(s);
      PassthroughDeliversEachFrameOnce(s', t);
      assert PassthroughEvents(s.posted)
          == [Delivered(s.posted[0].postTime, |s.posted| > 1, s.posted[0].frame)] + PassthroughEvents(s'.posted);
    }
  }

  /** Two frames submitted back to back: the first is flagged, the second is not. */
  lemma BackToBackFramesFlagged(s: Adapter, a: Frame, b: Frame, t: int)
    requires s.zh.None? && !s.released && s.posted == [] && s.clock <= t
    ensures Advance(OnFrame(OnFrame(s, a), b), t).log
         == s.log + [Delivered(s.clock, true, a), Delivered(s.clock, false, b)]
  {
    var s2 := OnFrame(OnFrame(s, a), b);
    PassthroughDeliversEachFrameOnce(s2, t);
    assert s2.posted == [Posted(a, s.clock), Posted(b, s.clock)];
  }

  /** A lone frame is delivered at once, not flagged. */
  lemma LoneFrameNotFlagged(s: Adapter, f: Frame)
    requires s.zh.None? && !s.released && s.posted == []
    ensures Advance(OnFrame(s, f), s.clock).log == s.log + [Delivered(s.clock, false, f)]
  {
    PassthroughDeliversEachFrameOnce(OnFrame(s, f), s.clock);
  }

  /** Discard notices reach the callback at once, in either mode, and change no schedule
      other than arming the refresh requester. */
  lemma DiscardNoticeForwarded(s: Adapter)
    requires !s.released
    ensures OnDiscardedFrame(s).log == s.log + [DiscardForwarded(s.clock)]
    ensures OnDiscardedFrame(s).posted == s.posted
    ensures s.zh.None? ==> OnDiscardedFrame(s) == s.(log := s.log + [DiscardForwarded(s.clock)])
    ensures s.zh.Some? ==>
              (OnDiscardedFrame(s).zh.Some?
               && OnDiscardedFrame(s).zh.value.(refreshDue := s.zh.value.refreshDue) == s.zh.value)
  {
  }

  /** With the field trial disabled the adapter stays in passthrough mode whatever it is told. */
  lemma DisabledTrialNeverActivates(s: Adapter, c: Constraints, p: Option<nat>)
    requires Valid(s) && !s.cfg.zeroHertzTrial
    ensures s.zh.None?
    ensures OnConstraintsChanged(s, c).zh.None? && SetZeroHertzModeEnabled(s, p).zh.None?
  {
  }

  // ---------------------------------------------------------------- reported rate

  /** In zero-hertz mode the reported input rate is the configured max fps. */
  lemma ReportedRateIsMaxFps(s: Adapter, measured: int)
    requires Valid(s) && s.zh.Some?
    ensures InputFrameRateFps(s, measured) == s.constraints.value.maxFps.value
  {
  }

  /** Outside zero-hertz mode the reported rate is the measured one. */
  lemma ReportedRateIsMeasured(s: Adapter, measured: int)
    requires Valid(s) && !s.released && !ZeroHertzEnabled(s.cfg, s.params, s.constraints)
    ensures InputFrameRateFps(s, measured) == measured
  {
  }

  /** Disabling zero-hertz mode drops the scheduler and the reported rate is the measured one again. */
  lemma DeactivationRestoresMeasuredRate(s: Adapter, measured: int)
    requires Valid(s) && !s.released
    ensures SetZeroHertzModeEnabled(s, None).zh.None?
    ensures InputFrameRateFps(SetZeroHertzModeEnabled(s, None), measured) == measured
    ensures Valid(SetZeroHertzModeEnabled(s, None))
  {
  }

  /** A constraint change to a new max fps is reported at once, stops the repeat cadence,
      starts a new refresh grace period and keeps the source restriction. */
  lemma ConstraintChangeRestartsScheduler(s: Adapter, c: Constraints, measured: int)
    requires Valid(s) && !s.released
    requires ZeroHertzEnabled(s.cfg, s.params, Some(c))
    requires s.zh.None? || s.zh.value.maxFps != c.maxFps.value
    ensures var s' := OnConstraintsChanged(s, c);
      && Valid(s')
      && InputFrameRateFps(s', measured) == c.maxFps.value
      && s'.zh.Some?
      && s'.zh.value.period == FramePeriod(c.maxFps.value)
      && s'.zh.value.queued == [] && s'.zh.value.repeat.None?
      && s'.zh.value.refreshDue == Some(s.clock + s.cfg.refreshGracePeriods * FramePeriod(c.maxFps.value))
      && s'.restriction == s.restriction
      && s'.log == s.log && s'.posted == s.posted
  {
  }

  // ---------------------------------------------------------------- forwarding

  /** In zero-hertz mode a frame posted at `post`, with no other frame waiting, is delivered
      exactly one frame period after its post time (or as soon as the queue runs, if that is
      later), with its own timestamps; nothing is delivered or requested before. */
  lemma {:induction false} FrameDeliveredOnePeriodAfterPost(s: Adapter, f: Frame, post: int, t: int)
    requires s.zh.Some? && s.zh.value.queued == [] && s.posted == [Posted(f, post)]
    requires post <= s.clock <= t
    ensures var due := Max(post + s.zh.value.period, s.clock);
      && (t < due ==> Advance(s, t).log == s.log)
      && (t == due ==> Advance(s, t).log == s.log + [Delivered(due, false, f)])
  {
    var due := Max(post + s.zh.value.period, s.clock);
    var s1 := ProcessPosted(s);
    assert s1.zh.value.queued == [Queued(f, due)];
    assert s1.zh.value.refreshDue.None?;
    assert Advance(s, t) == Advance(s1, t);
    if t < due {
      assert NextTask(s1, t).None?;
    } else if t == due {
      assert NextTask(s1, t) == Some(FrameTask(due));
      var s2 := FireFrameTask(s1, due);
      assert Advance(s1, t) == Advance(s2, t);
      assert s2.log == s.log + [Delivered(due, false, f)];
      assert FrameDue(s2.zh.value).value > t;
      assert NextTask(s2, t).None?;
    }
  }

  /** A frame submitted right after a change of max fps is delivered one new period later. */
  lemma FrameAfterConstraintChange(s: Adapter, c: Constraints, f: Frame)
    requires Valid(s) && !s.released && s.posted == []
    requires ZeroHertzEnabled(s.cfg, s.params, Some(c))
    requires s.zh.None? || s.zh.value.maxFps != c.maxFps.value
    ensures var s' := OnFrame(OnConstraintsChanged(s, c), f);
      var due := s.clock + FramePeriod(c.maxFps.value);
      Advance(s', due).log == s.log + [Delivered(due, false, f)]
  {
    var s1 := OnConstraintsChanged(s, c);
    ConstraintChangeRestartsScheduler(s, c, 0);
    var s' := OnFrame(s1, f);
    FrameDeliveredOnePeriodAfterPost(s', f, s.clock, s.clock + FramePeriod(c.maxFps.value));
  }

  // ---------------------------------------------------------------- repeating

  /** The deliveries of `n` repeats of `f`, the first at `first`, then every `every`
      microseconds, timestamps advanced by the time elapsed since `origin`. */
  function RepeatEvents(f: Frame, origin: int, first: int, every: int, n: nat): seq<Event>
  {
    seq(n, i => Delivered(first + i * every, false, Advanced(f, first + i * every - origin)))
  }

  /** `k` periods from `first` are `k - 1` periods from one period after `first`. */
  lemma ShiftByPeriod(first: int, every: int, k: int)
    ensures first + k * every == (first + every) + (k - 1) * every
  {
    assert k * every == every + (k - 1) * every;
  }

  /** RepeatEvents peeled by its first delivery. */
  lemma RepeatEventsSplit(f: Frame, origin: int, first: int, every: int, k: nat)
    ensures RepeatEvents(f, origin, first, every, k + 1)
         == [Delivered(first, false, Advanced(f, first - origin))]
            + RepeatEvents(f, origin, first + every, every, k)
  {
    var all := RepeatEvents(f, origin, first, every, k + 1);
    var rest := RepeatEvents(f, origin, first + every, every, k);
    forall i | 1 <= i < k + 1
      ensures all[i] == rest[i - 1]
    {
      ShiftByPeriod(first, every, i);
    }
  }

  /** An idle-queue scheduler whose repeat is due fires it and schedules the next one
      period later, keeping everything else that decides the cadence. */
  lemma FireRepeat(s: Adapter, t: int)
    requires s.zh.Some? && s.posted == [] && s.zh.value.queued == [] && s.zh.value.repeat.Some?
    requires s.zh.value.refreshDue.None?
    requires s.clock <= s.zh.value.repeat.value.due <= t
    ensures var z := s.zh.value;
      var r := z.repeat.value;
      var every := RepeatPeriod(s.cfg, z, s.restriction, Settled(z.layers));
      var s1 := FireFrameTask(s, r.due);
      && Advance(s, t) == Advance(s1, t)
      && s1.posted == [] && s1.zh.Some? && s1.zh.value.queued == [] && s1.zh.value.refreshDue.None?
      && s1.clock == r.due
      && s1.zh.value.repeat.Some?
      && s1.zh.value.repeat.value.frame == r.frame
      && s1.zh.value.repeat.value.origin == r.origin
      && s1.zh.value.repeat.value.due == r.due + every
      && RepeatPeriod(s1.cfg, s1.zh.value, s1.restriction, Settled(s1.zh.value.layers)) == every
      && s1.log == s.log + [Delivered(r.due, false, Advanced(r.frame, r.due - r.origin))]
  {
    var r := s.zh.value.repeat.value;
    assert NextTask(s, t) == Some(FrameTask(r.due));
  }

  /** Without new frames, the pending repeat fires at its due time and the last frame is then
      repeated every short period while unsettled, every idle period while settled, each repeat
      carrying the original timestamps advanced by the time since the original delivery. */
  lemma {:induction false} RepeatsAtSteadyCadence(s: Adapter, k: nat)
    requires s.zh.Some? && s.posted == [] && s.zh.value.queued == [] && s.zh.value.repeat.Some?
    requires s.zh.value.refreshDue.None?
    requires s.clock <= s.zh.value.repeat.value.due
    decreases k, 1
    ensures var z := s.zh.value;
      var r := z.repeat.value;
      var every := RepeatPeriod(s.cfg, z, s.restriction, Settled(z.layers));
      Advance(s, r.due + k * every).log == s.log + RepeatEvents(r.frame, r.origin, r.due, every, k + 1)
  {
    var z := s.zh.value;
    var r := z.repeat.value;
    var every := RepeatPeriod(s.cfg, z, s.restriction, Settled(z.layers));
    if k == 0 {
      assert r.due + k * every == r.due;
      FireRepeat(s, r.due);
      assert NextTask(FireFrameTask(s, r.due), r.due).None?;
      assert RepeatEvents(r.frame, r.origin, r.due, every, 1) == [Delivered(r.due, false, Advanced(r.frame, r.due - r.origin))];
    } else {
      FireRepeat(s, r.due + k * every);
      SteadyCadenceShifted(s, FireFrameTask(s, r.due), k, every);
    }
  }

  /** RepeatsAtSteadyCadence after the pending repeat has fired, leaving `s1` with the next
      repeat one period later. */
  lemma {:induction false} SteadyCadenceShifted(s: Adapter, s1: Adapter, k: nat, every: int)
    requires s.zh.Some? && s.zh.value.repeat.Some? && k > 0
    requires every == RepeatPeriod(s.cfg, s.zh.value, s.restriction, Settled(s.zh.value.layers))
    requires var r := s.zh.value.repeat.value;
      && s.clock <= r.due + k * every
      && s1.zh.Some? && s1.posted == [] && s1.zh.value.queued == [] && s1.zh.value.refreshDue.None?
      && s1.zh.value.repeat.Some?
      && s1.zh.value.repeat.value.frame == r.frame
      && s1.zh.value.repeat.value.origin == r.origin
      && s1.zh.value.repeat.value.due == r.due + every
      && s1.clock <= s1.zh.value.repeat.value.due
      && RepeatPeriod(s1.cfg, s1.zh.value, s1.restriction, Settled(s1.zh.value.layers)) == every
      && s1.log == s.log + [Delivered(r.due, false, Advanced(r.frame, r.due - r.origin))]
      && s1.clock <= r.due + k * every
      && Advance(s, r.due + k * every) == Advance(s1, r.due + k * every)
    decreases k, 0
    ensures var r := s.zh.value.repeat.value;
      Advance(s, r.due + k * every).log == s.log + RepeatEvents(r.frame, r.origin, r.due, every, k + 1)
  {
    var r := s.zh.value.repeat.value;
    var t := r.due + k * every;
    ShiftByPeriod(r.due, every, k);
    var r1 := s1.zh.value.repeat.value;
    var every1 := RepeatPeriod(s1.cfg, s1.zh.value, s1.restriction, Settled(s1.zh.value.layers));
    assert r1.due + (k - 1) * every1 == t;
    RepeatsAtSteadyCadence(s1, k - 1);
    var first := [Delivered(r.due, false, Advanced(r.frame, r.due - r.origin))];
    var rest := RepeatEvents(r.frame, r.origin, r.due + every, every, k);
    assert RepeatEvents(r1.frame, r1.origin, r1.due, every1, k) == rest;
    assert Advance(s1, r1.due + (k - 1) * every1).log == s1.log + rest;
    RepeatEventsSplit(r.frame, r.origin, r.due, every, k);
    calc {
      Advance(s, t).log;
      Advance(s1, t).log;
      (s.log + first) + rest;
      s.log + (first + rest);
    }
  }

  /** A frame posted to an idle zero-hertz scheduler is delivered one frame period after its
      post time with its own timestamps, then repeated every short period, the i-th repeat
      carrying the original timestamps advanced by i short periods. */
  lemma FrameThenRepeats(s: Adapter, f: Frame, post: int, k: nat)
    requires s.zh.Some? && s.zh.value.queued == [] && s.posted == [Posted(f, post)]
    requires post <= s.clock
    ensures var due := Max(post + s.zh.value.period, s.clock);
      var every := ShortRepeatPeriod(s.zh.value, s.restriction);
      Advance(s, due + (k + 1) * every).log
        == s.log + [Delivered(due, false, f)] + RepeatEvents(f, due, due + every, every, k + 1)
  {
    var z := s.zh.value;
    var due := Max(post + z.period, s.clock);
    var every := ShortRepeatPeriod(z, s.restriction);
    var t := due + (k + 1) * every;
    FirstDelivery(s, f, post, t);
    ShiftByPeriod(due, every, k + 1);
    RepeatsAfterFirstDelivery(s, FireFrameTask(ProcessPosted(s), due), f, due, every, k);
  }

  /** The first step of FrameThenRepeats: the posted frame is queued and delivered at `due`,
      leaving a short repeat of it pending. */
  lemma FirstDelivery(s: Adapter, f: Frame, post: int, t: int)
    requires s.zh.Some? && s.zh.value.queued == [] && s.posted == [Posted(f, post)]
    requires post <= s.clock && Max(post + s.zh.value.period, s.clock) <= t
    ensures var due := Max(post + s.zh.value.period, s.clock);
      var every := ShortRepeatPeriod(s.zh.value, s.restriction);
      var s2 := FireFrameTask(ProcessPosted(s), due);
      && Advance(s, t) == Advance(s2, t)
      && s2.posted == [] && s2.clock == due && s2.zh.Some?
      && s2.zh.value.queued == [] && s2.zh.value.refreshDue.None?
      && s2.zh.value.repeat == Some(ScheduledRepeat(f, due, due, false, due + every))
      && RepeatPeriod(s2.cfg, s2.zh.value, s2.restriction, Settled(s2.zh.value.layers)) == every
      && s2.log == s.log + [Delivered(due, false, f)]
  {
    var z := s.zh.value;
    var due := Max(post + z.period, s.clock);
    var s1 := ProcessPosted(s);
    assert Advance(s, t) == Advance(s1, t);
    FrameEntryResets(z, s.posted[0], s.clock);
    assert s1.zh.value.queued == [Queued(f, due)];
    assert NextTask(s1, t) == Some(FrameTask(due));
    CadenceFollowsConvergence(s1, due);
  }

  /** The rest of FrameThenRepeats, from the state `s2` left by the first delivery. */
  lemma RepeatsAfterFirstDelivery(s: Adapter, s2: Adapter, f: Frame, due: int, every: int, k: nat)
    requires s2.posted == [] && s2.clock == due && s2.zh.Some?
    requires s2.zh.value.queued == [] && s2.zh.value.refreshDue.None?
    requires s2.zh.value.repeat == Some(ScheduledRepeat(f, due, due, false, due + every))
    requires RepeatPeriod(s2.cfg, s2.zh.value, s2.restriction, Settled(s2.zh.value.layers)) == every
    requires s2.log == s.log + [Delivered(due, false, f)]
    requires s.clock <= due + (k + 1) * every && due + (k + 1) * every == (due + every) + k * every
    requires Advance(s, due + (k + 1) * every) == Advance(s2, due + (k + 1) * every)
    ensures Advance(s, due + (k + 1) * every).log
         == s.log + [Delivered(due, false, f)] + RepeatEvents(f, due, due + every, every, k + 1)
  {
    RepeatsAtSteadyCadence(s2, k);
  }

  /** A repeat whose task runs late, because the queue was held up, is delivered when it runs
      with the frame advanced by the actual time since the original delivery, and the next
      repeat is counted from then. */
  lemma LateRepeatCarriesElapsedTime(s: Adapter)
    requires s.zh.Some? && s.posted == [] && s.zh.value.queued == [] && s.zh.value.repeat.Some?
    requires s.zh.value.refreshDue.None? || s.zh.value.refreshDue.value > s.clock
    requires s.zh.value.repeat.value.due <= s.clock
    ensures var z := s.zh.value;
      var r := z.repeat.value;
      var s' := Advance(s, s.clock);
      && s'.log == s.log + [Delivered(s.clock, false, Advanced(r.frame, s.clock - r.origin))]
      && s'.zh.Some? && s'.zh.value.repeat.Some?
      && s'.zh.value.repeat.value.origin == r.origin
      && s'.zh.value.repeat.value.due == s.clock + RepeatPeriod(s.cfg, z, s.restriction, Settled(z.layers))
  {
    var r := s.zh.value.repeat.value;
    assert NextTask(s, s.clock) == Some(FrameTask(r.due));
    var s1 := FireFrameTask(s, r.due);
    assert Advance(s, s.clock) == Advance(s1, s.clock);
    assert NextTask(s1, s.clock).None?;
  }

  /** The deliveries in a log, in order. */
  function Deliveries(log: seq<Event>): seq<Event>
  {
    if log == [] then []
    else
      var last := log[|log| - 1];
      Deliveries(log[..|log| - 1]) + (if last.Delivered? then [last] else [])
  }

  lemma DeliveriesAppend(log: seq<Event>, e: Event)
    ensures Deliveries(log + [e]) == Deliveries(log) + (if e.Delivered? then [e] else [])
  {
    assert (log + [e])[..|log|] == log;
  }

  /** With no frame waiting and no repeat due by `t`, running the queue to `t` delivers nothing;
      only refresh requests may fire. */
  lemma {:induction false} NoDeliveryBefore(s: Adapter, t: int)
    requires s.clock <= t && s.posted == []
    requires s.zh.Some? ==> s.zh.value.queued == [] && (s.zh.value.repeat.Some? ==> s.zh.value.repeat.value.due > t)
    ensures Deliveries(Advance(s, t).log) == Deliveries(s.log)
    decreases Cost(s, t)
  {
    match NextTask(s, t)
    case None =>
    case Some(FrameTask(d)) =>
      assert false;
    case Some(RefreshTask(d)) =>
      FireRefreshCost(s, d, t);
      RefreshesAppend(s.log, RefreshRequested(Max(s.clock, d)));
      DeliveriesAppend(s.log, RefreshRequested(Max(s.clock, d)));
      NoDeliveryBefore(FireRefresh(s, d), t);
  }

  /** A refresh request that runs before the pending repeat delivers nothing and leaves the
      repeat, and the period it keeps, as they were. */
  lemma RepeatSurvivesRefresh(s: Adapter, t: int, d: int)
    requires s.zh.Some? && s.posted == [] && s.zh.value.queued == [] && s.zh.value.repeat.Some?
    requires s.clock <= s.zh.value.repeat.value.due <= t
    requires NextTask(s, t) == Some(RefreshTask(d))
    ensures var z := s.zh.value;
      var s1 := FireRefresh(s, d);
      && Advance(s, t) == Advance(s1, t)
      && Cost(s1, t) < Cost(s, t)
      && Deliveries(s1.log) == Deliveries(s.log)
      && s1.zh.Some? && s1.posted == [] && s1.zh.value.queued == []
      && s1.zh.value.repeat == z.repeat
      && s1.clock <= z.repeat.value.due
      && RepeatPeriod(s1.cfg, s1.zh.value, s1.restriction, Settled(s1.zh.value.layers))
         == RepeatPeriod(s.cfg, z, s.restriction, Settled(z.layers))
  {
    FireRefreshCost(s, d, t);
    DeliveriesAppend(s.log, RefreshRequested(Max(s.clock, d)));
  }

  /** A due repeat fires whatever the refresh requester is doing, and the next one is
      scheduled one unchanged repeat period later. */
  lemma RepeatFires(s: Adapter, t: int)
    requires s.zh.Some? && s.posted == [] && s.zh.value.queued == [] && s.zh.value.repeat.Some?
    requires s.clock <= s.zh.value.repeat.value.due <= t
    requires NextTask(s, t) == Some(FrameTask(s.zh.value.repeat.value.due))
    ensures var z := s.zh.value;
      var r := z.repeat.value;
      var every := RepeatPeriod(s.cfg, z, s.restriction, Settled(z.layers));
      var s1 := FireFrameTask(s, r.due);
      && Advance(s, t) == Advance(s1, t)
      && s1.zh.Some? && s1.posted == [] && s1.zh.value.queued == []
      && s1.clock == r.due
      && s1.zh.value.repeat.Some?
      && s1.zh.value.repeat.value.frame == r.frame
      && s1.zh.value.repeat.value.origin == r.origin
      && s1.zh.value.repeat.value.due == r.due + every
      && RepeatPeriod(s1.cfg, s1.zh.value, s1.restriction, Settled(s1.zh.value.layers)) == every
      && Deliveries(s1.log) == Deliveries(s.log) + [Delivered(r.due, false, Advanced(r.frame, r.due - r.origin))]
  {
    var r := s.zh.value.repeat.value;
    DeliveriesAppend(s.log, Delivered(r.due, false, Advanced(r.frame, r.due - r.origin)));
  }

  /** With no new frame, the pending repeat fires at its due time and the last frame is then
      repeated at a steady period, `k + 1` deliveries up to `due + k * every`, even while the
      refresh requester fires in between. */
  lemma {:induction false} RepeatCadence(s: Adapter, k: nat)
    requires s.zh.Some? && s.posted == [] && s.zh.value.queued == [] && s.zh.value.repeat.Some?
    requires s.clock <= s.zh.value.repeat.value.due
    decreases k, Cost(s, s.zh.value.repeat.value.due
                         + k * RepeatPeriod(s.cfg, s.zh.value, s.restriction, Settled(s.zh.value.layers))), 1
    ensures var z := s.zh.value;
      var r := z.repeat.value;
      var every := RepeatPeriod(s.cfg, z, s.restriction, Settled(z.layers));
      Deliveries(Advance(s, r.due + k * every).log) == Deliveries(s.log) + RepeatEvents(r.frame, r.origin, r.due, every, k + 1)
  {
    var z := s.zh.value;
    var t := z.repeat.value.due + k * RepeatPeriod(s.cfg, z, s.restriction, Settled(z.layers));
    assert k * RepeatPeriod(s.cfg, z, s.restriction, Settled(z.layers)) >= 0;
    match NextTask(s, t)
    case None =>
      assert false;
    case Some(FrameTask(d)) =>
      RepeatCadenceAfterRepeat(s, k);
    case Some(RefreshTask(d)) =>
      RepeatCadenceAfterRefresh(s, k, d);
  }

  /** RepeatCadence when a refresh request runs first. */
  lemma {:induction false} RepeatCadenceAfterRefresh(s: Adapter, k: nat, d: int)
    requires s.zh.Some? && s.posted == [] && s.zh.value.queued == [] && s.zh.value.repeat.Some?
    requires s.clock <= s.zh.value.repeat.value.due
    requires NextTask(s, s.zh.value.repeat.value.due
                         + k * RepeatPeriod(s.cfg, s.zh.value, s.restriction, Settled(s.zh.value.layers)))
          == Some(RefreshTask(d))
    decreases k, Cost(s, s.zh.value.repeat.value.due
                         + k * RepeatPeriod(s.cfg, s.zh.value, s.restriction, Settled(s.zh.value.layers))), 0
    ensures var z := s.zh.value;
      var r := z.repeat.value;
      var every := RepeatPeriod(s.cfg, z, s.restriction, Settled(z.layers));
      Deliveries(Advance(s, r.due + k * every).log) == Deliveries(s.log) + RepeatEvents(r.frame, r.origin, r.due, every, k + 1)
  {
    var z := s.zh.value;
    var every := RepeatPeriod(s.cfg, z, s.restriction, Settled(z.layers));
    var t := z.repeat.value.due + k * every;
    assert k * every >= 0;
    RepeatSurvivesRefresh(s, t, d);
    var s1 := FireRefresh(s, d);
    RepeatCadence(s1, k);
    assert Deliveries(Advance(s1, t).log)
        == Deliveries(s1.log) + RepeatEvents(z.repeat.value.frame, z.repeat.value.origin, z.repeat.value.due, every, k + 1);
  }

  /** RepeatCadence when the pending repeat runs first. */
  lemma {:induction false} RepeatCadenceAfterRepeat(s: Adapter, k: nat)
    requires s.zh.Some? && s.posted == [] && s.zh.value.queued == [] && s.zh.value.repeat.Some?
    requires s.clock <= s.zh.value.repeat.value.due
    requires NextTask(s, s.zh.value.repeat.value.due
                         + k * RepeatPeriod(s.cfg, s.zh.value, s.restriction, Settled(s.zh.value.layers)))
          == Some(FrameTask(s.zh.value.repeat.value.due))
    decreases k, Cost(s, s.zh.value.repeat.value.due
                         + k * RepeatPeriod(s.cfg, s.zh.value, s.restriction, Settled(s.zh.value.layers))), 0
    ensures var z := s.zh.value;
      var r := z.repeat.value;
      var every := RepeatPeriod(s.cfg, z, s.restriction, Settled(z.layers));
      Deliveries(Advance(s, r.due + k * every).log) == Deliveries(s.log) + RepeatEvents(r.frame, r.origin, r.due, every, k + 1)
  {
    var z := s.zh.value;
    var r := z.repeat.value;
    var every := RepeatPeriod(s.cfg, z, s.restriction, Settled(z.layers));
    if k == 0 {
      assert r.due + k * every == r.due;
      LastRepeatFires(s);
      assert RepeatEvents(r.frame, r.origin, r.due, every, 1) == [Delivered(r.due, false, Advanced(r.frame, r.due - r.origin))];
    } else {
      RepeatFires(s, r.due + k * every);
      RepeatCadenceShifted(s, FireFrameTask(s, r.due), k, every);
    }
  }

  /** The pending repeat fires at its due time, and it is the only delivery up to then. */
  lemma LastRepeatFires(s: Adapter)
    requires s.zh.Some? && s.posted == [] && s.zh.value.queued == [] && s.zh.value.repeat.Some?
    requires s.clock <= s.zh.value.repeat.value.due
    requires NextTask(s, s.zh.value.repeat.value.due) == Some(FrameTask(s.zh.value.repeat.value.due))
    ensures var r := s.zh.value.repeat.value;
      Deliveries(Advance(s, r.due).log) == Deliveries(s.log) + [Delivered(r.due, false, Advanced(r.frame, r.due - r.origin))]
  {
    var r := s.zh.value.repeat.value;
    RepeatFires(s, r.due);
    NoDeliveryBefore(FireFrameTask(s, r.due), r.due);
  }

  /** RepeatCadence after the pending repeat has fired, leaving `s1` with the next repeat one
      period later. */
  lemma {:induction false} RepeatCadenceShifted(s: Adapter, s1: Adapter, k: nat, every: int)
    requires s.zh.Some? && s.zh.value.repeat.Some? && k > 0
    requires every == RepeatPeriod(s.cfg, s.zh.value, s.restriction, Settled(s.zh.value.layers))
    requires var r := s.zh.value.repeat.value;
      && s.clock <= r.due + k * every
      && s1.zh.Some? && s1.posted == [] && s1.zh.value.queued == []
      && s1.zh.value.repeat.Some?
      && s1.zh.value.repeat.value.frame == r.frame
      && s1.zh.value.repeat.value.origin == r.origin
      && s1.zh.value.repeat.value.due == r.due + every
      && s1.clock <= s1.zh.value.repeat.value.due
      && RepeatPeriod(s1.cfg, s1.zh.value, s1.restriction, Settled(s1.zh.value.layers)) == every
      && Deliveries(s1.log) == Deliveries(s.log) + [Delivered(r.due, false, Advanced(r.frame, r.due - r.origin))]
      && s1.clock <= r.due + k * every
      && Advance(s, r.due + k * every) == Advance(s1, r.due + k * every)
    decreases k, 0, 0
    ensures var r := s.zh.value.repeat.value;
      Deliveries(Advance(s, r.due + k * every).log) == Deliveries(s.log) + RepeatEvents(r.frame, r.origin, r.due, every, k + 1)
  {
    var r := s.zh.value.repeat.value;
    var t := r.due + k * every;
    ShiftByPeriod(r.due, every, k);
    var r1 := s1.zh.value.repeat.value;
    var every1 := RepeatPeriod(s1.cfg, s1.zh.value, s1.restriction, Settled(s1.zh.value.layers));
    assert r1.due + (k - 1) * every1 == t;
    RepeatCadence(s1, k - 1);
    var first := [Delivered(r.due, false, Advanced(r.frame, r.due - r.origin))];
    var rest := RepeatEvents(r.frame, r.origin, r.due + every, every, k);
    assert RepeatEvents(r1.frame, r1.origin, r1.due, every1, k) == rest;
    assert Deliveries(Advance(s1, r1.due + (k - 1) * every1).log) == Deliveries(s1.log) + rest;
    RepeatEventsSplit(r.frame, r.origin, r.due, every, k);
    calc {
      Deliveries(Advance(s, t).log);
      Deliveries(Advance(s1, t).log);
      (Deliveries(s.log) + first) + rest;
      Deliveries(s.log) + (first + rest);
    }
  }

  /** A dropped frame while the last frame is repeating does not disturb the repeats: they go
      on at the same cadence while the refresh requester starts firing. */
  lemma RepeatsContinueAfterDiscard(s: Adapter, k: nat)
    requires !s.released && s.zh.Some? && s.posted == [] && s.zh.value.queued == [] && s.zh.value.repeat.Some?
    requires s.clock <= s.zh.value.repeat.value.due
    ensures var z := s.zh.value;
      var r := z.repeat.value;
      var every := RepeatPeriod(s.cfg, z, s.restriction, Settled(z.layers));
      Deliveries(Advance(OnDiscardedFrame(s), r.due + k * every).log)
        == Deliveries(s.log) + RepeatEvents(r.frame, r.origin, r.due, every, k + 1)
  {
    var z := s.zh.value;
    var every := RepeatPeriod(s.cfg, z, s.restriction, Settled(z.layers));
    var s' := OnDiscardedFrame(s);
    assert s'.zh.value.repeat == z.repeat && s'.zh.value.queued == [] && s'.posted == [];
    assert RepeatPeriod(s'.cfg, s'.zh.value, s'.restriction, Settled(s'.zh.value.layers)) == every;
    DeliveriesAppend(s.log, DiscardForwarded(s.clock));
    assert Deliveries(s'.log) == Deliveries(s.log);
    RepeatCadence(s', k);
  }

  /** Repeats keep unset timestamps at 0 and advance set ones by the elapsed time. */
  lemma RepeatTimestamps(f: Frame, elapsed: int)
    ensures Advanced(f, elapsed).id == f.id
    ensures f.timestampUs == 0 ==> Advanced(f, elapsed).timestampUs == 0
    ensures f.timestampUs != 0 ==> Advanced(f, elapsed).timestampUs - f.timestampUs == elapsed
    ensures f.ntpTimeMs == 0 ==> Advanced(f, elapsed).ntpTimeMs == 0
    ensures f.ntpTimeMs != 0 ==> Advanced(f, elapsed).ntpTimeMs - f.ntpTimeMs == elapsed / MicrosPerMilli
  {
  }

  // ---------------------------------------------------------------- periods

  lemma MulLe(x: int, y: int, a: int)
    requires x <= y && a >= 0
    ensures x * a <= y * a
  {
  }

  lemma QuotientBound(x: int, a: int, n: int)
    requires x >= 0 && a > 0 && n >= 0 && x * a <= n
    ensures x <= n / a
  {
    var q := n / a;
    assert n < (q + 1) * a;
    if q + 1 <= x {
      MulLe(q + 1, x, a);
      assert false;
    }
  }

  lemma FramePeriodAntitone(a: int, b: int)
    requires 0 < a <= b
    ensures FramePeriod(a) >= FramePeriod(b)
  {
    var pb := FramePeriod(b);
    if b <= MicrosPerSecond {
      assert pb * a <= pb * b;
      QuotientBound(pb, a, MicrosPerSecond);
    }
  }

  /** A restriction to R fps slows unconverged repeats only while R is below max fps:
      the short repeat period is then R's period, otherwise the frame period. */
  lemma RestrictionBindsOnlyBelowMaxFps(z: ZeroHertz, rfps: int)
    requires ZeroHertzValid(z) && rfps > 0
    ensures rfps < z.maxFps ==> ShortRepeatPeriod(z, Some(rfps)) == FramePeriod(rfps)
    ensures rfps >= z.maxFps ==> ShortRepeatPeriod(z, Some(rfps)) == z.period
    ensures ShortRepeatPeriod(z, None) == z.period
  {
    if rfps < z.maxFps {
      FramePeriodAntitone(rfps, z.maxFps);
    } else {
      FramePeriodAntitone(z.maxFps, rfps);
    }
  }

  /** A delivery from an otherwise empty queue leaves one repeat pending: of the frame just
      delivered, counted from this delivery when it was a new frame, and due an idle period
      later when the stream has settled, a short period later (never less than the frame period)
      while it has not. The refresh requester and the layer table are not touched. */
  lemma CadenceFollowsConvergence(s: Adapter, d: int)
    requires s.zh.Some? && FrameDue(s.zh.value) == Some(d) && |s.zh.value.queued| <= 1
    ensures var z := s.zh.value;
      var s' := FireFrameTask(s, d);
      var settled := Settled(z.layers);
      var next := s'.clock + RepeatPeriod(s.cfg, z, s.restriction, settled);
      && s'.clock == Max(s.clock, d)
      && s'.zh.Some? && s'.zh.value.queued == []
      && s'.zh.value.refreshDue == z.refreshDue && s'.zh.value.layers == z.layers
      && s'.zh.value.period == z.period && s'.posted == s.posted
      && (|z.queued| == 1 ==>
            && s'.zh.value.repeat == Some(ScheduledRepeat(z.queued[0].frame, s'.clock, s'.clock, settled, next))
            && s'.log == s.log + [Delivered(s'.clock, false, z.queued[0].frame)])
      && (|z.queued| == 0 ==>
            && s'.zh.value.repeat == Some(z.repeat.value.(scheduled := s'.clock, idle := settled, due := next))
            && s'.log == s.log + [Delivered(s'.clock, false, Advanced(z.repeat.value.frame, s'.clock - z.repeat.value.origin))])
      && (settled ==> next - s'.clock == s.cfg.idleRepeatPeriod)
      && (!settled ==> next - s'.clock == ShortRepeatPeriod(z, s.restriction) >= z.period)
  {
  }

  // ---------------------------------------------------------------- layers

  lemma ResetUnsettles(ls: seq<Layer>)
    ensures |ResetConvergence(ls)| == |ls|
    ensures forall i :: 0 <= i < |ls| ==> ResetConvergence(ls)[i].enabled == ls[i].enabled
    ensures !Settled(ResetConvergence(ls))
  {
  }

  /** A freshly configured layer table is unsettled. */
  lemma FreshLayersUnsettled(n: nat)
    ensures |UnconvergedLayers(n)| == n && !Settled(UnconvergedLayers(n))
  {
  }

  /** Enabling a configured layer leaves the stream unsettled, even when every other layer had
      converged; disabling one takes it out of the decision. No other layer changes, and
      feedback for an unconfigured index is accepted and changes nothing. */
  lemma LayerStatusUnsettles(s: Adapter, index: nat, enabled: bool)
    requires !s.released && s.zh.Some?
    ensures index < |s.zh.value.layers| ==>
      var ls := s.zh.value.layers;
      var ls' := UpdateLayerStatus(s, index, enabled).zh.value.layers;
      && |ls'| == |ls| && ls'[index] == Layer(enabled, false)
      && (forall i :: 0 <= i < |ls| && i != index ==> ls'[i] == ls[i])
      && (enabled ==> !Settled(ls'))
    ensures index >= |s.zh.value.layers| ==> UpdateLayerStatus(s, index, enabled) == s
    ensures index >= |s.zh.value.layers| ==> UpdateLayerQualityConvergence(s, index, enabled) == s
  {
    if index < |s.zh.value.layers| && enabled {
      var ls' := UpdateLayerStatus(s, index, enabled).zh.value.layers;
      assert ls'[index].enabled && !ls'[index].converged;
    }
  }

  /** Layers 0 .. n-1 enabled and then reported converged, one layer after the other. */
  function EnableAndConverge(s: Adapter, n: nat): Adapter
  {
    if n == 0 then s
    else
      var s1 := EnableAndConverge(s, n - 1);
      UpdateLayerQualityConvergence(UpdateLayerStatus(s1, n - 1, true), n - 1, true)
  }

  lemma {:induction false} EnableAndConvergeLayers(s: Adapter, n: nat)
    requires !s.released && s.zh.Some? && n <= |s.zh.value.layers|
    ensures var s' := EnableAndConverge(s, n);
      && s'.zh.Some? && s'.(zh := s.zh) == s
      && s'.zh.value.(layers := s.zh.value.layers) == s.zh.value
      && |s'.zh.value.layers| == |s.zh.value.layers|
      && (forall i :: 0 <= i < n ==> s'.zh.value.layers[i] == Layer(true, true))
      && (forall i :: n <= i < |s.zh.value.layers| ==> s'.zh.value.layers[i] == s.zh.value.layers[i])
  {
    if n > 0 {
      EnableAndConvergeLayers(s, n - 1);
    }
  }

  /** Enabling each configured layer and reporting it converged, in turn, settles the stream. */
  lemma ConvergedSetupSettles(s: Adapter)
    requires !s.released && s.zh.Some? && |s.zh.value.layers| > 0
    ensures var s' := EnableAndConverge(s, |s.zh.value.layers|);
      s'.zh.Some? && Settled(s'.zh.value.layers)
  {
    EnableAndConvergeLayers(s, |s.zh.value.layers|);
    assert EnableAndConverge(s, |s.zh.value.layers|).zh.value.layers[0].enabled;
  }

  /** Convergence feedback marks one layer; the stream settles when the last enabled
      layer converges. */
  lemma ConvergenceFeedbackSettles(s: Adapter, index: nat)
    requires !s.released && s.zh.Some? && index < |s.zh.value.layers|
    requires s.zh.value.layers[index].enabled
    requires forall i :: 0 <= i < |s.zh.value.layers| && i != index && s.zh.value.layers[i].enabled
               ==> s.zh.value.layers[i].converged
    ensures Settled(UpdateLayerQualityConvergence(s, index, true).zh.value.layers)
    ensures !Settled(UpdateLayerQualityConvergence(s, index, false).zh.value.layers)
  {
    var ls := s.zh.value.layers;
    assert ls[index := ls[index].(converged := true)][index].enabled;
    assert !ls[index := ls[index].(converged := false)][index].converged;
  }

  /** Frame entry makes every layer unconverged again and cancels the pending repeat and
      the pending refresh request. */
  lemma FrameEntryResets(z: ZeroHertz, p: Posted, now: int)
    ensures var z' := EnqueueFrame(z, p, now);
      && !Settled(z'.layers) && z'.repeat.None? && z'.refreshDue.None?
      && z'.queued == z.queued + [Queued(p.frame, Max(p.postTime + z.period, now))]
  {
    ResetUnsettles(z.layers);
  }

  // ---------------------------------------------------------------- key frames

  /** A key-frame request calls nothing back and leaves the refresh requester alone; it makes
      the stream unsettled. An idle repeat more than one frame period away is replaced by a short
      repeat of the same frame counted from now (later than the idle one when a restriction
      makes the short period long); any other repeat is kept as it is. */
  lemma KeyFrameRequestRequestsNothing(s: Adapter)
    requires Valid(s) && !s.released && s.zh.Some?
    ensures var s' := ProcessKeyFrameRequest(s);
      var z := s.zh.value;
      && s'.log == s.log && s'.posted == s.posted && s'.zh.Some?
      && s'.zh.value.refreshDue == z.refreshDue
      && s'.zh.value.queued == z.queued
      && !Settled(s'.zh.value.layers)
      && (z.repeat.None? ==> s'.zh.value.repeat.None?)
      && (z.repeat.Some? && z.repeat.value.idle && z.repeat.value.due - s.clock > z.period ==>
            s'.zh.value.repeat == Some(ScheduledRepeat(z.repeat.value.frame, z.repeat.value.origin, s.clock, false,
                                                       s.clock + ShortRepeatPeriod(z, s.restriction))))
      && (z.repeat.Some? && !(z.repeat.value.idle && z.repeat.value.due - s.clock > z.period) ==>
            s'.zh.value.repeat == z.repeat)
  {
    ResetUnsettles(s.zh.value.layers);
  }

  // ---------------------------------------------------------------- refresh requests

  /** The refresh requests in a log, in order. */
  function Refreshes(log: seq<Event>): seq<Event>
  {
    if log == [] then []
    else
      var last := log[|log| - 1];
      Refreshes(log[..|log| - 1]) + (if last.RefreshRequested? then [last] else [])
  }

  lemma RefreshesAppend(log: seq<Event>, e: Event)
    ensures Refreshes(log + [e]) == Refreshes(log) + (if e.RefreshRequested? then [e] else [])
  {
    assert (log + [e])[..|log|] == log;
  }

  /** While the refresh requester is stopped or set beyond `t`, running the queue to `t`
      requests no refresh frame. */
  lemma {:induction false} NoRefreshWhileStopped(s: Adapter, t: int)
    requires s.clock <= t
    requires s.zh.Some? && s.zh.value.refreshDue.Some? ==> s.zh.value.refreshDue.value > t
    ensures Refreshes(Advance(s, t).log) == Refreshes(s.log)
    decreases |s.posted|, Cost(s, t)
  {
    if |s.posted| > 0 {
      if s.zh.None? {
        RefreshesAppend(s.log, Delivered(s.posted[0].postTime, |s.posted| > 1, s.posted[0].frame));
      }
      NoRefreshWhileStopped(ProcessPosted(s), t);
    } else {
      match NextTask(s, t)
      case None =>
      case Some(FrameTask(d)) =>
        FireFrameTaskCost(s, d, t);
        var s1 := FireFrameTask(s, d);
        var e := s1.log[|s1.log| - 1];
        assert s1.log == s.log + [e] && e.Delivered?;
        RefreshesAppend(s.log, e);
        NoRefreshWhileStopped(s1, t);
      case Some(RefreshTask(d)) =>
        assert false;
    }
  }

  /** Once a frame has reached the adapter in zero-hertz mode, no refresh frame is requested
      until the next discard notice or reconfiguration, even if a grace period was under way. */
  lemma NoRefreshOnceFrameArrives(s: Adapter, t: int)
    requires s.zh.Some? && |s.posted| > 0 && s.clock <= t
    ensures Refreshes(Advance(s, t).log) == Refreshes(s.log)
  {
    var s1 := ProcessPosted(s);
    NoRefreshWhileStopped(s1, t);
    assert s1.log == s.log;
  }

  /** `n` refresh requests, the first at `first`, then one every `every`. */
  function RefreshEvents(first: int, every: int, n: nat): seq<Event>
  {
    seq(n, i => RefreshRequested(first + i * every))
  }

  lemma RefreshEventsSplit(first: int, every: int, k: nat)
    ensures RefreshEvents(first, every, k + 1) == [RefreshRequested(first)] + RefreshEvents(first + every, every, k)
  {
    var all := RefreshEvents(first, every, k + 1);
    var rest := RefreshEvents(first + every, every, k);
    forall i | 1 <= i < k + 1
      ensures all[i] == rest[i - 1]
    {
      ShiftByPeriod(first, every, i);
    }
  }

  /** A forward or repeat that runs before the armed refresh adds no refresh request and
      leaves the refresh requester as it was. */
  lemma RefreshSurvivesFrameTask(s: Adapter, t: int, d: int)
    requires s.zh.Some? && s.posted == [] && s.clock <= t
    requires s.zh.value.refreshDue.Some? && s.clock <= s.zh.value.refreshDue.value
    requires NextTask(s, t) == Some(FrameTask(d))
    ensures var s1 := FireFrameTask(s, d);
      && Advance(s, t) == Advance(s1, t)
      && Cost(s1, t) < Cost(s, t)
      && Refreshes(s1.log) == Refreshes(s.log)
      && s1.zh.Some? && s1.posted == []
      && s1.zh.value.refreshDue == s.zh.value.refreshDue && s1.zh.value.period == s.zh.value.period
      && s1.clock <= s.zh.value.refreshDue.value
  {
    FireFrameTaskCost(s, d, t);
    var s1 := FireFrameTask(s, d);
    var e := s1.log[|s1.log| - 1];
    assert s1.log == s.log + [e] && e.Delivered?;
    RefreshesAppend(s.log, e);
  }

  /** The armed refresh fires at its time and re-arms one frame period later. */
  lemma RefreshTaskFires(s: Adapter, t: int)
    requires s.zh.Some? && s.posted == [] && s.clock <= t
    requires s.zh.value.refreshDue.Some? && s.clock <= s.zh.value.refreshDue.value
    requires NextTask(s, t) == Some(RefreshTask(s.zh.value.refreshDue.value))
    ensures var first := s.zh.value.refreshDue.value;
      var s1 := FireRefresh(s, first);
      && Advance(s, t) == Advance(s1, t)
      && Refreshes(s1.log) == Refreshes(s.log) + [RefreshRequested(first)]
      && s1.zh.Some? && s1.posted == [] && s1.clock == first
      && s1.zh.value.refreshDue == Some(first + s.zh.value.period) && s1.zh.value.period == s.zh.value.period
  {
    RefreshesAppend(s.log, RefreshRequested(s.zh.value.refreshDue.value));
  }

  /** Once the refresh requester is armed for `first` and no frame is handed over, running the
      queue to `first + k * period` requests exactly `k + 1` refresh frames, at `first` and then
      one every frame period, whatever forwards and repeats run in between. */
  lemma {:induction false} RefreshCadence(s: Adapter, k: nat)
    requires s.zh.Some? && s.posted == []
    requires s.zh.value.refreshDue.Some? && s.clock <= s.zh.value.refreshDue.value
    decreases k, Cost(s, s.zh.value.refreshDue.value + k * s.zh.value.period), 1
    ensures var first := s.zh.value.refreshDue.value;
      var p := s.zh.value.period;
      Refreshes(Advance(s, first + k * p).log) == Refreshes(s.log) + RefreshEvents(first, p, k + 1)
  {
    var t := s.zh.value.refreshDue.value + k * s.zh.value.period;
    assert k * s.zh.value.period >= 0;
    match NextTask(s, t)
    case None =>
      assert false;
    case Some(FrameTask(d)) =>
      RefreshCadenceAfterFrameTask(s, k, d);
    case Some(RefreshTask(d)) =>
      RefreshCadenceAfterRefresh(s, k);
  }

  /** RefreshCadence when a forward or repeat runs first. */
  lemma {:induction false} RefreshCadenceAfterFrameTask(s: Adapter, k: nat, d: int)
    requires s.zh.Some? && s.posted == []
    requires s.zh.value.refreshDue.Some? && s.clock <= s.zh.value.refreshDue.value
    requires NextTask(s, s.zh.value.refreshDue.value + k * s.zh.value.period) == Some(FrameTask(d))
    decreases k, Cost(s, s.zh.value.refreshDue.value + k * s.zh.value.period), 0
    ensures var first := s.zh.value.refreshDue.value;
      var p := s.zh.value.period;
      Refreshes(Advance(s, first + k * p).log) == Refreshes(s.log) + RefreshEvents(first, p, k + 1)
  {
    var first := s.zh.value.refreshDue.value;
    var p := s.zh.value.period;
    var t := first + k * p;
    assert k * p >= 0;
    RefreshSurvivesFrameTask(s, t, d);
    var s1 := FireFrameTask(s, d);
    RefreshCadence(s1, k);
    assert Refreshes(Advance(s1, t).log) == Refreshes(s1.log) + RefreshEvents(first, p, k + 1);
  }

  /** RefreshCadence when the armed refresh runs first. */
  lemma {:induction false} RefreshCadenceAfterRefresh(s: Adapter, k: nat)
    requires s.zh.Some? && s.posted == []
    requires s.zh.value.refreshDue.Some? && s.clock <= s.zh.value.refreshDue.value
    requires NextTask(s, s.zh.value.refreshDue.value + k * s.zh.value.period)
          == Some(RefreshTask(s.zh.value.refreshDue.value))
    decreases k, Cost(s, s.zh.value.refreshDue.value + k * s.zh.value.period), 0
    ensures var first := s.zh.value.refreshDue.value;
      var p := s.zh.value.period;
      Refreshes(Advance(s, first + k * p).log) == Refreshes(s.log) + RefreshEvents(first, p, k + 1)
  {
    var first := s.zh.value.refreshDue.value;
    var p := s.zh.value.period;
    if k == 0 {
      assert first + k * p == first;
      LastRefreshFires(s);
      assert RefreshEvents(first, p, 1) == [RefreshRequested(first)];
    } else {
      RefreshTaskFires(s, first + k * p);
      RefreshCadenceShifted(s, FireRefresh(s, first), k);
    }
  }

  /** RefreshCadence after the armed refresh has fired, leaving `s1` armed one period later. */
  lemma {:induction false} RefreshCadenceShifted(s: Adapter, s1: Adapter, k: nat)
    requires s.zh.Some? && s.zh.value.refreshDue.Some? && k > 0
    requires s.clock <= s.zh.value.refreshDue.value + k * s.zh.value.period
    requires s1.zh.Some? && s1.posted == [] && s1.zh.value.period == s.zh.value.period
    requires s1.zh.value.refreshDue == Some(s.zh.value.refreshDue.value + s.zh.value.period)
    requires s1.clock <= s1.zh.value.refreshDue.value
    requires Refreshes(s1.log) == Refreshes(s.log) + [RefreshRequested(s.zh.value.refreshDue.value)]
    requires var t := s.zh.value.refreshDue.value + k * s.zh.value.period;
      s1.clock <= t && Advance(s, t) == Advance(s1, t)
    decreases k, 0, 0
    ensures var first := s.zh.value.refreshDue.value;
      var p := s.zh.value.period;
      Refreshes(Advance(s, first + k * p).log) == Refreshes(s.log) + RefreshEvents(first, p, k + 1)
  {
    var first := s.zh.value.refreshDue.value;
    var p := s.zh.value.period;
    var t := first + k * p;
    ShiftByPeriod(first, p, k);
    var next := s1.zh.value.refreshDue.value;
    assert next == first + p && s1.zh.value.period == p;
    assert next + (k - 1) * s1.zh.value.period == t;
    RefreshCadence(s1, k - 1);
    var rest := RefreshEvents(first + p, p, k);
    assert Refreshes(Advance(s1, t).log) == Refreshes(s1.log) + rest;
    RefreshEventsSplit(first, p, k);
    calc {
      Refreshes(Advance(s, t).log);
      Refreshes(Advance(s1, t).log);
      (Refreshes(s.log) + [RefreshRequested(first)]) + rest;
      Refreshes(s.log) + ([RefreshRequested(first)] + rest);
    }
  }

  /** The armed refresh fires at its time, and nothing else is requested up to then. */
  lemma LastRefreshFires(s: Adapter)
    requires s.zh.Some? && s.posted == []
    requires s.zh.value.refreshDue.Some? && s.clock <= s.zh.value.refreshDue.value
    requires NextTask(s, s.zh.value.refreshDue.value) == Some(RefreshTask(s.zh.value.refreshDue.value))
    ensures var first := s.zh.value.refreshDue.value;
      Refreshes(Advance(s, first).log) == Refreshes(s.log) + [RefreshRequested(first)]
  {
    var first := s.zh.value.refreshDue.value;
    RefreshTaskFires(s, first);
    NoRefreshWhileStopped(FireRefresh(s, first), first);
  }

  /** After a dropped frame, with no frame handed over, the first refresh request comes a grace
      period of frame periods after the discard notice and then one every frame period, while
      forwards and repeats go on. */
  lemma RefreshCadenceAfterDiscard(s: Adapter, k: nat)
    requires !s.released && s.zh.Some? && s.posted == [] && s.zh.value.refreshDue.None?
    ensures var p := s.zh.value.period;
      var first := s.clock + s.cfg.refreshGracePeriods * p;
      Refreshes(Advance(OnDiscardedFrame(s), first + k * p).log)
        == Refreshes(s.log) + RefreshEvents(first, p, k + 1)
  {
    assert s.cfg.refreshGracePeriods * s.zh.value.period >= 0;
    RefreshesAppend(s.log, DiscardForwarded(s.clock));
    RefreshCadence(OnDiscardedFrame(s), k);
  }

  /** Refresh requests: the first when the armed time comes, then one per frame period,
      for as long as no frame arrives. */
  lemma {:induction false} RefreshEveryPeriodUntilFrame(s: Adapter, k: nat)
    requires s.zh.Some? && s.posted == [] && FrameDue(s.zh.value).None?
    requires s.zh.value.refreshDue.Some? && s.clock <= s.zh.value.refreshDue.value
    decreases k
    ensures var first := s.zh.value.refreshDue.value;
      var p := s.zh.value.period;
      Advance(s, first + k * p).log == s.log + seq(k + 1, i => RefreshRequested(first + i * p))
  {
    var first := s.zh.value.refreshDue.value;
    var p := s.zh.value.period;
    var t := first + k * p;
    assert NextTask(s, t) == Some(RefreshTask(first));
    var s1 := FireRefresh(s, first);
    assert Advance(s, t) == Advance(s1, t);
    if k == 0 {
      assert NextTask(s1, t).None?;
    } else {
      ShiftByPeriod(first, p, k);
      RefreshEveryPeriodUntilFrame(s1, k - 1);
      var all := seq(k + 1, i => RefreshRequested(first + i * p));
      var rest := seq(k, i => RefreshRequested((first + p) + i * p));
      assert all == [RefreshRequested(first)] + rest by {
        forall i | 1 <= i < k + 1
          ensures all[i] == rest[i - 1]
        {
          ShiftByPeriod(first, p, i);
        }
      }
    }
  }

  /** A discard notice arms the refresh requester a grace period of frame periods ahead,
      unless it is already running. */
  lemma DiscardArmsRefresh(s: Adapter)
    requires !s.released && s.zh.Some?
    ensures var z' := OnDiscardedFrame(s).zh.value;
      && (s.zh.value.refreshDue.None? ==> z'.refreshDue == Some(s.clock + s.cfg.refreshGracePeriods * s.zh.value.period))
      && (s.zh.value.refreshDue.Some? ==> z'.refreshDue == s.zh.value.refreshDue)
  {
  }

  /** Entering zero-hertz mode arms the refresh requester before any frame has arrived. */
  lemma ActivationArmsRefresh(s: Adapter, p: nat)
    requires Valid(s) && !s.released && s.zh.None?
    requires ZeroHertzEnabled(s.cfg, Some(p), s.constraints)
    ensures var s' := SetZeroHertzModeEnabled(s, Some(p));
      && s'.zh.Some? && s'.zh.value.queued == [] && s'.zh.value.repeat.None?
      && s'.zh.value.refreshDue == Some(s.clock + s.cfg.refreshGracePeriods * s'.zh.value.period)
      && |s'.zh.value.layers| == p && !Settled(s'.zh.value.layers)
  {
  }

  // ---------------------------------------------------------------- release

  /** After release, queued tasks are no-ops: the callback hears nothing more. */
  lemma NothingAfterRelease(s: Adapter, t: int)
    requires s.clock <= t
    ensures Advance(Release(s), t).log == s.log
  {
  }
}
