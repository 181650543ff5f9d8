/** What a depositor and the operator are promised, over every run from genesis. */
module Guarantees {
  import opened Basics
  import opened Tokens
  import opened Settings
  import opened Cctp
  import opened Layout
  import opened Settlement
  import opened Accounts
  import opened Runs

  function UsdcOf(u: Universe, w: World, a: Address): nat {
    w.ledger.BalanceOf(u.usdc, a)
  }

  predicate Armed(w: World, a: Address) {
    a in w.clones && w.clones[a].sweepableAt != 0
  }

  /** However armings, flushes, deposits and delay changes interleave, what has been swept fee-free by time `t` had
      all arrived at least an hour before `t`. */
  lemma FeeFreeOnlyAfterAnHour(u: Universe, w: World, acts: seq<Action>, a: Address, t: int)
    requires Genesis(u, w) && Run(u, acts) && a in u.sites
    ensures Total(After(u, w, acts).log, SweptBy(a, t)) <= Total(After(u, w, acts).log, ArrivedBy(a, t - 3600))
  {
    ReachableSound(u, w, acts);
    var x := AccountOf(u, After(u, w, acts), a);
    assert x.Sound();
    assert x.Sum(SweptBy(a, t)) <= x.Sum(ArrivedBy(a, t - MIN_SWEEP_DELAY));
  }

  /** An armed window is always burnable and backed by the balance; a closed one holds nothing. */
  lemma ArmedWindowIsBurnable(u: Universe, w: World, acts: seq<Action>, a: Address)
    requires Genesis(u, w) && Run(u, acts)
    ensures var v := After(u, w, acts);
            a in v.clones ==>
              if Armed(v, a) then 2 <= v.clones[a].sweepCap <= UsdcOf(u, v, a) else v.clones[a].sweepCap == 0
  {
    ReachableSound(u, w, acts);
    assert a in u.sites ==> AccountOf(u, After(u, w, acts), a).Sound();
  }

  /** Every USDC that ever arrived is still here, burned, or paid in fees; nothing else takes it. */
  lemma NothingLeaks(u: Universe, w: World, acts: seq<Action>, a: Address)
    requires Genesis(u, w) && Run(u, acts) && a in u.sites
    ensures var v := After(u, w, acts);
            Total(v.log, Arrived(a)) == UsdcOf(u, v, a) + Total(v.log, Burned(a)) + Total(v.log, FeesPaid(a))
  {
    ReachableSound(u, w, acts);
    assert AccountOf(u, After(u, w, acts), a).Sound();
  }

  /** Every burn of a deposit address carries that address's committed recipient and is received by the wired Stellar
      forwarder alone, and its allowance stays within one percent rounded up. */
  lemma BurnsGoToTheCommittedRecipient(u: Universe, w: World, acts: seq<Action>, i: nat)
    requires Genesis(u, w) && Run(u, acts)
    requires i < |After(u, w, acts).log| && After(u, w, acts).log[i].Settled?
    requires (forall a :: a in u.sites ==> |u.sites[a].recipient| < UINT32)
    ensures var v := After(u, w, acts);
            var e := v.log[i];
            && e.clone in u.sites
            && ParseHookData(e.message.hookData) == Some(u.sites[e.clone].recipient)
            && e.message.mintRecipient == e.message.destinationCaller == v.config.stellarForwarder
            && e.message.burnToken == u.usdc && e.message.domain == 27
            && e.message.finality == (if e.record.fast then 1000 else 2000)
            && (e.record.fast ==> u.sites[e.clone].fast && !e.record.viaSweep)
            && e.message.amount == e.record.burned == e.record.settled - e.record.setupFee - e.record.perSettleFee
            && e.record.burned > 0
            && e.message.maxFee <= CeilDiv(e.message.amount, 100)
            && (e.record.viaSweep ==> e.message.amount == e.record.settled)
  {
    ReachableSound(u, w, acts);
    HookDataDecodes(u.sites[After(u, w, acts).log[i].clone].recipient);
  }

  /** At any point of any run a flush leaves exactly this event: the balance up to the limit, the fees then in force, and a
      burn of the rest to the committed recipient, fast if the address is committed to fast and fast is enabled then. */
  lemma FlushesAsCommitted(u: Universe, w: World, acts: seq<Action>, a: Address, caller: Address)
    requires Genesis(u, w) && Run(u, acts) && a in After(u, w, acts).clones
    requires SettlementOf(u, After(u, w, acts), DoFlush(a, caller)).Some?
    ensures a in u.sites
    ensures var v := After(u, w, acts);
            var log := Step(u, v, DoFlush(a, caller)).log;
            var amount := if UsdcOf(u, v, a) < v.circle.burnLimit then UsdcOf(u, v, a) else v.circle.burnLimit;
            var setup, recurring := SetupCharge(v.config, v.clones[a]), RecurringCharge(v.config, amount);
            var fast := u.sites[a].fast && v.config.fastEnabled;
            var burned := amount - setup - recurring;
            && |log| == |v.log| + 2 && log[..|v.log|] == v.log && burned > 0
            && log[|v.log|].Settled? && log[|v.log|].clone == a && log[|v.log|].time == v.now
            && log[|v.log|].record == Record(caller, amount, setup, recurring, burned, false, fast)
            && log[|v.log|].message == BurnMessage(burned, 27, v.config.stellarForwarder, u.usdc, v.config.stellarForwarder,
                                                   log[|v.log|].message.maxFee, if fast then 1000 else 2000,
                                                   HookData(u.sites[a].recipient))
  {
    hide Account.Sound;
    hide BurnsSound;
    hide HookData;
    hide SetupCharge;
    hide RecurringCharge;
    hide Moved;
    hide WindowAfter;
    hide Flush;
    hide Run;
    hide After;
    var v := After(u, w, acts);
    ReachableSound(u, w, acts);
    EffectIsProper(u, v, a, caller, false, SettlementOf(u, v, DoFlush(a, caller)).value);
    FlushDoes(v.config, EnvOf(v), SiteOf(u, a), v.clones[a], caller);
    ArgsReadBack(u.sites[a].recipient, u.sites[a].fast);
  }

  /** However the owner moves the fees: at most one setup fee, at most 100 USDC a flush, and one percent of what was
      flushed. Sweeps pay nothing. */
  lemma FeesAreCapped(u: Universe, w: World, acts: seq<Action>, a: Address)
    requires Genesis(u, w) && Run(u, acts) && a in u.sites
    ensures var log := After(u, w, acts).log;
            && Total(log, SetupFeeCount(a)) <= 1
            && Total(log, FeesPaid(a)) <= 100_000_000 + 100_000_000 * Total(log, FlushCount(a)) + Total(log, FlushedFrom(a)) / 100
            && Total(log, FlushedFrom(a)) + Total(log, Swept(a)) == Total(log, SettledFrom(a))
  {
    ReachableSound(u, w, acts);
    assert AccountOf(u, After(u, w, acts), a).Sound();
  }

  /** A step lowers a deposit address's USDC only by settling it, and then by exactly one burn limit's worth at most:
      the whole balance up to the limit for a flush, also up to the armed budget for a sweep. */
  lemma OnlySettlementLowers(u: Universe, w: World, act: Action, a: Address)
    requires Sound(u, w) && Possible(u, act) && a in u.sites
    ensures var before, after := UsdcOf(u, w, a), UsdcOf(u, Step(u, w, act), a);
            if act.DoFlush? && act.a == a && after != before then
              after == before - Min(before, w.circle.burnLimit)
            else if act.DoSweep? && act.a == a && after != before then
              a in w.clones && after == before - Min(Min(before, w.clones[a].sweepCap), w.circle.burnLimit)
            else after >= before
  {
    hide Sound;
    hide Step;
    if act.DoFlush? || act.DoSweep? {
      SettlementLowers(u, w, act, a);
    } else if act.DoRescueNative? || act.DoRescueErc20? {
      RescueNeverLowers(u, w, act, a);
    } else {
      OthersNeverLower(u, w, act, a);
    }
  }

  lemma SettlementLowers(u: Universe, w: World, act: Action, a: Address)
    requires Sound(u, w) && (act.DoFlush? || act.DoSweep?)
    ensures var before, after := UsdcOf(u, w, a), UsdcOf(u, Step(u, w, act), a);
            if act.a == a && after != before then
              a in w.clones && after == before - Min(if act.DoFlush? then before else Min(before, w.clones[a].sweepCap), w.circle.burnLimit)
            else after >= before
  {
    hide Account.Sound;
    hide BurnsSound;
    hide Flush;
    hide Sweep;
    if act.a in w.clones {
      var r := SettlementOf(u, w, act);
      if r.Some? {
        EffectIsProper(u, w, act.a, act.caller, act.DoSweep?, r.value);
      }
    }
  }

  lemma RescueNeverLowers(u: Universe, w: World, act: Action, a: Address)
    requires Sound(u, w) && (act.DoRescueNative? || act.DoRescueErc20?) && a in u.sites
    ensures UsdcOf(u, Step(u, w, act), a) >= UsdcOf(u, w, a)
  {
    hide Account.Sound;
    hide BurnsSound;
    hide RescueNative;
    hide RescueErc20;
    if HasCode(u, w, act.a) {
      if act.DoRescueNative? {
        var r := RescueNative(w.config, EnvOf(w), SiteOf(u, act.a), act.caller);
        if r.Some? {
          NativeRescueKeepsUsdc(u, w, act.a, act.caller, r.value);
        }
      } else {
        var r := RescueErc20(w.config, EnvOf(w), SiteOf(u, act.a), act.caller, act.token);
        if r.Some? {
          TokenRescueKeepsUsdc(u, w, act.a, act.caller, act.token, r.value);
        }
      }
    }
  }

  lemma OthersNeverLower(u: Universe, w: World, act: Action, a: Address)
    requires Possible(u, act) && a in u.sites
    requires !act.DoFlush? && !act.DoSweep? && !act.DoRescueNative? && !act.DoRescueErc20?
    ensures UsdcOf(u, Step(u, w, act), a) >= UsdcOf(u, w, a)
  {
    hide RequestSweep;
    hide Apply;
  }

  function SettlementOf(u: Universe, w: World, act: Action): Option<Effect>
    requires act.DoFlush? || act.DoSweep?
    requires act.a in w.clones
  {
    if act.DoSweep? then Sweep(w.config, EnvOf(w), SiteOf(u, act.a), w.clones[act.a], act.caller)
    else Flush(w.config, EnvOf(w), SiteOf(u, act.a), w.clones[act.a], act.caller)
  }

  /** `a`'s window is open now and after each of `acts`. */
  predicate OpenThroughout(u: Universe, w: World, acts: seq<Action>, a: Address) {
    forall k :: 0 <= k <= |acts| ==> Armed(After(u, w, acts[..k]), a)
  }

  /** While a window stays open its deadline does not move, and its budget falls by exactly what is settled, by sweep
      and by flush alike. */
  lemma {:induction false} OpenWindowOnlyDrawsDown(u: Universe, w: World, acts: seq<Action>, a: Address)
    requires Sound(u, w) && Run(u, acts) && a in u.sites
    requires OpenThroughout(u, w, acts, a)
    ensures var v := After(u, w, acts);
            && Armed(w, a) && Armed(v, a)
            && v.clones[a].sweepableAt == w.clones[a].sweepableAt
            && v.clones[a].sweepCap == w.clones[a].sweepCap - (Total(v.log, SettledFrom(a)) - Total(w.log, SettledFrom(a)))
    ensures Sound(u, After(u, w, acts))
  {
    hide Sound;
    hide Step;
    assert Armed(After(u, w, acts[..0]), a);
    assert acts[..|acts|] == acts;
    if acts != [] {
      var k := |acts| - 1;
      var pre := acts[..k];
      forall i | 0 <= i <= |pre| ensures Armed(After(u, w, pre[..i]), a) {
        assert pre[..i] == acts[..i];
      }
      OpenWindowOnlyDrawsDown(u, w, pre, a);
      StepSound(u, After(u, w, pre), acts[k]);
      OpenWindowStep(u, After(u, w, pre), acts[k], a);
    }
  }

  /** Armed over a closed window, and for as long as it stays open: the budget is the balance at arming less everything
      settled since, and the deadline is the time of arming plus the delay in force then, one hour to seven days. */
  lemma BudgetIsSnapshotLessSettled(u: Universe, w: World, acts: seq<Action>, a: Address)
    requires Sound(u, w) && Run(u, acts) && a in u.sites && a in w.clones && !Armed(w, a)
    requires OpenThroughout(u, Step(u, w, DoRequestSweep(a)), acts, a)
    ensures var v := After(u, Step(u, w, DoRequestSweep(a)), acts);
            && Armed(v, a)
            && v.clones[a].sweepCap == UsdcOf(u, w, a) - (Total(v.log, SettledFrom(a)) - Total(w.log, SettledFrom(a)))
            && v.clones[a].sweepableAt == w.now + w.config.sweepDelay && 3600 <= w.config.sweepDelay <= 7 * 24 * 3600
  {
    hide Sound;
    hide Step;
    var w1 := Step(u, w, DoRequestSweep(a));
    assert After(u, w1, acts[..0]) == w1;
    ArmingSnapshots(u, w, a);
    StepSound(u, w, DoRequestSweep(a));
    OpenWindowOnlyDrawsDown(u, w1, acts, a);
  }

  /** How a window ends: exactly when a settlement of its own clone leaves less than two of its budget. Nothing else
      closes it, and no partial settlement does. */
  lemma WindowClosesIff(u: Universe, w: World, act: Action, a: Address)
    requires Sound(u, w) && Possible(u, act) && a in u.sites && Armed(w, a)
    ensures !Armed(Step(u, w, act), a) <==> Closes(u, w, act, a)
  {
    hide Sound;
    hide Flush;
    hide Sweep;
    hide AfterEffect;
    if act.DoFlush? || act.DoSweep? {
      if act.a in w.clones && SettlementOf(u, w, act).Some? {
        SettlementCloses(u, w, act, SettlementOf(u, w, act).value, a);
      }
    } else {
      OtherStepsKeepTheWindow(u, w, act, a);
      hide Step;
    }
  }

  /** A settlement of `a` that takes all but at most one subunit of the armed budget, or more. */
  predicate Closes(u: Universe, w: World, act: Action, a: Address)
    requires Armed(w, a)
  {
    && (act.DoFlush? || act.DoSweep?) && act.a == a
    && SettlementOf(u, w, act).Some?
    && SettlementOf(u, w, act).value.record.settled >= w.clones[a].sweepCap - 1
  }

  lemma SettlementCloses(u: Universe, w: World, act: Action, e: Effect, a: Address)
    requires act.DoFlush? || act.DoSweep?
    requires Sound(u, w) && act.a in w.clones && SettlementOf(u, w, act) == Some(e)
    requires Armed(w, a) && a in u.sites
    ensures Armed(AfterEffect(u, w, act.a, e), a) <==> act.a != a || e.record.settled < w.clones[a].sweepCap - 1
  {
    hide Flush;
    hide Sweep;
    EffectIsProper(u, w, act.a, act.caller, act.DoSweep?, e);
    assert AccountOf(u, w, a).WindowSound();
    hide Sound;
  }

  /** From an arming over a balance to the window's first closing, all but at most one subunit of it was settled. */
  lemma ClosingSettlesTheSnapshot(u: Universe, w: World, acts: seq<Action>, a: Address)
    requires Sound(u, w) && Run(u, acts) && a in u.sites && a in w.clones && !Armed(w, a)
    requires acts != [] && OpenThroughout(u, Step(u, w, DoRequestSweep(a)), acts[..|acts| - 1], a)
    requires !Armed(After(u, Step(u, w, DoRequestSweep(a)), acts), a)
    ensures SettledSince(u, w, After(u, Step(u, w, DoRequestSweep(a)), acts), a) >= UsdcOf(u, w, a) - 1
  {
    hide Sound;
    hide Step;
    hide Closes;
    hide SettlementOf;
    var w1, k := Step(u, w, DoRequestSweep(a)), |acts| - 1;
    BudgetIsSnapshotLessSettled(u, w, acts[..k], a);
    StepSound(u, w, DoRequestSweep(a));
    RunSound(u, w1, acts[..k]);
    var v := After(u, w1, acts[..k]);
    WindowClosesIff(u, v, acts[k], a);
    ClosingStep(u, v, acts[k], a);
  }

  /** What was settled of `a` between two worlds of a run. */
  function SettledSince(u: Universe, w: World, v: World, a: Address): int {
    Total(v.log, SettledFrom(a)) - Total(w.log, SettledFrom(a))
  }

  lemma ClosingStep(u: Universe, w: World, act: Action, a: Address)
    requires Armed(w, a) && Closes(u, w, act, a)
    ensures SettledSince(u, w, Step(u, w, act), a) >= w.clones[a].sweepCap - 1
  {
    hide Flush;
    hide Sweep;
    hide AfterEffect;
    AppendTwo(u, w, a, SettlementOf(u, w, act).value, a);
  }

  /** What has been settled never falls. */
  lemma SettledNeverFalls(u: Universe, w: World, act: Action, a: Address)
    ensures SettledSince(u, w, Step(u, w, act), a) >= 0
  {
    hide Flush;
    hide Sweep;
    hide AfterEffect;
    if act.DoFlush? || act.DoSweep? {
      if act.a in w.clones && SettlementOf(u, w, act).Some? {
        AppendTwo(u, w, act.a, SettlementOf(u, w, act).value, a);
      }
    } else {
      OthersLogOnlyArrivals(u, w, act);
      hide Step;
      ArrivalSettlesNothing(w.log, Step(u, w, act).log, a);
    }
  }

  /** After an arming, however everyone acts, the window is open still or its snapshot has been settled but for one. */
  lemma {:induction false} OpenOrSettled(u: Universe, w: World, acts: seq<Action>, a: Address)
    requires Sound(u, w) && Run(u, acts) && a in u.sites && a in w.clones && !Armed(w, a)
    requires Armed(Step(u, w, DoRequestSweep(a)), a)
    ensures var w1 := Step(u, w, DoRequestSweep(a));
            || OpenThroughout(u, w1, acts, a)
            || SettledSince(u, w, After(u, w1, acts), a) >= UsdcOf(u, w, a) - 1
    decreases |acts|
  {
    hide Sound;
    hide Step;
    var w1 := Step(u, w, DoRequestSweep(a));
    if acts == [] {
      assert OpenThroughout(u, w1, acts, a) by {
        assert acts[..0] == [];
      }
    } else {
      var k := |acts| - 1;
      OpenOrSettled(u, w, acts[..k], a);
      SettledNeverFalls(u, After(u, w1, acts[..k]), acts[k], a);
      if OpenThroughout(u, w1, acts[..k], a) {
        if Armed(After(u, w1, acts), a) {
          OpenLonger(u, w1, acts, a);
        } else {
          ClosingSettlesTheSnapshot(u, w, acts, a);
        }
      }
    }
  }

  lemma OpenLonger(u: Universe, w: World, acts: seq<Action>, a: Address)
    requires acts != [] && OpenThroughout(u, w, acts[..|acts| - 1], a) && Armed(After(u, w, acts), a)
    ensures OpenThroughout(u, w, acts, a)
  {
    hide After;
    forall k | 0 <= k <= |acts| ensures Armed(After(u, w, acts[..k]), a) {
      if k < |acts| {
        assert acts[..|acts| - 1][..k] == acts[..k];
      } else {
        assert acts[..k] == acts;
      }
    }
  }

  lemma ArmingSnapshots(u: Universe, w: World, a: Address)
    requires Sound(u, w) && a in w.clones && !Armed(w, a)
    requires Armed(Step(u, w, DoRequestSweep(a)), a)
    ensures var v := Step(u, w, DoRequestSweep(a));
            && v.clones[a].sweepCap == UsdcOf(u, w, a)
            && v.clones[a].sweepableAt == w.now + w.config.sweepDelay && 3600 <= w.config.sweepDelay <= 7 * 24 * 3600
            && v.log == w.log
  {
    hide Account.Sound;
    hide BurnsSound;
  }

  lemma OpenWindowStep(u: Universe, w: World, act: Action, a: Address)
    requires Sound(u, w) && Possible(u, act) && a in u.sites
    requires Armed(w, a) && Armed(Step(u, w, act), a)
    ensures DrawnDown(u, w, Step(u, w, act), a)
  {
    hide Sound;
    hide Flush;
    hide Sweep;
    hide AfterEffect;
    if act.DoFlush? || act.DoSweep? {
      hide DrawnDown;
      if act.a in w.clones && SettlementOf(u, w, act).Some? {
        OpenWindowSettled(u, w, act, SettlementOf(u, w, act).value, a);
      } else {
        Unmoved(u, w, a);
      }
    } else {
      OtherStepsKeepTheWindow(u, w, act, a);
      OthersLogOnlyArrivals(u, w, act);
      hide Step;
      ArrivalSettlesNothing(w.log, Step(u, w, act).log, a);
    }
  }

  /** From `w` to `v` the deadline of `a`'s window stood still and its budget fell by what was settled. */
  predicate DrawnDown(u: Universe, w: World, v: World, a: Address)
    requires Armed(w, a) && Armed(v, a)
  {
    && v.clones[a].sweepableAt == w.clones[a].sweepableAt
    && v.clones[a].sweepCap == w.clones[a].sweepCap - (Total(v.log, SettledFrom(a)) - Total(w.log, SettledFrom(a)))
  }

  lemma Unmoved(u: Universe, w: World, a: Address)
    requires Armed(w, a)
    ensures DrawnDown(u, w, w, a)
  {
  }

  lemma OpenWindowSettled(u: Universe, w: World, act: Action, e: Effect, a: Address)
    requires act.DoFlush? || act.DoSweep?
    requires Sound(u, w) && act.a in w.clones && SettlementOf(u, w, act) == Some(e)
    requires Armed(w, a) && Armed(AfterEffect(u, w, act.a, e), a)
    ensures DrawnDown(u, w, AfterEffect(u, w, act.a, e), a)
  {
    hide Sound;
    hide Flush;
    hide Sweep;
    EffectIsProper(u, w, act.a, act.caller, act.DoSweep?, e);
    AppendTwo(u, w, act.a, e, a);
  }

  lemma OtherStepsKeepTheWindow(u: Universe, w: World, act: Action, a: Address)
    requires !act.DoFlush? && !act.DoSweep?
    requires Armed(w, a)
    ensures var v := Step(u, w, act);
            a in v.clones && v.clones[a].sweepableAt == w.clones[a].sweepableAt && v.clones[a].sweepCap == w.clones[a].sweepCap
  {
    hide RescueNative;
    hide RescueErc20;
    hide Apply;
  }

  /** The events of a settlement, as they count towards `a`. */
  lemma AppendTwo(u: Universe, w: World, b: Address, e: Effect, a: Address)
    requires b in w.clones
    ensures Total(AfterEffect(u, w, b, e).log, SettledFrom(a)) ==
            Total(w.log, SettledFrom(a)) + if a == b then e.record.settled else 0
  {
    var v := AfterEffect(u, w, b, e);
    TotalAppend(w.log, v.log[|w.log|], SettledFrom(a));
    TotalAppend(w.log + [v.log[|w.log|]], v.log[|w.log| + 1], SettledFrom(a));
    assert v.log == w.log + [v.log[|w.log|]] + [v.log[|w.log| + 1]];
  }

  predicate AtMostAnArrival(log: seq<Event>, after: seq<Event>) {
    after == log || (|after| == |log| + 1 && after[..|log|] == log && after[|log|].Arrival?)
  }

  lemma OthersLogOnlyArrivals(u: Universe, w: World, act: Action)
    requires !act.DoFlush? && !act.DoSweep?
    ensures AtMostAnArrival(w.log, Step(u, w, act).log)
  {
    hide RescueNative;
    hide RescueErc20;
    hide RequestSweep;
    hide Apply;
  }

  lemma ArrivalSettlesNothing(log: seq<Event>, after: seq<Event>, a: Address)
    requires AtMostAnArrival(log, after)
    ensures Total(after, SettledFrom(a)) == Total(log, SettledFrom(a))
  {
    if after != log {
      assert after == log + [after[|log|]];
      TotalAppend(log, after[|log|], SettledFrom(a));
    }
  }

  /** What an owner setting can do to an armed rescue: under any two Configs with the same wiring, a sweep of the same
      clone by any two callers succeeds in both or in neither, burns the same amount over the same ledger, leaves the same
      window, and sends the same message but for the `maxFee` it allows Circle. */
  lemma SweepIgnoresSettings(cfg1: ConfigState, cfg2: ConfigState, env: Env, site: Site, st: CloneState,
                             caller1: Address, caller2: Address)
    requires Capped(cfg1) && Capped(cfg2) && SameWiring(cfg1, cfg2)
    requires env.circle.forced.None?
    ensures var r1, r2 := Sweep(cfg1, env, site, st, caller1), Sweep(cfg2, env, site, st, caller2);
            && r1.Some? == r2.Some?
            && (r1.Some? ==>
                  && r1.value.state == r2.value.state
                  && r1.value.ledger == r2.value.ledger
                  && r1.value.record == r2.value.record.(caller := caller1)
                  && r1.value.message == r2.value.message.(maxFee := r1.value.message.maxFee)
                  && r1.value.message.finality == FINALITY_STANDARD)
  {
    SweepSucceedsIff(cfg1, env, site, st, caller1);
    SweepSucceedsIff(cfg2, env, site, st, caller2);
  }

  /** That `maxFee` lies between Circle's own minimum and one percent rounded up, and is the same under both Configs
      exactly when their standard rates round to the same fee, fall below the minimum, or reach the top. */
  lemma SweepMaxFee(cfg1: ConfigState, cfg2: ConfigState, env: Env, site: Site, st: CloneState, caller1: Address, caller2: Address)
    requires Capped(cfg1) && Capped(cfg2) && SameWiring(cfg1, cfg2)
    requires env.circle.forced.None? && Sweep(cfg1, env, site, st, caller1).Some? && Sweep(cfg2, env, site, st, caller2).Some?
    ensures var fee1 := Sweep(cfg1, env, site, st, caller1).value.message.maxFee;
            var fee2 := Sweep(cfg2, env, site, st, caller2).value.message.maxFee;
            var burned := SweepAmount(cfg1, env, site, st);
            var f1, f2 := OwnerFee(burned, cfg1.cctpStandardMaxFeePpm), OwnerFee(burned, cfg2.cctpStandardMaxFeePpm);
            var low := ReportedMinimum(Probe(env.circle, burned));
            && burned > 0
            && low <= fee1 <= CeilDiv(burned, 100) && low <= fee2 <= CeilDiv(burned, 100)
            && (fee1 == fee2 <==> f1 == f2 || Max(f1, f2) <= low || TopFee(burned) <= Min(f1, f2) || TopFee(burned) <= low)
  {
    var burned := SweepAmount(cfg1, env, site, st);
    var reply := Probe(env.circle, burned);
    SweepOffers(cfg1, env, site, st, caller1);
    SweepOffers(cfg2, env, site, st, caller2);
    AllowanceDefined(burned, 0, reply);
    AllowanceDefined(burned, cfg1.cctpStandardMaxFeePpm, reply);
    AllowancesEqualIff(burned, cfg1.cctpStandardMaxFeePpm, cfg2.cctpStandardMaxFeePpm, reply);
    AllowanceBounded(burned, cfg1.cctpStandardMaxFeePpm, reply);
    AllowanceDefined(burned, cfg2.cctpStandardMaxFeePpm, reply);
    AllowanceBounded(burned, cfg2.cctpStandardMaxFeePpm, reply);
    hide *;
  }

  /** And it can differ: two capped Configs, wired alike, under which one window of a thousand subunits sweeps with a
      `maxFee` of nothing, and of ten. */
  lemma RatesMoveTheMaxFee() returns (cfg1: ConfigState, cfg2: ConfigState, env: Env, site: Site, st: CloneState)
    ensures Capped(cfg1) && Capped(cfg2) && SameWiring(cfg1, cfg2) && cfg2 == cfg1.(cctpStandardMaxFeePpm := MAX_CCTP_FEE_PPM)
    ensures st.sweepCap == 1000 == env.ledger.BalanceOf(cfg1.usdc, site.self)
    ensures var r1, r2 := Sweep(cfg1, env, site, st, 0), Sweep(cfg2, env, site, st, 0);
            r1.Some? && r2.Some? && r1.value.message.maxFee == 0 && r2.value.message.maxFee == 10
  {
    cfg1 := Fresh(1).(initialized := true, usdc := 2, tokenMessenger := 3, stellarForwarder := 4);
    cfg2 := cfg1.(cctpStandardMaxFeePpm := MAX_CCTP_FEE_PPM);
    var ledger := Ledger(map[(2, 5) := 1000], map[], None);
    env := Env(ledger, Circle(1_000_000, 0, true, None), 10_000);
    site := Site(5, 6, [0]);
    st := CloneState(10_000, 1000, false);
    assert SweepAmount(cfg1, env, site, st) == 1000 == SweepAmount(cfg2, env, site, st);
    SweepSucceedsIff(cfg1, env, site, st, 0);
    SweepSucceedsIff(cfg2, env, site, st, 0);
    SweepOffers(cfg1, env, site, st, 0);
    SweepOffers(cfg2, env, site, st, 0);
    RatesMoveTheAllowance();
    hide Sweep;
  }

  lemma SweepOffers(cfg: ConfigState, env: Env, site: Site, st: CloneState, caller: Address)
    requires env.circle.forced.None? && Sweep(cfg, env, site, st, caller).Some?
    ensures var burned := SweepAmount(cfg, env, site, st);
            var fee := Sweep(cfg, env, site, st, caller).value.message.maxFee;
            && burned > 0
            && Allowance(burned, cfg.cctpStandardMaxFeePpm, MAX_CCTP_FEE_PPM, Probe(env.circle, burned)) == Some(fee)
            && ReportedMinimum(Probe(env.circle, burned)) <= fee
  {
    hide Allowance;
  }
}
