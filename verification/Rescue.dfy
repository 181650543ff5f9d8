/** Self-rescue without the operator: how many sweeps drain an armed window, and the permissionless schedule that
    empties an address within a bounded time. */
module Rescue {
  import opened Basics
  import opened Tokens
  import opened Settings
  import opened Cctp
  import opened Settlement
  import opened Accounts
  import opened Runs
  import opened Guarantees

  /** Circle lets burns through: a limit of at least two subunits, an honest getter, and no minimum above 1 %. */
  predicate Burnable(c: Circle) {
    c.burnLimit >= 2 && c.forced.None? && (c.legacy || c.minFee <= 100_000)
  }

  /** Nothing but `a` itself is between these two worlds: same settings, same Circle, same clock. */
  predicate SameSurroundings(w: World, v: World) {
    w.config == v.config && w.circle == v.circle && w.now == v.now
  }

  /** Settled by sweep, all of it burned, no fee taken. */
  predicate SweptExactly(w: World, v: World, u: Universe, a: Address, amount: int) {
    && UsdcOf(u, v, a) == UsdcOf(u, w, a) - amount
    && Total(v.log, Swept(a)) == Total(w.log, Swept(a)) + amount
    && Total(v.log, Burned(a)) == Total(w.log, Burned(a)) + amount
    && Total(v.log, FeesPaid(a)) == Total(w.log, FeesPaid(a))
  }

  predicate Open(u: Universe, w: World, a: Address) {
    && a in u.sites && Armed(w, a)
    && w.clones[a].sweepableAt <= w.now
    && Burnable(w.circle)
    && UsdcOf(u, w, a) < SUPPLY_BOUND
  }

  /** An armed window holds a burnable part of the balance and opens within seven days. */
  lemma ArmedWindow(u: Universe, w: World, a: Address)
    requires Sound(u, w) && a in u.sites && Armed(w, a)
    ensures 2 <= w.clones[a].sweepCap <= UsdcOf(u, w, a)
    ensures w.clones[a].sweepableAt <= w.now + MAX_SWEEP_DELAY
  {
    assert AccountOf(u, w, a).WindowSound();
  }

  /** One sweep of an open window always succeeds. */
  lemma SweepWorks(u: Universe, w: World, a: Address, caller: Address)
    requires Sound(u, w) && Open(u, w, a)
    ensures var v := Step(u, w, DoSweep(a, caller));
            var n := Min(w.clones[a].sweepCap, w.circle.burnLimit);
            && a in v.clones
            && SameSurroundings(w, v)
            && SweptExactly(w, v, u, a, n)
            && v.clones[a] == DrawDown(w.clones[a], n, UsdcOf(u, w, a) - n)
  {
    hide Account.Sound;
    hide Sweep;
    OpenSweepSucceeds(u, w, a, caller);
    var e := Sweep(w.config, EnvOf(w), SiteOf(u, a), w.clones[a], caller).value;
    SweptOnce(u, w, a, caller, e);
    assert Step(u, w, DoSweep(a, caller)) == AfterEffect(u, w, a, e);
  }

  lemma OpenSweepSucceeds(u: Universe, w: World, a: Address, caller: Address)
    requires Sound(u, w) && Open(u, w, a)
    ensures var r := Sweep(w.config, EnvOf(w), SiteOf(u, a), w.clones[a], caller);
            r.Some? && r.value.record.settled == Min(w.clones[a].sweepCap, w.circle.burnLimit)
  {
    ArmedWindow(u, w, a);
    hide Account.Sound;
    hide Sweep;
    OnePercentMinimumIsPayable(w.circle, Min(w.clones[a].sweepCap, w.circle.burnLimit));
    SweepSucceedsIff(w.config, EnvOf(w), SiteOf(u, a), w.clones[a], caller);
    EffectIsProper(u, w, a, caller, true, Sweep(w.config, EnvOf(w), SiteOf(u, a), w.clones[a], caller).value);
  }

  lemma SweptOnce(u: Universe, w: World, a: Address, caller: Address, e: Effect)
    requires Sound(u, w) && a in w.clones && IsEffect(u, w, a, caller, true, e)
    ensures var v := AfterEffect(u, w, a, e);
            && SweptExactly(w, v, u, a, e.record.settled)
            && v.clones[a] == DrawDown(w.clones[a], e.record.settled, UsdcOf(u, w, a) - e.record.settled)
  {
    hide IsEffect;
    hide Account.Sound;
    EffectIsProper(u, w, a, caller, true, e);
    var v := AfterEffect(u, w, a, e);
    var first, second := v.log[|w.log|], v.log[|w.log| + 1];
    assert v.log == w.log + [first] + [second];
    forall k: Tally | k.a == a ensures Total(v.log, k) == Total(w.log, k) + Weight(k, first) + Weight(k, second) {
      TotalAppend(w.log, first, k);
      TotalAppend(w.log + [first], second, k);
    }
  }

  function Sweeps(a: Address, caller: Address, n: nat): (acts: seq<Action>)
    ensures |acts| == n
    ensures forall i :: 0 <= i < n ==> acts[i] == DoSweep(a, caller)
  {
    seq(n, _ => DoSweep(a, caller))
  }

  /** Sweeps that drain a window armed at `cap` under limit `limit`. */
  function SweepsNeeded(cap: nat, limit: nat): nat
    requires cap >= 2 && limit >= 2
  {
    CeilDiv(cap - 1, limit)
  }

  /** What they burn: all of it, less a last subunit no burn could clear. */
  function Drained(cap: nat, limit: nat): nat
    requires cap >= 2 && limit >= 2
  {
    if cap % limit == 1 then cap - 1 else cap
  }

  lemma SweepsNeededStep(cap: nat, limit: nat)
    requires cap >= 2 && limit >= 2
    ensures cap <= limit + 1 ==> SweepsNeeded(cap, limit) == 1 && Drained(cap, limit) == Min(cap, limit)
    ensures cap >= limit + 2 ==> SweepsNeeded(cap, limit) == SweepsNeeded(cap - limit, limit) + 1
    ensures cap >= limit + 2 ==> Drained(cap, limit) == Drained(cap - limit, limit) + limit
  {
    if cap <= limit + 1 {
      DivUnique(cap - 1 + limit - 1, limit, 1);
      if cap < limit {
        DivUnique(cap, limit, 0);
      } else {
        DivUnique(cap, limit, 1);
      }
    } else {
      var q := cap / limit;
      DivBounds(cap, limit);
      assert (q - 1) * limit == q * limit - limit;
      DivUnique(cap - limit, limit, q - 1);
      assert cap % limit == (cap - limit) % limit;
      var p := (cap - limit - 1 + limit - 1) / limit;
      DivBounds(cap - limit - 1 + limit - 1, limit);
      assert (p + 1) * limit == p * limit + limit && (p + 2) * limit == p * limit + 2 * limit;
      DivUnique(cap - 1 + limit - 1, limit, p + 1);
    }
  }

  /** The window of `a` in `w`, drained in `v`: closed, all but an unburnable subunit of it burned free of fees, and
      nothing else about the world changed but balances and history. */
  predicate DrainedTo(u: Universe, w: World, v: World, a: Address)
    requires Drainable(w, a)
  {
    && a in v.clones && v.clones[a].sweepableAt == v.clones[a].sweepCap == 0
    && SameSurroundings(w, v)
    && SweptExactly(w, v, u, a, Drained(w.clones[a].sweepCap, w.circle.burnLimit))
  }

  predicate Drainable(w: World, a: Address) {
    Armed(w, a) && w.clones[a].sweepCap >= 2 && w.circle.burnLimit >= 2
  }

  /** The last sweep closes the window; any earlier one leaves it open with one limit's worth less. */
  lemma SweepOfOpenWindow(u: Universe, w: World, a: Address, caller: Address)
    requires Sound(u, w) && Open(u, w, a)
    ensures Drainable(w, a)
    ensures var v := Step(u, w, DoSweep(a, caller));
            var cap, limit := w.clones[a].sweepCap, w.circle.burnLimit;
            && Sound(u, v)
            && if cap <= limit + 1 then SweepsNeeded(cap, limit) == 1 && DrainedTo(u, w, v, a)
               else
                 && Open(u, v, a) && SameSurroundings(w, v)
                 && v.clones[a].sweepCap == cap - limit
                 && SweptExactly(w, v, u, a, limit)
                 && SweepsNeeded(cap, limit) == SweepsNeeded(cap - limit, limit) + 1
                 && Drained(cap, limit) == Drained(cap - limit, limit) + limit
  {
    hide Sound;
    hide Step;
    hide SweepsNeeded;
    hide Drained;
    ArmedWindow(u, w, a);
    SweepWorks(u, w, a, caller);
    StepSound(u, w, DoSweep(a, caller));
    SweepsNeededStep(w.clones[a].sweepCap, w.circle.burnLimit);
  }

  /** `SweepsNeeded` sweeps drain an open window. */
  lemma {:induction false} DrainTakes(u: Universe, w: World, a: Address, caller: Address)
    requires Sound(u, w) && Open(u, w, a)
    ensures Drainable(w, a)
    ensures var v := After(u, w, Sweeps(a, caller, SweepsNeeded(w.clones[a].sweepCap, w.circle.burnLimit)));
            Sound(u, v) && DrainedTo(u, w, v, a)
    decreases w.clones[a].sweepCap
  {
    hide Sound;
    hide Step;
    hide Open;
    hide SweepsNeeded;
    hide Drained;
    SweepOfOpenWindow(u, w, a, caller);
    var cap, limit := w.clones[a].sweepCap, w.circle.burnLimit;
    if cap <= limit + 1 {
      FirstSweep(u, w, a, caller, 0);
    } else {
      DrainTakes(u, Step(u, w, DoSweep(a, caller)), a, caller);
      FirstSweep(u, w, a, caller, SweepsNeeded(cap - limit, limit));
    }
  }

  /** Fewer do not: until the last sweep the window stays open. */
  lemma {:induction false} DrainTakesNoFewer(u: Universe, w: World, a: Address, caller: Address, m: nat)
    requires Sound(u, w) && Open(u, w, a) && Drainable(w, a)
    requires m < SweepsNeeded(w.clones[a].sweepCap, w.circle.burnLimit)
    ensures Armed(After(u, w, Sweeps(a, caller, m)), a)
    decreases m
  {
    hide Sound;
    hide Step;
    hide Open;
    hide SweepsNeeded;
    FirstSweep(u, w, a, caller, 0);
    if m > 0 {
      SweepOfOpenWindow(u, w, a, caller);
      SweepOfOpenWindow(u, Step(u, w, DoSweep(a, caller)), a, caller);
      DrainTakesNoFewer(u, Step(u, w, DoSweep(a, caller)), a, caller, m - 1);
      FirstSweep(u, w, a, caller, m - 1);
    }
  }

  lemma FirstSweep(u: Universe, w: World, a: Address, caller: Address, m: nat)
    ensures After(u, w, Sweeps(a, caller, 0)) == w
    ensures After(u, w, Sweeps(a, caller, m + 1)) == After(u, Step(u, w, DoSweep(a, caller)), Sweeps(a, caller, m))
  {
    assert Sweeps(a, caller, m + 1) == [DoSweep(a, caller)] + Sweeps(a, caller, m);
    AfterConcat(u, w, [DoSweep(a, caller)], Sweeps(a, caller, m));
    assert After(u, w, [DoSweep(a, caller)]) == Step(u, After(u, w, []), DoSweep(a, caller));
  }

  /** Wait until the window opens, then sweep until it closes. */
  function WindowActs(w: World, a: Address, caller: Address): seq<Action>
    requires Drainable(w, a)
  {
    [Wait(Max(0, w.clones[a].sweepableAt - w.now))]
    + Sweeps(a, caller, SweepsNeeded(w.clones[a].sweepCap, w.circle.burnLimit))
  }

  /** `a`'s window is closed in `v`, reached from `w` within `delay` by sweeps alone. */
  ghost predicate ClosedWithin(u: Universe, w: World, v: World, a: Address, delay: nat) {
    && Sound(u, v)
    && a in v.clones && v.clones[a].sweepableAt == 0
    && w.config == v.config && w.circle == v.circle
    && w.now <= v.now <= w.now + delay
    && SweptExactly(w, v, u, a, UsdcOf(u, w, a) - UsdcOf(u, v, a))
    && UsdcOf(u, v, a) <= UsdcOf(u, w, a)
  }

  lemma WaitThenOpen(u: Universe, w: World, a: Address)
    requires Sound(u, w) && a in u.sites && Armed(w, a)
    requires Burnable(w.circle) && UsdcOf(u, w, a) < SUPPLY_BOUND
    ensures var v := Step(u, w, Wait(Max(0, w.clones[a].sweepableAt - w.now)));
            && Sound(u, v) && Open(u, v, a)
            && v == w.(now := v.now) && w.now <= v.now <= w.now + MAX_SWEEP_DELAY
  {
    ArmedWindow(u, w, a);
    StepSound(u, w, Wait(Max(0, w.clones[a].sweepableAt - w.now)));
  }

  /** One window, waited out and drained. */
  lemma WindowEmpties(u: Universe, w: World, a: Address, caller: Address)
    requires Sound(u, w) && a in u.sites && Drainable(w, a)
    requires Burnable(w.circle) && UsdcOf(u, w, a) < SUPPLY_BOUND
    ensures var v := After(u, w, WindowActs(w, a, caller));
            && ClosedWithin(u, w, v, a, MAX_SWEEP_DELAY)
            && UsdcOf(u, v, a) == UsdcOf(u, w, a) - Drained(w.clones[a].sweepCap, w.circle.burnLimit)
  {
    hide Sound;
    hide Step;
    hide Open;
    hide Drained;
    var wait := Wait(Max(0, w.clones[a].sweepableAt - w.now));
    var w1 := Step(u, w, wait);
    var sweeps := Sweeps(a, caller, SweepsNeeded(w.clones[a].sweepCap, w.circle.burnLimit));
    WaitThenOpen(u, w, a);
    DrainTakes(u, w1, a, caller);
    OneThen(u, w, wait, sweeps);
    ArmedWindow(u, w, a);
    assert Drained(w.clones[a].sweepCap, w.circle.burnLimit) <= w.clones[a].sweepCap by {
      DrainedBounds(w.clones[a].sweepCap, w.circle.burnLimit);
    }
  }

  lemma DrainedBounds(cap: nat, limit: nat)
    requires cap >= 2 && limit >= 2
    ensures cap - 1 <= Drained(cap, limit) <= cap
  {
  }

  lemma OneThen(u: Universe, w: World, act: Action, acts: seq<Action>)
    ensures After(u, w, [act] + acts) == After(u, Step(u, w, act), acts)
  {
    AfterConcat(u, w, [act], acts);
    assert After(u, w, [act]) == Step(u, After(u, w, []), act);
  }

  /** The permissionless schedule: deploy if need be, empty an open or pending window, then arm one over whatever is
      left and empty that. */
  function RescueActs(u: Universe, w: World, a: Address, caller: Address): seq<Action> {
    var first := FirstActs(w, a, caller);
    var w1 := After(u, w, first);
    first + if UsdcOf(u, w1, a) >= 2 then SecondActs(u, w1, a, caller) else []
  }

  function FirstActs(w: World, a: Address, caller: Address): seq<Action> {
    [Deploy(a)] + if Drainable(w, a) then WindowActs(w, a, caller) else []
  }

  function SecondActs(u: Universe, w: World, a: Address, caller: Address): seq<Action> {
    var armed := Step(u, w, DoRequestSweep(a));
    [DoRequestSweep(a)] + if Drainable(armed, a) then WindowActs(armed, a, caller) else []
  }

  /** Anyone may take every step of it. */
  lemma ScheduleIsPermissionless(u: Universe, w: World, a: Address, caller: Address, act: Action)
    requires act in RescueActs(u, w, a, caller)
    ensures act.Wait? || act == Deploy(a) || act == DoRequestSweep(a) || act == DoSweep(a, caller)
  {
  }

  lemma Deployed(u: Universe, w: World, a: Address)
    requires a in u.sites
    ensures var v := Step(u, w, Deploy(a));
            && a in v.clones
            && if a in w.clones then v == w else v == w.(clones := w.clones[a := CloneState(0, 0, false)])
  {
  }

  /** The first half: at once if nothing is armed, within seven days otherwise, no window is open. */
  lemma FirstHalf(u: Universe, w: World, a: Address, caller: Address)
    requires Sound(u, w) && a in u.sites
    requires Burnable(w.circle) && UsdcOf(u, w, a) < SUPPLY_BOUND
    ensures ClosedWithin(u, w, After(u, w, FirstActs(w, a, caller)), a, if Armed(w, a) then MAX_SWEEP_DELAY else 0)
  {
    hide Sound;
    hide Step;
    Deployed(u, w, a);
    StepSound(u, w, Deploy(a));
    if Armed(w, a) {
      ArmedWindow(u, w, a);
      WindowEmpties(u, w, a, caller);
      OneThen(u, w, Deploy(a), WindowActs(w, a, caller));
    } else {
      OneThen(u, w, Deploy(a), []);
    }
  }

  lemma Rearmed(u: Universe, w: World, a: Address)
    requires Sound(u, w) && a in u.sites && a in w.clones && w.clones[a].sweepableAt == 0
    requires w.config.initialized && w.now + MAX_SWEEP_DELAY <= U256_MAX
    requires 2 <= UsdcOf(u, w, a)
    ensures var v := Step(u, w, DoRequestSweep(a));
            && Sound(u, v) && Armed(v, a)
            && v.clones[a].sweepCap == UsdcOf(u, w, a)
            && v == w.(clones := v.clones, arms := v.arms)
  {
    StepSound(u, w, DoRequestSweep(a));
    RequestArms(u, w, a);
    hide Sound;
    hide Step;
  }

  lemma RequestArms(u: Universe, w: World, a: Address)
    requires Capped(w.config) && w.config.initialized && w.config.usdc == u.usdc
    requires u.implementation != a && a in u.sites && a in w.clones && w.clones[a].sweepableAt == 0
    requires w.now + MAX_SWEEP_DELAY <= U256_MAX
    requires 2 <= UsdcOf(u, w, a)
    ensures var v := Step(u, w, DoRequestSweep(a));
            && Armed(v, a)
            && v.clones[a].sweepCap == UsdcOf(u, w, a)
            && v == w.(clones := v.clones, arms := v.arms)
  {
  }

  /** The second half: a window over the whole balance, drained to at most one subunit. */
  lemma SecondHalf(u: Universe, w: World, a: Address, caller: Address)
    requires Sound(u, w) && a in u.sites && a in w.clones && w.clones[a].sweepableAt == 0
    requires w.config.initialized && w.now + MAX_SWEEP_DELAY <= U256_MAX
    requires Burnable(w.circle) && 2 <= UsdcOf(u, w, a) < SUPPLY_BOUND
    ensures var v := After(u, w, SecondActs(u, w, a, caller));
            ClosedWithin(u, w, v, a, MAX_SWEEP_DELAY) && UsdcOf(u, v, a) <= 1
  {
    hide Sound;
    hide Step;
    var armed := Step(u, w, DoRequestSweep(a));
    Rearmed(u, w, a);
    WindowEmpties(u, armed, a, caller);
    DrainedBounds(armed.clones[a].sweepCap, armed.circle.burnLimit);
    OneThen(u, w, DoRequestSweep(a), WindowActs(armed, a, caller));
  }

  /** From any sound world, anyone can leave at most one subunit at a deposit address within fourteen days, seven if no
      window is armed, with everything else burned to its recipient free of fees. */
  lemma BoundedSelfRescue(u: Universe, w: World, a: Address, caller: Address)
    requires Sound(u, w) && a in u.sites
    requires w.config.initialized && w.now + 2 * MAX_SWEEP_DELAY <= U256_MAX
    requires Burnable(w.circle) && UsdcOf(u, w, a) < SUPPLY_BOUND
    ensures var v := After(u, w, RescueActs(u, w, a, caller));
            && UsdcOf(u, v, a) <= 1
            && v.now <= w.now + (if Armed(w, a) then 14 else 7) * 24 * 3600
            && SweptExactly(w, v, u, a, UsdcOf(u, w, a) - UsdcOf(u, v, a))
            && BurnsSound(u, v)
  {
    hide BurnsSound;
    hide Step;
    hide FirstActs;
    hide SecondActs;
    hide Account.Sound;
    var first := FirstActs(w, a, caller);
    var w1 := After(u, w, first);
    FirstHalf(u, w, a, caller);
    if UsdcOf(u, w1, a) >= 2 {
      SecondHalf(u, w1, a, caller);
      AfterConcat(u, w, first, SecondActs(u, w1, a, caller));
    } else {
      assert first + [] == first;
    }
  }

  /** The same from any point of any run. */
  lemma SelfRescueFromAnyRun(u: Universe, w: World, acts: seq<Action>, a: Address, caller: Address)
    requires Genesis(u, w) && Run(u, acts) && a in u.sites
    requires var v := After(u, w, acts);
             && v.config.initialized && v.now + 2 * MAX_SWEEP_DELAY <= U256_MAX
             && Burnable(v.circle) && UsdcOf(u, v, a) < SUPPLY_BOUND
    ensures var v := After(u, w, acts);
            var rescue := RescueActs(u, v, a, caller);
            && Run(u, acts + rescue)
            && UsdcOf(u, After(u, w, acts + rescue), a) <= 1
            && After(u, w, acts + rescue).now <= v.now + (if Armed(v, a) then 14 else 7) * 24 * 3600
            && SweptExactly(v, After(u, w, acts + rescue), u, a, UsdcOf(u, v, a) - UsdcOf(u, After(u, w, acts + rescue), a))
            && BurnsSound(u, After(u, w, acts + rescue))
  {
    hide SweptExactly;
    hide BurnsSound;
    hide RescueActs;
    hide Burnable;
    hide Total;
    hide Step;
    hide Sound;
    var v := After(u, w, acts);
    var rescue := RescueActs(u, v, a, caller);
    ReachableSound(u, w, acts);
    BoundedSelfRescue(u, v, a, caller);
    AfterConcat(u, w, acts, rescue);
    forall i | 0 <= i < |rescue| ensures Possible(u, rescue[i]) {
      ScheduleIsPermissionless(u, v, a, caller, rescue[i]);
    }
  }

  /** Rescue while everyone else acts too. Arm a window; let anything happen. Once its deadline has passed, either all but
      one subunit of the armed balance has been settled, or a sweep by anyone succeeds there and then, burning at least
      two subunits free of fees. */
  lemma RescueUnderInterference(u: Universe, w: World, acts: seq<Action>, a: Address, caller: Address)
    requires Sound(u, w) && Run(u, acts) && a in u.sites && a in w.clones && !Armed(w, a)
    requires Armed(Step(u, w, DoRequestSweep(a)), a)
    requires var v := After(u, Step(u, w, DoRequestSweep(a)), acts);
             && v.now >= Step(u, w, DoRequestSweep(a)).clones[a].sweepableAt
             && Burnable(v.circle) && UsdcOf(u, v, a) < SUPPLY_BOUND
    ensures var v := After(u, Step(u, w, DoRequestSweep(a)), acts);
            || SettledSince(u, w, v, a) >= UsdcOf(u, w, a) - 1
            || (&& Armed(v, a)
                && SweptExactly(v, Step(u, v, DoSweep(a, caller)), u, a, Min(v.clones[a].sweepCap, v.circle.burnLimit))
                && Min(v.clones[a].sweepCap, v.circle.burnLimit) >= 2)
  {
    hide Sound;
    hide Step;
    hide SweptExactly;
    var w1 := Step(u, w, DoRequestSweep(a));
    var v := After(u, w1, acts);
    OpenOrSettled(u, w, acts, a);
    StepSound(u, w, DoRequestSweep(a));
    RunSound(u, w1, acts);
    if OpenThroughout(u, w1, acts, a) {
      OpenWindowOnlyDrawsDown(u, w1, acts, a);
      ArmedWindow(u, v, a);
      SweepWorks(u, v, a, caller);
    }
  }
}
