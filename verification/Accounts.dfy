/** One deposit address over time: its balance, its clone's storage once deployed, the record of how its window was
    armed, and the history of what reached and left it. `Sound` is the invariant of every reachable account, and each
    lemma here is one way an account can move. */
module Accounts {
  import opened Basics
  import opened Tokens
  import opened Settings
  import opened Cctp
  import opened Settlement

  datatype Event =
    | Arrival(to: Address, amount: nat, time: nat)
    | Settled(clone: Address, record: Record, message: BurnMessage, time: nat)

  /** How a window was armed: when, over what balance, after how much had already been settled, until when. */
  datatype Arm = Arm(time: nat, snapshot: nat, settledBefore: nat, deadline: nat)

  /** What can be added up over a history. */
  datatype Tally =
    | Arrived(a: Address)
    | ArrivedBy(a: Address, until: int)
    | SettledFrom(a: Address)
    | Swept(a: Address)
    | SweptBy(a: Address, until: int)
    | Burned(a: Address)
    | FeesPaid(a: Address)
    | FlushCount(a: Address)
    | FlushedFrom(a: Address)
    | SetupFeeCount(a: Address)

  function Weight(k: Tally, e: Event): nat {
    match e
    case Arrival(to, amount, time) =>
      if to == k.a && (k.Arrived? || (k.ArrivedBy? && time <= k.until)) then amount else 0
    case Settled(clone, r, _, time) =>
      if clone != k.a then 0
      else match k
        case Arrived(_) => 0
        case ArrivedBy(_, _) => 0
        case SettledFrom(_) => r.settled
        case Swept(_) => if r.viaSweep then r.settled else 0
        case SweptBy(_, until) => if r.viaSweep && time <= until then r.settled else 0
        case Burned(_) => r.burned
        case FeesPaid(_) => r.setupFee + r.perSettleFee
        case FlushCount(_) => if r.viaSweep then 0 else 1
        case FlushedFrom(_) => if r.viaSweep then 0 else r.settled
        case SetupFeeCount(_) => if r.setupFee > 0 then 1 else 0
  }

  /** What each tally counts of one event. */
  lemma WhatIsCounted(e: Event, a: Address, t: int)
    ensures e.Arrival? ==>
              && Weight(Arrived(a), e) == (if e.to == a then e.amount else 0)
              && Weight(ArrivedBy(a, t), e) == (if e.to == a && e.time <= t then e.amount else 0)
              && forall k: Tally :: !k.Arrived? && !k.ArrivedBy? ==> Weight(k, e) == 0
    ensures e.Settled? && e.clone != a ==> forall k: Tally :: k.a == a ==> Weight(k, e) == 0
    ensures e.Settled? && e.clone == a ==>
              && Weight(Arrived(a), e) == Weight(ArrivedBy(a, t), e) == 0
              && Weight(SettledFrom(a), e) == e.record.settled && Weight(Burned(a), e) == e.record.burned
              && Weight(FeesPaid(a), e) == e.record.setupFee + e.record.perSettleFee
              && Weight(SetupFeeCount(a), e) == (if e.record.setupFee == 0 then 0 else 1)
              && if e.record.viaSweep
                 then && Weight(Swept(a), e) == e.record.settled
                      && Weight(SweptBy(a, t), e) == (if e.time <= t then e.record.settled else 0)
                      && Weight(FlushCount(a), e) == Weight(FlushedFrom(a), e) == 0
                 else && Weight(Swept(a), e) == Weight(SweptBy(a, t), e) == 0
                      && Weight(FlushCount(a), e) == 1 && Weight(FlushedFrom(a), e) == e.record.settled
  {
  }

  function Total(log: seq<Event>, k: Tally): nat {
    if log == [] then 0 else Total(log[..|log| - 1], k) + Weight(k, log[|log| - 1])
  }

  lemma TotalAppend(log: seq<Event>, e: Event, k: Tally)
    ensures Total(log + [e], k) == Total(log, k) + Weight(k, e)
  {
    assert (log + [e])[..|log|] == log;
  }

  lemma {:induction false} TotalMono(log: seq<Event>, k: Tally, m: Tally)
    requires forall i :: 0 <= i < |log| ==> Weight(k, log[i]) <= Weight(m, log[i])
    ensures Total(log, k) <= Total(log, m)
  {
    if log != [] {
      TotalMono(log[..|log| - 1], k, m);
    }
  }

  datatype Account = Account(a: Address, balance: nat, now: nat, state: Option<CloneState>, arm: Arm, log: seq<Event>)
  {
    function Sum(k: Tally): nat {
      Total(log, k)
    }

    /** Nothing is recorded in the future. */
    predicate Dated() {
      forall i :: 0 <= i < |log| ==> log[i].time <= now
    }

    /** What arrived is here, burned, or paid in fees. */
    predicate Conserved() {
      && balance + Sum(SettledFrom(a)) == Sum(Arrived(a))
      && Sum(SettledFrom(a)) == Sum(Burned(a)) + Sum(FeesPaid(a))
      && Sum(SettledFrom(a)) == Sum(Swept(a)) + Sum(FlushedFrom(a))
    }

    /** An open window holds a burnable part of the balance: the snapshot it was armed over, less everything
        settled since; and that part, with all that was ever swept, had arrived by the time of arming. */
    predicate WindowSound() {
      match state
      case None => Sum(SettledFrom(a)) == 0
      case Some(st) =>
        if st.sweepableAt == 0 then st.sweepCap == 0
        else
          && st.sweepableAt == arm.deadline
          && arm.time + MIN_SWEEP_DELAY <= arm.deadline <= arm.time + MAX_SWEEP_DELAY
          && arm.time <= now
          && MIN_SWEEP_AMOUNT <= st.sweepCap <= balance
          && arm.settledBefore <= Sum(SettledFrom(a))
          && st.sweepCap + (Sum(SettledFrom(a)) - arm.settledBefore) == arm.snapshot
          && Sum(Swept(a)) + st.sweepCap <= Sum(ArrivedBy(a, arm.time))
    }

    /** Whatever had been swept fee-free by `t` had arrived an hour before. */
    ghost predicate Timely() {
      forall t: int :: Sum(SweptBy(a, t)) <= Sum(ArrivedBy(a, t - MIN_SWEEP_DELAY))
    }

    predicate FeesSound() {
      && Sum(SetupFeeCount(a)) <= 1
      && (state.None? || !state.value.setupFeePaid ==> Sum(SetupFeeCount(a)) == 0)
      && Sum(FeesPaid(a)) <= MAX_SETUP_FEE * Sum(SetupFeeCount(a)) + MAX_BASE_FEE * Sum(FlushCount(a)) + Sum(FlushedFrom(a)) / 100
    }

    ghost predicate Sound() {
      Dated() && Conserved() && WindowSound() && Timely() && FeesSound()
    }
  }

  /** Beyond the last event, `SweptBy` is everything swept. */
  lemma {:induction false} SweptByNow(log: seq<Event>, a: Address, t: int)
    requires forall i :: 0 <= i < |log| ==> log[i].time <= t
    ensures Total(log, SweptBy(a, t)) == Total(log, Swept(a))
    ensures Total(log, ArrivedBy(a, t)) == Total(log, Arrived(a))
  {
    TotalMono(log, SweptBy(a, t), Swept(a));
    TotalMono(log, Swept(a), SweptBy(a, t));
    TotalMono(log, ArrivedBy(a, t), Arrived(a));
    TotalMono(log, Arrived(a), ArrivedBy(a, t));
  }

  lemma ArrivedByMono(log: seq<Event>, a: Address, s: int, t: int)
    requires s <= t
    ensures Total(log, ArrivedBy(a, s)) <= Total(log, ArrivedBy(a, t))
  {
    TotalMono(log, ArrivedBy(a, s), ArrivedBy(a, t));
  }

  /** Time passes. */
  lemma Waiting(x: Account, now: nat)
    requires x.Sound() && x.now <= now
    ensures x.(now := now).Sound()
  {
    hide Total;
    forall t: int ensures x.(now := now).Sum(SweptBy(x.a, t)) <= x.(now := now).Sum(ArrivedBy(x.a, t - MIN_SWEEP_DELAY)) {
      assert x.Sum(SweptBy(x.a, t)) <= x.Sum(ArrivedBy(x.a, t - MIN_SWEEP_DELAY));
    }
  }

  /** An event that is not about this address. */
  lemma Bystanding(x: Account, e: Event)
    requires x.Sound() && e.time == x.now
    requires if e.Arrival? then e.to != x.a || e.amount == 0 else e.clone != x.a
    ensures x.(log := x.log + [e]).Sound()
  {
    hide Total;
    forall k: Tally | k.a == x.a ensures Total(x.log + [e], k) == Total(x.log, k) {
      TotalAppend(x.log, e, k);
    }
    var y := x.(log := x.log + [e]);
    forall t: int ensures y.Sum(SweptBy(x.a, t)) <= y.Sum(ArrivedBy(x.a, t - MIN_SWEEP_DELAY)) {
      assert x.Sum(SweptBy(x.a, t)) <= x.Sum(ArrivedBy(x.a, t - MIN_SWEEP_DELAY));
    }
  }

  /** USDC reaches this address. */
  lemma Receiving(x: Account, amount: nat)
    requires x.Sound()
    ensures x.(balance := x.balance + amount, log := x.log + [Arrival(x.a, amount, x.now)]).Sound()
  {
    hide Total;
    var e := Arrival(x.a, amount, x.now);
    var y := x.(balance := x.balance + amount, log := x.log + [e]);
    forall k: Tally ensures y.Sum(k) == x.Sum(k) + Weight(k, e) {
      TotalAppend(x.log, e, k);
    }
    forall t: int ensures y.Sum(SweptBy(x.a, t)) <= y.Sum(ArrivedBy(x.a, t - MIN_SWEEP_DELAY)) {
      assert x.Sum(SweptBy(x.a, t)) <= x.Sum(ArrivedBy(x.a, t - MIN_SWEEP_DELAY));
    }
  }

  /** The clone comes into being, over whatever has already arrived. */
  lemma Deploying(x: Account)
    requires x.Sound() && x.state.None?
    ensures x.(state := Some(CloneState(0, 0, false))).Sound()
  {
    hide Total;
    var y := x.(state := Some(CloneState(0, 0, false)));
    forall t: int ensures y.Sum(SweptBy(x.a, t)) <= y.Sum(ArrivedBy(x.a, t - MIN_SWEEP_DELAY)) {
      assert x.Sum(SweptBy(x.a, t)) <= x.Sum(ArrivedBy(x.a, t - MIN_SWEEP_DELAY));
    }
  }

  /** A closed window is armed over the present balance. */
  lemma Arming(x: Account, deadline: nat)
    requires x.Sound() && x.state.Some? && x.state.value.sweepableAt == 0
    requires x.balance >= MIN_SWEEP_AMOUNT
    requires x.now + MIN_SWEEP_DELAY <= deadline <= x.now + MAX_SWEEP_DELAY
    ensures x.(state := Some(x.state.value.(sweepableAt := deadline, sweepCap := x.balance)),
               arm := Arm(x.now, x.balance, x.Sum(SettledFrom(x.a)), deadline)).Sound()
  {
    hide Total;
    var y := x.(state := Some(x.state.value.(sweepableAt := deadline, sweepCap := x.balance)),
                arm := Arm(x.now, x.balance, x.Sum(SettledFrom(x.a)), deadline));
    SweptByNow(x.log, x.a, x.now);
    forall t: int ensures y.Sum(SweptBy(x.a, t)) <= y.Sum(ArrivedBy(x.a, t - MIN_SWEEP_DELAY)) {
      assert x.Sum(SweptBy(x.a, t)) <= x.Sum(ArrivedBy(x.a, t - MIN_SWEEP_DELAY));
    }
  }

  /** What a settlement must look like for the invariant to survive it. */
  predicate Proper(x: Account, r: Record)
    requires x.state.Some?
  {
    && 0 < r.settled <= x.balance
    && r.settled == r.setupFee + r.perSettleFee + r.burned
    && r.setupFee <= MAX_SETUP_FEE && r.perSettleFee <= MAX_BASE_FEE + r.settled / 100
    && (x.state.value.setupFeePaid ==> r.setupFee == 0)
    && (r.viaSweep ==>
          r.setupFee == r.perSettleFee == 0 && Sweepable(x.state.value, x.now) && r.settled <= x.state.value.sweepCap)
  }

  function AfterSettling(x: Account, r: Record, m: BurnMessage): Account
    requires x.state.Some? && Proper(x, r)
  {
    var left := x.balance - r.settled;
    var st := x.state.value.(setupFeePaid := x.state.value.setupFeePaid || !r.viaSweep);
    x.(balance := left, state := Some(DrawDown(st, r.settled, left)), log := x.log + [Settled(x.a, r, m, x.now)])
  }

  /** A sweep is covered by the arming snapshot, so by what had arrived an hour earlier. */
  lemma SweepIsCovered(x: Account, r: Record, m: BurnMessage, t: int)
    requires x.Sound() && x.state.Some? && Proper(x, r)
    ensures AfterSettling(x, r, m).Sum(SweptBy(x.a, t)) <= AfterSettling(x, r, m).Sum(ArrivedBy(x.a, t - MIN_SWEEP_DELAY))
  {
    hide Total;
    var e := Settled(x.a, r, m, x.now);
    TotalAppend(x.log, e, SweptBy(x.a, t));
    TotalAppend(x.log, e, ArrivedBy(x.a, t - MIN_SWEEP_DELAY));
    assert x.Sum(SweptBy(x.a, t)) <= x.Sum(ArrivedBy(x.a, t - MIN_SWEEP_DELAY));
    if r.viaSweep && x.now <= t {
      SweptByNow(x.log, x.a, t);
      ArrivedByMono(x.log, x.a, x.arm.time, t - MIN_SWEEP_DELAY);
    }
  }

  lemma SettledSums(x: Account, r: Record, m: BurnMessage, k: Tally)
    requires x.state.Some? && Proper(x, r)
    ensures AfterSettling(x, r, m).Sum(k) == x.Sum(k) + Weight(k, Settled(x.a, r, m, x.now))
  {
    hide Total;
    TotalAppend(x.log, Settled(x.a, r, m, x.now), k);
  }

  lemma SettlingKeepsWindow(x: Account, r: Record, m: BurnMessage)
    requires x.Sound() && x.state.Some? && Proper(x, r)
    ensures AfterSettling(x, r, m).WindowSound()
  {
    hide Total;
    SettledSums(x, r, m, SettledFrom(x.a));
    SettledSums(x, r, m, Swept(x.a));
    SettledSums(x, r, m, ArrivedBy(x.a, x.arm.time));
  }

  lemma SettlingKeepsFees(x: Account, r: Record, m: BurnMessage)
    requires x.FeesSound() && x.state.Some? && Proper(x, r)
    ensures AfterSettling(x, r, m).FeesSound()
  {
    hide Total;
    SettledSums(x, r, m, SetupFeeCount(x.a));
    SettledSums(x, r, m, FeesPaid(x.a));
    SettledSums(x, r, m, FlushCount(x.a));
    SettledSums(x, r, m, FlushedFrom(x.a));
  }

  lemma SettlingConserves(x: Account, r: Record, m: BurnMessage)
    requires x.Conserved() && x.state.Some? && Proper(x, r)
    ensures AfterSettling(x, r, m).Conserved()
  {
    hide Total;
    forall k: Tally ensures AfterSettling(x, r, m).Sum(k) == x.Sum(k) + Weight(k, Settled(x.a, r, m, x.now)) {
      SettledSums(x, r, m, k);
    }
  }

  /** A flush or a sweep of this address. */
  lemma Settling(x: Account, r: Record, m: BurnMessage)
    requires x.Sound() && x.state.Some? && Proper(x, r)
    ensures AfterSettling(x, r, m).Sound()
  {
    hide Total;
    hide Account.WindowSound;
    hide Account.FeesSound;
    hide Account.Conserved;
    var y := AfterSettling(x, r, m);
    SettlingKeepsWindow(x, r, m);
    SettlingKeepsFees(x, r, m);
    SettlingConserves(x, r, m);
    forall t: int ensures y.Sum(SweptBy(x.a, t)) <= y.Sum(ArrivedBy(x.a, t - MIN_SWEEP_DELAY)) {
      SweepIsCovered(x, r, m, t);
    }
  }
}
