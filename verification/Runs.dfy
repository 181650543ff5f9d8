/** Whole runs of one chain with any number of clones: deposits, flushes, armings, sweeps, rescues, time, every owner
    call and every change on Circle's side, in any order and by any callers. */
module Runs {
  import opened Basics
  import opened Tokens
  import opened Settings
  import opened Cctp
  import opened Layout
  import opened Settlement
  import opened Accounts

  /** What a deposit address commits to. */
  datatype Commitment = Commitment(recipient: bytes, fast: bool)

  /** The fixed background: `sites` is every deposit address with what it commits to, deployed or not. That it is a
      function of the address is the collision-freedom of the derivation. */
  datatype Universe = Universe(configSelf: Address, implementation: Address, usdc: Address, sites: map<Address, Commitment>)

  datatype World = World(config: ConfigState, ledger: Ledger, circle: Circle, now: nat,
                         clones: map<Address, CloneState>, arms: map<Address, Arm>, log: seq<Event>)

  datatype Action =
    | Wait(seconds: nat)
    | Receive(to: Address, amount: nat)
    | Spend(from: Address, amount: nat)
    | ReceiveNative(to: Address, wei: nat)
    | SpendNative(from: Address, wei: nat)
    | CircleChange(circle: Circle)
    | Configure(caller: Address, call: ConfigCall)
    | Deploy(a: Address)
    | DoFlush(a: Address, caller: Address)
    | DoRequestSweep(a: Address)
    | DoSweep(a: Address, caller: Address)
    | DoRescueNative(a: Address, caller: Address)
    | DoRescueErc20(a: Address, caller: Address, token: Address)

  function SiteOf(u: Universe, a: Address): Site {
    if a in u.sites then Site(a, u.implementation, Args(u.sites[a].recipient, u.sites[a].fast))
    else Site(a, u.implementation, [])
  }

  function EnvOf(w: World): Env {
    Env(w.ledger, w.circle, w.now)
  }

  /** Forwarder code runs at deployed clones and at the implementation itself. */
  predicate HasCode(u: Universe, w: World, a: Address) {
    a in w.clones || a == u.implementation
  }

  /** The ledger moves on and `to`'s gain in USDC, if any, is recorded as an arrival. */
  function Booked(u: Universe, w: World, ledger: Ledger, to: Address): World {
    w.(ledger := ledger,
       log := w.log + [Arrival(to, Max(0, ledger.BalanceOf(u.usdc, to) - w.ledger.BalanceOf(u.usdc, to)), w.now)])
  }

  /** A settlement of clone `a`: its event, its new storage, and the fee as an arrival at the collector. */
  function AfterEffect(u: Universe, w: World, a: Address, e: Effect): World {
    Booked(u, w.(clones := w.clones[a := e.state], log := w.log + [Settled(a, e.record, e.message, w.now)]),
           e.ledger, w.config.feeCollector)
  }

  /** One step; an action that is refused changes nothing. */
  function Step(u: Universe, w: World, act: Action): World {
    match act
    case Wait(seconds) => w.(now := w.now + seconds)
    case Receive(to, amount) => Booked(u, w, w.ledger.Credit(u.usdc, to, amount), to)
    case Spend(from, amount) =>
      if amount > w.ledger.BalanceOf(u.usdc, from) then w else w.(ledger := w.ledger.Debit(u.usdc, from, amount))
    case ReceiveNative(to, wei) => Booked(u, w, w.ledger.NativeCredit(to, wei), to)
    case SpendNative(from, wei) =>
      if wei > w.ledger.Native(from) then w else w.(ledger := w.ledger.NativeDebit(from, wei))
    case CircleChange(c) => w.(circle := c)
    case Configure(caller, call) => w.(config := Apply(w.config, u.configSelf, caller, call))
    case Deploy(a) =>
      if a in u.sites && a !in w.clones then w.(clones := w.clones[a := CloneState(0, 0, false)]) else w
    case DoFlush(a, caller) =>
      if a !in w.clones then w
      else (match Flush(w.config, EnvOf(w), SiteOf(u, a), w.clones[a], caller)
            case None => w
            case Some(e) => AfterEffect(u, w, a, e))
    case DoSweep(a, caller) =>
      if a !in w.clones then w
      else (match Sweep(w.config, EnvOf(w), SiteOf(u, a), w.clones[a], caller)
            case None => w
            case Some(e) => AfterEffect(u, w, a, e))
    case DoRequestSweep(a) =>
      if a !in w.clones then w
      else (match RequestSweep(w.config, EnvOf(w), SiteOf(u, a), w.clones[a])
            case None => w
            case Some(st) =>
              if w.clones[a].sweepableAt != 0 then w
              else w.(clones := w.clones[a := st],
                      arms := w.arms[a := Arm(w.now, st.sweepCap, Total(w.log, SettledFrom(a)), st.sweepableAt)]))
    case DoRescueNative(a, caller) =>
      if !HasCode(u, w, a) then w
      else (match RescueNative(w.config, EnvOf(w), SiteOf(u, a), caller)
            case None => w
            case Some(ledger) => Booked(u, w, ledger, w.config.rescueSink))
    case DoRescueErc20(a, caller, token) =>
      if !HasCode(u, w, a) then w
      else (match RescueErc20(w.config, EnvOf(w), SiteOf(u, a), caller, token)
            case None => w
            case Some(ledger) => Booked(u, w, ledger, w.config.rescueSink))
  }

  /** The environment's moves: time passes, Circle and owner do as they like, and USDC or native coin comes and goes,
      what arrives as USDC being recorded. */
  lemma EnvironmentMoves(u: Universe, w: World, act: Action)
    ensures var v := Step(u, w, act);
            && (act.Wait? ==> v == w.(now := w.now + act.seconds))
            && (act.CircleChange? ==> v == w.(circle := act.circle))
            && (act.Configure? ==> v == w.(config := Apply(w.config, u.configSelf, act.caller, act.call)))
            && (act.Receive? ==>
                  && v == w.(ledger := v.ledger, log := w.log + [Arrival(act.to, act.amount, w.now)])
                  && forall x :: v.ledger.BalanceOf(u.usdc, x) ==
                                 w.ledger.BalanceOf(u.usdc, x) + if x == act.to then act.amount else 0)
            && (act.Spend? ==>
                  && v == w.(ledger := v.ledger)
                  && forall x :: v.ledger.BalanceOf(u.usdc, x) ==
                                 w.ledger.BalanceOf(u.usdc, x)
                                 - if x == act.from && act.amount <= w.ledger.BalanceOf(u.usdc, x) then act.amount else 0)
  {
  }

  lemma NativeMoves(u: Universe, w: World, act: Action)
    ensures var v := Step(u, w, act);
            && (act.ReceiveNative? ==>
                  && v == w.(ledger := v.ledger, log := v.log) && v.ledger.erc20 == w.ledger.erc20
                  && (forall x :: v.ledger.Native(x) == w.ledger.Native(x) + if x == act.to then act.wei else 0)
                  && v.log == w.log + [Arrival(act.to, v.ledger.BalanceOf(u.usdc, act.to) - w.ledger.BalanceOf(u.usdc, act.to), w.now)])
            && (act.SpendNative? ==>
                  && v == w.(ledger := v.ledger) && v.ledger.erc20 == w.ledger.erc20
                  && forall x :: v.ledger.Native(x) ==
                                 w.ledger.Native(x) - if x == act.from && act.wei <= w.ledger.Native(x) then act.wei else 0)
  {
    hide Apply;
    hide Flush;
    hide Sweep;
    hide RequestSweep;
    hide RescueNative;
    hide RescueErc20;
    if act.ReceiveNative? {
      NativeArrives(w.ledger, u.usdc, act.to, act.wei);
    }
  }

  lemma NativeArrives(l: Ledger, token: Address, to: Address, wei: nat)
    ensures l.NativeCredit(to, wei).BalanceOf(token, to) >= l.BalanceOf(token, to)
  {
  }

  /** A rescue at any forwarder, the implementation included, moves what it may to the sink, and what arrives there as
      USDC is recorded. */
  lemma RescuesMove(u: Universe, w: World, act: Action, l: Ledger)
    requires act.DoRescueNative? || act.DoRescueErc20?
    requires act.a in w.clones || act.a == u.implementation
    requires Some(l) == if act.DoRescueNative? then RescueNative(w.config, EnvOf(w), SiteOf(u, act.a), act.caller)
                        else RescueErc20(w.config, EnvOf(w), SiteOf(u, act.a), act.caller, act.token)
    ensures var v, sink := Step(u, w, act), w.config.rescueSink;
            && v == w.(ledger := l, log := v.log)
            && v.log == w.log + [Arrival(sink, Max(0, l.BalanceOf(u.usdc, sink) - w.ledger.BalanceOf(u.usdc, sink)), w.now)]
  {
    hide RescueNative;
    hide RescueErc20;
  }

  /** What the outside world cannot do: sign for a deposit address, which has no key; and, on a verified chain, wire
      another USDC than the one depositors use. */
  predicate Possible(u: Universe, act: Action) {
    match act
    case Spend(from, _) => from !in u.sites
    case SpendNative(from, _) => from !in u.sites
    case Configure(_, call) => call.Init? ==> call.usdc == u.usdc
    case _ => true
  }

  predicate Universal(u: Universe) {
    u.implementation !in u.sites && u.usdc != 0
  }

  /** Before anything has happened: nothing deployed, nothing received, a Config fresh from its constructor. */
  predicate Genesis(u: Universe, w: World) {
    && Universal(u)
    && w.config == Fresh(w.config.owner)
    && w.clones == map[] && w.log == []
    && forall a :: a in u.sites ==> w.ledger.BalanceOf(u.usdc, a) == 0
  }

  predicate Run(u: Universe, acts: seq<Action>) {
    forall i :: 0 <= i < |acts| ==> Possible(u, acts[i])
  }

  function After(u: Universe, w: World, acts: seq<Action>): World {
    if acts == [] then w else Step(u, After(u, w, acts[..|acts| - 1]), acts[|acts| - 1])
  }

  /** A run can be cut anywhere. */
  lemma {:induction false} AfterConcat(u: Universe, w: World, xs: seq<Action>, ys: seq<Action>)
    ensures After(u, w, xs + ys) == After(u, After(u, w, xs), ys)
  {
    if ys == [] {
      assert xs + ys == xs;
    } else {
      AfterConcat(u, w, xs, ys[..|ys| - 1]);
      assert (xs + ys)[..|xs + ys| - 1] == xs + ys[..|ys| - 1];
    }
  }

  /** The account of a deposit address in a world. */
  function AccountOf(u: Universe, w: World, a: Address): Account {
    Account(a, w.ledger.BalanceOf(u.usdc, a), w.now,
            if a in w.clones then Some(w.clones[a]) else None,
            if a in w.arms then w.arms[a] else Arm(0, 0, 0, 0),
            w.log)
  }

  /** Every burn so far went to its own address's committed recipient, over the wired route. */
  predicate BurnsSound(u: Universe, w: World) {
    forall i :: 0 <= i < |w.log| && w.log[i].Settled? ==>
      var e := w.log[i];
      && w.config.initialized
      && e.clone in u.sites
      && e.message.amount == e.record.burned > 0
      && e.record.settled == e.record.setupFee + e.record.perSettleFee + e.record.burned
      && e.message.burnToken == u.usdc
      && e.message.domain == STELLAR_DOMAIN
      && e.message.mintRecipient == e.message.destinationCaller == w.config.stellarForwarder
      && e.message.hookData == HookData(u.sites[e.clone].recipient)
      && e.message.maxFee < e.message.amount && e.message.maxFee <= CeilDiv(e.message.amount, 100)
      && (e.record.viaSweep ==> e.record.burned == e.record.settled && e.message.finality == FINALITY_STANDARD)
      && e.message.finality == (if e.record.fast then FINALITY_FAST else FINALITY_STANDARD)
      && (e.record.fast ==> u.sites[e.clone].fast && !e.record.viaSweep)
  }

  ghost predicate Sound(u: Universe, w: World) {
    && Universal(u)
    && Capped(w.config)
    && (w.config.initialized ==> w.config.usdc == u.usdc)
    && (forall a :: a in w.clones ==> a in u.sites)
    && (forall a :: a in w.clones && w.clones[a].sweepableAt != 0 ==> w.config.initialized)
    && BurnsSound(u, w)
    && forall a :: a in u.sites ==> AccountOf(u, w, a).Sound()
  }

  /** A ledger change that takes nothing from any deposit address and gives only to `to` keeps every account sound. */
  lemma BookedSound(u: Universe, w: World, ledger: Ledger, to: Address)
    requires Sound(u, w)
    requires forall a :: a in u.sites && a != to ==> ledger.BalanceOf(u.usdc, a) == w.ledger.BalanceOf(u.usdc, a)
    requires to in u.sites ==> ledger.BalanceOf(u.usdc, to) >= w.ledger.BalanceOf(u.usdc, to)
    ensures Sound(u, Booked(u, w, ledger, to))
  {
    hide Account.Sound;
    var v := Booked(u, w, ledger, to);
    forall a | a in u.sites ensures AccountOf(u, v, a).Sound() {
      var x := AccountOf(u, w, a);
      if a == to {
        Receiving(x, ledger.BalanceOf(u.usdc, a) - w.ledger.BalanceOf(u.usdc, a));
      } else {
        Bystanding(x, v.log[|v.log| - 1]);
      }
    }
  }

  /** `e` is what a sweep, or a flush, of `a` by `caller` does. */
  predicate IsEffect(u: Universe, w: World, a: Address, caller: Address, sweeping: bool, e: Effect)
    requires a in w.clones
  {
    Some(e) == if sweeping then Sweep(w.config, EnvOf(w), SiteOf(u, a), w.clones[a], caller)
               else Flush(w.config, EnvOf(w), SiteOf(u, a), w.clones[a], caller)
  }

  /** What both settlements guarantee about the account they settle. */
  lemma EffectIsProper(u: Universe, w: World, a: Address, caller: Address, sweeping: bool, e: Effect)
    requires Sound(u, w) && a in w.clones
    requires IsEffect(u, w, a, caller, sweeping, e)
    ensures w.config.initialized && e.record.viaSweep == sweeping
    ensures Proper(AccountOf(u, w, a), e.record)
    ensures e.record.settled == if sweeping then SweepAmount(w.config, EnvOf(w), SiteOf(u, a), w.clones[a])
                                else FlushAmount(w.config, EnvOf(w), SiteOf(u, a))
    ensures e.message == MessageFor(w.config, SiteOf(u, a), e.record.burned, e.message.maxFee, e.record.fast)
    ensures e.message.maxFee < e.record.burned && e.message.maxFee <= CeilDiv(e.record.burned, 100)
    ensures sweeping ==> !e.record.fast && e.record.burned == e.record.settled
    ensures e.record.fast ==> u.sites[a].fast
    ensures Some(e.state) == AfterSettling(AccountOf(u, w, a), e.record, e.message).state
    ensures forall x :: e.ledger.BalanceOf(u.usdc, x) ==
                        w.ledger.BalanceOf(u.usdc, x) - (if x == a then e.record.settled else 0)
                        + (if x == w.config.feeCollector then e.record.settled - e.record.burned else 0)
    ensures w.config.feeCollector == a ==> e.record.settled == e.record.burned
  {
    hide BurnsSound;
    hide Total;
    hide HookData;
    hide Account.Sound;
    hide Settle;
    var amount := if sweeping then SweepAmount(w.config, EnvOf(w), SiteOf(u, a), w.clones[a])
                  else FlushAmount(w.config, EnvOf(w), SiteOf(u, a));
    SettleEffect(w.config, EnvOf(w), SiteOf(u, a), w.clones[a], caller, amount, !sweeping);
    ArgsReadBack(u.sites[a].recipient, u.sites[a].fast);
  }

  /** The settled account moves by `Settling`, the collector's by `Receiving`, every other not at all. */
  lemma EffectOnAccount(u: Universe, w: World, a: Address, caller: Address, sweeping: bool, e: Effect, b: Address)
    requires Sound(u, w) && a in w.clones && b in u.sites
    requires IsEffect(u, w, a, caller, sweeping, e)
    ensures AccountOf(u, AfterEffect(u, w, a, e), b).Sound()
  {
    hide IsEffect;
    hide AfterEffect;
    hide Account.Sound;
    if b == a {
      EffectOnItself(u, w, a, caller, sweeping, e);
    } else {
      EffectOnOthers(u, w, a, caller, sweeping, e, b);
    }
  }

  lemma EffectOnItself(u: Universe, w: World, a: Address, caller: Address, sweeping: bool, e: Effect)
    requires Sound(u, w) && a in w.clones
    requires IsEffect(u, w, a, caller, sweeping, e)
    ensures AccountOf(u, AfterEffect(u, w, a, e), a).Sound()
  {
    hide IsEffect;
    hide BurnsSound;
    hide Total;
    hide Weight;
    hide DrawDown;
    hide Account.Sound;
    EffectIsProper(u, w, a, caller, sweeping, e);
    var v, x := AfterEffect(u, w, a, e), AccountOf(u, w, a);
    var fee := v.log[|v.log| - 1];
    assert v.log == x.log + [Settled(a, e.record, e.message, w.now)] + [fee];
    Settling(x, e.record, e.message);
    Bystanding(AfterSettling(x, e.record, e.message), fee);
    assert AccountOf(u, v, a) == AfterSettling(x, e.record, e.message).(log := v.log);
  }

  lemma EffectOnOthers(u: Universe, w: World, a: Address, caller: Address, sweeping: bool, e: Effect, b: Address)
    requires Sound(u, w) && a in w.clones && b in u.sites && b != a
    requires IsEffect(u, w, a, caller, sweeping, e)
    ensures AccountOf(u, AfterEffect(u, w, a, e), b).Sound()
  {
    hide IsEffect;
    hide BurnsSound;
    hide Total;
    hide Weight;
    hide AfterSettling;
    hide Account.Sound;
    EffectIsProper(u, w, a, caller, sweeping, e);
    var v, x := AfterEffect(u, w, a, e), AccountOf(u, w, b);
    var fee, settled := v.log[|v.log| - 1], Settled(a, e.record, e.message, w.now);
    assert v.log == x.log + [settled] + [fee];
    Bystanding(x, settled);
    var y := x.(log := x.log + [settled]);
    if b == fee.to {
      Receiving(y, fee.amount);
      assert AccountOf(u, v, b) == y.(balance := y.balance + fee.amount, log := v.log);
    } else {
      Bystanding(y, fee);
      assert AccountOf(u, v, b) == y.(log := v.log);
    }
  }

  lemma EffectBurnSound(u: Universe, w: World, a: Address, caller: Address, sweeping: bool, e: Effect)
    requires Sound(u, w) && a in w.clones
    requires IsEffect(u, w, a, caller, sweeping, e)
    ensures w.config.initialized && BurnsSound(u, AfterEffect(u, w, a, e))
  {
    hide IsEffect;
    hide Account.Sound;
    EffectIsProper(u, w, a, caller, sweeping, e);
    ArgsReadBack(u.sites[a].recipient, u.sites[a].fast);
  }

  lemma EffectSound(u: Universe, w: World, a: Address, caller: Address, sweeping: bool, e: Effect)
    requires Sound(u, w) && a in w.clones
    requires IsEffect(u, w, a, caller, sweeping, e)
    ensures Sound(u, AfterEffect(u, w, a, e))
  {
    hide IsEffect;
    hide Account.Sound;
    EffectBurnSound(u, w, a, caller, sweeping, e);
    forall b | b in u.sites ensures AccountOf(u, AfterEffect(u, w, a, e), b).Sound() {
      EffectOnAccount(u, w, a, caller, sweeping, e, b);
    }
  }

  lemma ArmingSound(u: Universe, w: World, a: Address)
    requires Sound(u, w)
    ensures Sound(u, Step(u, w, DoRequestSweep(a)))
  {
    hide Account.Sound;
    var v := Step(u, w, DoRequestSweep(a));
    if v != w {
      Arming(AccountOf(u, w, a), v.clones[a].sweepableAt);
      forall b | b in u.sites ensures AccountOf(u, v, b).Sound() {
        assert b != a ==> AccountOf(u, v, b) == AccountOf(u, w, b);
      }
    }
  }

  /** Whether or not the native coin is USDC, a native rescue lowers nobody's USDC and raises only the sink's. */
  lemma NativeRescueKeepsUsdc(u: Universe, w: World, a: Address, caller: Address, ledger: Ledger)
    requires w.config.initialized ==> w.config.usdc == u.usdc
    requires RescueNative(w.config, EnvOf(w), SiteOf(u, a), caller) == Some(ledger)
    ensures forall x :: x != w.config.rescueSink ==> ledger.BalanceOf(u.usdc, x) == w.ledger.BalanceOf(u.usdc, x)
    ensures ledger.BalanceOf(u.usdc, w.config.rescueSink) >= w.ledger.BalanceOf(u.usdc, w.config.rescueSink)
  {
  }

  /** A token rescue moves USDC only off the implementation, which is not a deposit address. */
  lemma TokenRescueKeepsUsdc(u: Universe, w: World, a: Address, caller: Address, token: Address, ledger: Ledger)
    requires w.config.initialized ==> w.config.usdc == u.usdc
    requires RescueErc20(w.config, EnvOf(w), SiteOf(u, a), caller, token) == Some(ledger)
    ensures forall x :: x != w.config.rescueSink && x != u.implementation ==>
                          ledger.BalanceOf(u.usdc, x) == w.ledger.BalanceOf(u.usdc, x)
    ensures ledger.BalanceOf(u.usdc, w.config.rescueSink) >= w.ledger.BalanceOf(u.usdc, w.config.rescueSink)
  {
    if token != u.usdc {
      TransferElsewhere(w.ledger, token, a, w.config.rescueSink, w.ledger.BalanceOf(token, a), u.usdc);
    }
  }

  lemma RescueSound(u: Universe, w: World, act: Action)
    requires Sound(u, w)
    requires act.DoRescueNative? || act.DoRescueErc20?
    ensures Sound(u, Step(u, w, act))
  {
    hide Account.Sound;
    hide RescueNative;
    hide RescueErc20;
    if HasCode(u, w, act.a) {
      if act.DoRescueNative? {
        var r := RescueNative(w.config, EnvOf(w), SiteOf(u, act.a), act.caller);
        if r.Some? {
          NativeRescueKeepsUsdc(u, w, act.a, act.caller, r.value);
          BookedSound(u, w, r.value, w.config.rescueSink);
        }
      } else {
        var r := RescueErc20(w.config, EnvOf(w), SiteOf(u, act.a), act.caller, act.token);
        if r.Some? {
          TokenRescueKeepsUsdc(u, w, act.a, act.caller, act.token, r.value);
          BookedSound(u, w, r.value, w.config.rescueSink);
        }
      }
    }
  }

  lemma SettlementSound(u: Universe, w: World, act: Action)
    requires Sound(u, w)
    requires act.DoFlush? || act.DoSweep?
    ensures Sound(u, Step(u, w, act))
  {
    hide Account.Sound;
    hide Flush;
    hide Sweep;
    if act.a in w.clones {
      var r := if act.DoSweep? then Sweep(w.config, EnvOf(w), SiteOf(u, act.a), w.clones[act.a], act.caller)
               else Flush(w.config, EnvOf(w), SiteOf(u, act.a), w.clones[act.a], act.caller);
      if r.Some? {
        EffectSound(u, w, act.a, act.caller, act.DoSweep?, r.value);
      }
    }
  }

  lemma ArrivalSound(u: Universe, w: World, act: Action)
    requires Sound(u, w)
    requires act.Receive? || act.ReceiveNative?
    ensures Sound(u, Step(u, w, act))
  {
    hide Account.Sound;
    if act.Receive? {
      BookedSound(u, w, w.ledger.Credit(u.usdc, act.to, act.amount), act.to);
    } else {
      BookedSound(u, w, w.ledger.NativeCredit(act.to, act.wei), act.to);
    }
  }

  lemma WaitSound(u: Universe, w: World, seconds: nat)
    requires Sound(u, w)
    ensures Sound(u, Step(u, w, Wait(seconds)))
  {
    hide Account.Sound;
    forall a | a in u.sites ensures AccountOf(u, Step(u, w, Wait(seconds)), a).Sound() {
      Waiting(AccountOf(u, w, a), w.now + seconds);
    }
  }

  lemma DeploySound(u: Universe, w: World, a: Address)
    requires Sound(u, w)
    ensures Sound(u, Step(u, w, Deploy(a)))
  {
    hide Account.Sound;
    if a in u.sites && a !in w.clones {
      Deploying(AccountOf(u, w, a));
      var v := Step(u, w, Deploy(a));
      forall b | b in u.sites ensures AccountOf(u, v, b).Sound() {
        assert b != a ==> AccountOf(u, v, b) == AccountOf(u, w, b);
      }
    }
  }

  lemma QuietSound(u: Universe, w: World, act: Action)
    requires Sound(u, w) && Possible(u, act)
    requires act.Spend? || act.SpendNative? || act.CircleChange? || act.Configure?
    ensures Sound(u, Step(u, w, act))
  {
    hide Account.Sound;
    hide Apply;
    hide HookData;
    hide Flush;
    hide Sweep;
    hide RequestSweep;
    hide RescueNative;
    hide RescueErc20;
    if act.Configure? {
      ApplyKeeps(w.config, u.configSelf, act.caller, act.call);
    }
    var v := Step(u, w, act);
    forall a | a in u.sites ensures AccountOf(u, v, a).Sound() {
      assert AccountOf(u, v, a) == AccountOf(u, w, a);
    }
  }

  /** Every possible step keeps the whole invariant, for every deposit address at once. */
  lemma StepSound(u: Universe, w: World, act: Action)
    requires Sound(u, w) && Possible(u, act)
    ensures Sound(u, Step(u, w, act))
  {
    hide Sound;
    hide Step;
    match act
    case Wait(seconds) => WaitSound(u, w, seconds);
    case Receive(_, _) => ArrivalSound(u, w, act);
    case ReceiveNative(_, _) => ArrivalSound(u, w, act);
    case Deploy(a) => DeploySound(u, w, a);
    case DoFlush(_, _) => SettlementSound(u, w, act);
    case DoSweep(_, _) => SettlementSound(u, w, act);
    case DoRequestSweep(a) => ArmingSound(u, w, a);
    case DoRescueNative(_, _) => RescueSound(u, w, act);
    case DoRescueErc20(_, _, _) => RescueSound(u, w, act);
    case _ => QuietSound(u, w, act);
  }

  lemma {:induction false} RunSound(u: Universe, w: World, acts: seq<Action>)
    requires Sound(u, w) && Run(u, acts)
    ensures Sound(u, After(u, w, acts))
  {
    hide Sound;
    hide Step;
    if acts != [] {
      RunSound(u, w, acts[..|acts| - 1]);
      StepSound(u, After(u, w, acts[..|acts| - 1]), acts[|acts| - 1]);
    }
  }

  lemma GenesisSound(u: Universe, w: World)
    requires Genesis(u, w)
    ensures Sound(u, w)
  {
    forall a | a in u.sites ensures AccountOf(u, w, a).Sound() {
      var x := AccountOf(u, w, a);
      forall t: int ensures x.Sum(SweptBy(a, t)) <= x.Sum(ArrivedBy(a, t - MIN_SWEEP_DELAY)) {}
    }
  }

  /** Every reachable world is sound. */
  lemma ReachableSound(u: Universe, w: World, acts: seq<Action>)
    requires Genesis(u, w) && Run(u, acts)
    ensures Sound(u, After(u, w, acts))
  {
    GenesisSound(u, w);
    RunSound(u, w, acts);
    hide *;
  }
}
