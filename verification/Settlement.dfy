/** What each entry point of `src/DepositForwarder.sol` does, as functions of the settings, the chain and the
    clone's storage. `None` is a revert. The class in `Forwarder.dfy` follows the contract statement by statement
    and is proved against these; everything about whole runs is proved about these. */
module Settlement {
  import opened Basics
  import opened Tokens
  import opened Settings
  import opened Cctp
  import opened Layout

  const MIN_SWEEP_AMOUNT: nat := 2

  /** A clone's storage. */
  datatype CloneState = CloneState(sweepableAt: nat, sweepCap: nat, setupFeePaid: bool)

  /** Its immutables. */
  datatype Site = Site(self: Address, implementation: Address, args: bytes)

  datatype Env = Env(ledger: Ledger, circle: Circle, now: nat)

  /** The `Settled` event. */
  datatype Record = Record(caller: Address, settled: nat, setupFee: nat, perSettleFee: nat, burned: nat,
                           viaSweep: bool, fast: bool)

  datatype Effect = Effect(state: CloneState, ledger: Ledger, record: Record, message: BurnMessage)

  predicate OnClone(site: Site) {
    site.self != site.implementation && |site.args| > 0
  }

  function Balance(cfg: ConfigState, env: Env, site: Site): nat {
    env.ledger.BalanceOf(cfg.usdc, site.self)
  }

  /** One-time and recurring fee for settling `settled`; `None` on overflow or when nothing would be left. */
  function FeesFor(cfg: ConfigState, setupFeePaid: bool, settled: nat): Option<(nat, nat)> {
    var setup := if setupFeePaid then 0 else Min(cfg.setupFee, MAX_SETUP_FEE);
    var ppm := Min(cfg.feePpm, MAX_FEE_PPM);
    if settled * ppm > U256_MAX then None
    else
      var recurring := Min(cfg.baseFee, MAX_BASE_FEE) + settled * ppm / PPM_DENOM;
      if setup + recurring >= settled then None else Some((setup, recurring))
  }

  /** Fast is requested by a fee-charging settlement of a fast address while the chain has fast enabled. */
  predicate UsesFast(cfg: ConfigState, site: Site, chargeFees: bool)
    requires |site.args| > 0
  {
    chargeFees && FastOf(site.args) && cfg.fastEnabled
  }

  function RateFor(cfg: ConfigState, fast: bool): nat {
    if fast then cfg.cctpFastMaxFeePpm else cfg.cctpStandardMaxFeePpm
  }

  function MessageFor(cfg: ConfigState, site: Site, toBurn: nat, maxFee: nat, fast: bool): BurnMessage
    requires |site.args| > 0
  {
    BurnMessage(toBurn, STELLAR_DOMAIN, cfg.stellarForwarder, cfg.usdc, cfg.stellarForwarder, maxFee,
                if fast then FINALITY_FAST else FINALITY_STANDARD, HookData(RecipientOf(site.args)))
  }

  datatype Charge = Charge(ledger: Ledger, setupFee: nat, perSettleFee: nat)

  /** The fees of settling `settled` move to the collector in one transfer, which may not be the clone itself. */
  function CollectFees(cfg: ConfigState, site: Site, l: Ledger, setupFeePaid: bool, settled: nat): (r: Option<Charge>)
    requires settled <= l.BalanceOf(cfg.usdc, site.self)
    ensures r.Some? ==> r.value.setupFee + r.value.perSettleFee < settled
    ensures r.Some? ==> r.value.ledger.BalanceOf(cfg.usdc, site.self) ==
                        l.BalanceOf(cfg.usdc, site.self) - r.value.setupFee - r.value.perSettleFee
  {
    var fees := FeesFor(cfg, setupFeePaid, settled);
    if fees.None? then None
    else
      var total := fees.value.0 + fees.value.1;
      if total == 0 then Some(Charge(l, 0, 0))
      else if cfg.feeCollector == 0 || cfg.feeCollector == site.self then None
      else Some(Charge(l.Transfer(cfg.usdc, site.self, cfg.feeCollector, total), fees.value.0, fees.value.1))
  }

  /** Burning `toBurn` with the allowance the settings and the messenger's reported minimum give. */
  function BurnViaCctp(cfg: ConfigState, circle: Circle, site: Site, l: Ledger, toBurn: nat, fast: bool)
    : Option<(Ledger, BurnMessage)>
    requires |site.args| > 0
    requires 0 < toBurn <= l.BalanceOf(cfg.usdc, site.self)
  {
    var maxFee := Allowance(toBurn, RateFor(cfg, fast), MAX_CCTP_FEE_PPM, Probe(circle, toBurn));
    if maxFee.None? || !AcceptsBurn(circle, toBurn, maxFee.value) then None
    else Some((l.Debit(cfg.usdc, site.self, toBurn), MessageFor(cfg, site, toBurn, maxFee.value, fast)))
  }

  /** The rest of a settlement once its fees have moved. */
  function SettleCharged(cfg: ConfigState, circle: Circle, site: Site, st: CloneState, caller: Address, amount: nat,
                         charge: Charge, chargeFees: bool): Option<Effect>
    requires |site.args| > 0
    requires charge.setupFee + charge.perSettleFee < amount
    requires amount - charge.setupFee - charge.perSettleFee <= charge.ledger.BalanceOf(cfg.usdc, site.self)
  {
    var toBurn := amount - charge.setupFee - charge.perSettleFee;
    var fast := UsesFast(cfg, site, chargeFees);
    var burn := BurnViaCctp(cfg, circle, site, charge.ledger, toBurn, fast);
    if burn.None? then None
    else Some(Effect(st, burn.value.0,
                     Record(caller, amount, charge.setupFee, charge.perSettleFee, toBurn, !chargeFees, fast), burn.value.1))
  }

  /** Settling `amount`: fees to the collector, the rest burned to the committed recipient. */
  function Settle(cfg: ConfigState, env: Env, site: Site, st: CloneState, caller: Address, amount: nat, chargeFees: bool)
    : Option<Effect>
    requires |site.args| > 0
  {
    if amount == 0 || amount > Balance(cfg, env, site) then None
    else if chargeFees then
      var charge := CollectFees(cfg, site, env.ledger, st.setupFeePaid, amount);
      if charge.None? then None
      else SettleCharged(cfg, env.circle, site, st.(setupFeePaid := true), caller, amount, charge.value, true)
    else SettleCharged(cfg, env.circle, site, st, caller, amount, Charge(env.ledger, 0, 0), false)
  }

  /** The one rule both settlements apply to an open window: it loses what was settled, and closes once less than
      a burnable amount is left of it or nothing is left at the address. */
  function DrawDown(st: CloneState, settled: nat, left: nat): CloneState {
    if st.sweepableAt == 0 then st
    else if st.sweepCap < settled + MIN_SWEEP_AMOUNT || left == 0 then st.(sweepableAt := 0, sweepCap := 0)
    else st.(sweepCap := st.sweepCap - settled)
  }

  function WithDrawDown(e: Option<Effect>, cfg: ConfigState, site: Site): Option<Effect> {
    match e
    case None => None
    case Some(f) =>
      Some(f.(state := DrawDown(f.state, f.record.settled, f.ledger.BalanceOf(cfg.usdc, site.self))))
  }

  predicate MayFlush(cfg: ConfigState, caller: Address) {
    caller in cfg.operators || caller == cfg.factory || cfg.publicFlush
  }

  function FlushAmount(cfg: ConfigState, env: Env, site: Site): nat {
    Min(Balance(cfg, env, site), env.circle.burnLimit)
  }

  function Flush(cfg: ConfigState, env: Env, site: Site, st: CloneState, caller: Address): Option<Effect> {
    if !OnClone(site) || !MayFlush(cfg, caller) || !cfg.initialized || env.circle.burnLimit == 0 then None
    else WithDrawDown(Settle(cfg, env, site, st, caller, FlushAmount(cfg, env, site), true), cfg, site)
  }

  function RequestSweep(cfg: ConfigState, env: Env, site: Site, st: CloneState): Option<CloneState> {
    if !OnClone(site) || !cfg.initialized || Balance(cfg, env, site) < MIN_SWEEP_AMOUNT then None
    else if st.sweepableAt != 0 then Some(st)
    else
      var deadline := env.now + Min(cfg.sweepDelay, MAX_SWEEP_DELAY);
      if deadline > U256_MAX then None
      else Some(st.(sweepableAt := deadline, sweepCap := Balance(cfg, env, site)))
  }

  function SweepAmount(cfg: ConfigState, env: Env, site: Site, st: CloneState): nat {
    Min(Min(Balance(cfg, env, site), st.sweepCap), env.circle.burnLimit)
  }

  predicate Sweepable(st: CloneState, now: nat) {
    st.sweepableAt != 0 && now >= st.sweepableAt
  }

  function Sweep(cfg: ConfigState, env: Env, site: Site, st: CloneState, caller: Address): Option<Effect> {
    if !OnClone(site) || !cfg.initialized || !Sweepable(st, env.now) || env.circle.burnLimit == 0 then None
    else WithDrawDown(Settle(cfg, env, site, st, caller, SweepAmount(cfg, env, site, st), false), cfg, site)
  }

  /** All native coin to the sink, unless that would show as a lower USDC balance. */
  function RescueNative(cfg: ConfigState, env: Env, site: Site, caller: Address): Option<Ledger> {
    if caller !in cfg.operators || cfg.rescueSink == 0 || !cfg.initialized then None
    else
      var moved := env.ledger.NativeTransfer(site.self, cfg.rescueSink, env.ledger.Native(site.self));
      if moved.BalanceOf(cfg.usdc, site.self) < Balance(cfg, env, site) then None else Some(moved)
  }

  function RescueErc20(cfg: ConfigState, env: Env, site: Site, caller: Address, token: Address): Option<Ledger> {
    if caller !in cfg.operators || !cfg.initialized || cfg.rescueSink == 0
       || (token == cfg.usdc && site.self != site.implementation) then None
    else Some(env.ledger.Transfer(token, site.self, cfg.rescueSink, env.ledger.BalanceOf(token, site.self)))
  }

  lemma RecurringFeeBounded(cfg: ConfigState, settled: nat)
    ensures settled * Min(cfg.feePpm, MAX_FEE_PPM) / PPM_DENOM <= settled / 100
  {
    MulMono(Min(cfg.feePpm, MAX_FEE_PPM), MAX_FEE_PPM, settled);
  }

  /** What a successful settlement did, in balances and in the event it leaves. */
  lemma SettleEffect(cfg: ConfigState, env: Env, site: Site, st: CloneState, caller: Address, amount: nat, chargeFees: bool)
    requires |site.args| > 0
    requires Settle(cfg, env, site, st, caller, amount, chargeFees).Some?
    ensures var e := Settle(cfg, env, site, st, caller, amount, chargeFees).value;
            && e.record.settled == amount == e.record.setupFee + e.record.perSettleFee + e.record.burned
            && e.record.burned > 0 && e.message.amount == e.record.burned
            && e.record.viaSweep == !chargeFees
            && e.record.setupFee <= MAX_SETUP_FEE && e.record.perSettleFee <= MAX_BASE_FEE + amount / 100
            && (st.setupFeePaid || !chargeFees ==> e.record.setupFee == 0)
            && e.state == st.(setupFeePaid := st.setupFeePaid || chargeFees)
            && e.message == MessageFor(cfg, site, e.record.burned, e.message.maxFee, e.record.fast)
            && e.record.fast == UsesFast(cfg, site, chargeFees)
            && (cfg.feeCollector == site.self ==> e.record.burned == amount)
            && 0 < amount <= Balance(cfg, env, site)
            && (!chargeFees ==> e.record.burned == amount && e.message.finality == FINALITY_STANDARD)
            && e.message.maxFee < e.record.burned && e.message.maxFee <= CeilDiv(e.record.burned, 100)
            && e.ledger.nativeToken == env.ledger.nativeToken
            && forall x ::
                 e.ledger.BalanceOf(cfg.usdc, x) ==
                 env.ledger.BalanceOf(cfg.usdc, x) - (if x == site.self then amount else 0)
                 + (if x == cfg.feeCollector then amount - e.record.burned else 0)
  {
    var e := Settle(cfg, env, site, st, caller, amount, chargeFees).value;
    var fast := UsesFast(cfg, site, chargeFees);
    if chargeFees {
      RecurringFeeBounded(cfg, amount);
    }
    AllowanceBounded(e.record.burned, RateFor(cfg, fast), Probe(env.circle, e.record.burned));
  }

  /** On every reachable Config the clamps in the fee computation never bite. */
  lemma ClampsAreIdentities(cfg: ConfigState, setupFeePaid: bool, settled: nat)
    requires Capped(cfg)
    requires settled < SUPPLY_BOUND
    ensures FeesFor(cfg, setupFeePaid, settled) ==
            (var setup := if setupFeePaid then 0 else cfg.setupFee;
             var recurring := cfg.baseFee + settled * cfg.feePpm / PPM_DENOM;
             if setup + recurring < settled then Some((setup, recurring)) else None)
    ensures Min(cfg.sweepDelay, MAX_SWEEP_DELAY) == cfg.sweepDelay
    ensures forall fast :: Min(RateFor(cfg, fast), MAX_CCTP_FEE_PPM) == RateFor(cfg, fast)
  {
    MulMono(cfg.feePpm, MAX_FEE_PPM, settled);
  }

  predicate Committed(site: Site) {
    site.self != site.implementation && site.args != []
  }

  /** What a flush of `amount` charges the first time and each time. */
  function SetupCharge(cfg: ConfigState, st: CloneState): nat {
    if st.setupFeePaid then 0 else if cfg.setupFee < 100_000_000 then cfg.setupFee else 100_000_000
  }

  function RecurringCharge(cfg: ConfigState, amount: nat): nat {
    (if cfg.baseFee < 100_000_000 then cfg.baseFee else 100_000_000)
    + amount * (if cfg.feePpm < 10_000 then cfg.feePpm else 10_000) / 1_000_000
  }

  /** With an honest getter, exactly when a sweep goes through: the window has opened and Circle can take the amount
      within the cap. No owner setting is in the condition. */
  lemma SweepSucceedsIff(cfg: ConfigState, env: Env, site: Site, st: CloneState, caller: Address)
    requires env.circle.forced.None?
    ensures Sweep(cfg, env, site, st, caller).Some? <==>
            && Committed(site) && cfg.initialized && 0 < st.sweepableAt <= env.now
            && var balance, limit := env.ledger.BalanceOf(cfg.usdc, site.self), env.circle.burnLimit;
               var armed := if balance < st.sweepCap then balance else st.sweepCap;
               Payable(env.circle, if armed < limit then armed else limit)
  {
    hide Payable;
    hide Allowance;
    hide AcceptsBurn;
    hide Probe;
    PayableIsPositive(env.circle);
    var amount := SweepAmount(cfg, env, site, st);
    if amount > 0 {
      AllowanceAcceptedIff(env.circle, amount, cfg.cctpStandardMaxFeePpm);
    }
  }

  /** With an honest getter, exactly when a flush goes through: the caller is admitted, the fees leave something, a
      collector other than the clone can take them, and Circle can take the rest within the cap. */
  lemma FlushSucceedsIff(cfg: ConfigState, env: Env, site: Site, st: CloneState, caller: Address)
    requires env.circle.forced.None?
    ensures Flush(cfg, env, site, st, caller).Some? <==>
            && Committed(site) && cfg.initialized
            && (caller in cfg.operators || caller == cfg.factory || cfg.publicFlush)
            && var balance := env.ledger.BalanceOf(cfg.usdc, site.self);
               var amount := if balance < env.circle.burnLimit then balance else env.circle.burnLimit;
               && amount * (if cfg.feePpm < 10_000 then cfg.feePpm else 10_000) <= U256_MAX
               && var fees := SetupCharge(cfg, st) + RecurringCharge(cfg, amount);
                  && fees < amount
                  && (fees == 0 || (cfg.feeCollector != 0 && cfg.feeCollector != site.self))
                  && Payable(env.circle, amount - fees)
  {
    hide Payable;
    hide Settle;
    if OnClone(site) {
      ChargedSettlementIff(cfg, env, site, st, caller, FlushAmount(cfg, env, site));
    }
    PayableIsPositive(env.circle);
  }

  lemma ChargedSettlementIff(cfg: ConfigState, env: Env, site: Site, st: CloneState, caller: Address, amount: nat)
    requires |site.args| > 0 && env.circle.forced.None?
    ensures Settle(cfg, env, site, st, caller, amount, true).Some? <==>
            && amount <= Balance(cfg, env, site)
            && var fees := FeesFor(cfg, st.setupFeePaid, amount);
               && fees.Some?
               && (fees.value.0 + fees.value.1 == 0 || (cfg.feeCollector != 0 && cfg.feeCollector != site.self))
               && Payable(env.circle, amount - fees.value.0 - fees.value.1)
  {
    hide Payable;
    hide Allowance;
    hide AcceptsBurn;
    hide Probe;
    var fees := FeesFor(cfg, st.setupFeePaid, amount);
    if amount > 0 && fees.Some? {
      AllowanceAcceptedIff(env.circle, amount - fees.value.0 - fees.value.1, RateFor(cfg, UsesFast(cfg, site, true)));
    }
  }

  lemma PayableIsPositive(c: Circle)
    ensures forall n: nat :: Payable(c, n) ==> 0 < n <= c.burnLimit
  {
  }

  // --- What each entry point does, in full ---

  /** An open window after `amount` of `balance` is settled. */
  predicate WindowAfter(st: CloneState, amount: nat, balance: nat, after: CloneState) {
    if st.sweepableAt == 0 then after.sweepableAt == 0 && after.sweepCap == st.sweepCap
    else if amount + 2 <= st.sweepCap && amount < balance then
      after.sweepableAt == st.sweepableAt && after.sweepCap == st.sweepCap - amount
    else after.sweepableAt == 0 && after.sweepCap == 0
  }

  /** The balances after `amount` left the clone, `fees` of it for the collector; of other tokens nothing moved. */
  ghost predicate Moved(cfg: ConfigState, site: Site, l: Ledger, m: Ledger, amount: nat, fees: nat) {
    && (forall x :: m.BalanceOf(cfg.usdc, x) == l.BalanceOf(cfg.usdc, x) - (if x == site.self then amount else 0)
                                                + (if x == cfg.feeCollector then fees else 0))
    && (forall t, x :: t != cfg.usdc ==> m.BalanceOf(t, x) == l.BalanceOf(t, x))
  }

  /** Everything a flush does: the event, the message to Circle, the storage and the balances. */
  lemma FlushDoes(cfg: ConfigState, env: Env, site: Site, st: CloneState, caller: Address)
    requires Flush(cfg, env, site, st, caller).Some?
    ensures Committed(site)
    ensures var e := Flush(cfg, env, site, st, caller).value;
            var balance := env.ledger.BalanceOf(cfg.usdc, site.self);
            var amount := if balance < env.circle.burnLimit then balance else env.circle.burnLimit;
            var setup, recurring := SetupCharge(cfg, st), RecurringCharge(cfg, amount);
            var burned := amount - setup - recurring;
            var fast := site.args[|site.args| - 1] != 0 && cfg.fastEnabled;
            && burned > 0
            && e.record == Record(caller, amount, setup, recurring, burned, false, fast)
            && e.message == BurnMessage(burned, 27, cfg.stellarForwarder, cfg.usdc, cfg.stellarForwarder, e.message.maxFee,
                                        if fast then 1000 else 2000, HookData(site.args[..|site.args| - 1]))
            && Allowance(burned, if fast then cfg.cctpFastMaxFeePpm else cfg.cctpStandardMaxFeePpm, MAX_CCTP_FEE_PPM,
                         Probe(env.circle, burned)) == Some(e.message.maxFee)
            && e.state.setupFeePaid && WindowAfter(st, amount, balance, e.state)
            && Moved(cfg, site, env.ledger, e.ledger, amount, setup + recurring)
  {
    var amount := FlushAmount(cfg, env, site);
    hide Settle;
    SettlementMoves(cfg, env, site, st, caller, amount, true);
    hide Moved;
    SettlementDoes(cfg, env, site, st, caller, amount, true);
    DrawDownKeeps(st, amount, Balance(cfg, env, site));
    hide DrawDown;
    hide WindowAfter;
    hide Allowance;
    hide Probe;
    hide HookData;
    hide SetupCharge;
    hide RecurringCharge;
  }

  /** Everything a sweep does: the same without fees, always standard, and no more than the armed budget. */
  lemma SweepDoes(cfg: ConfigState, env: Env, site: Site, st: CloneState, caller: Address)
    requires Sweep(cfg, env, site, st, caller).Some?
    ensures Committed(site) && 0 < st.sweepableAt <= env.now
    ensures var e := Sweep(cfg, env, site, st, caller).value;
            var balance, limit := env.ledger.BalanceOf(cfg.usdc, site.self), env.circle.burnLimit;
            var armed := if balance < st.sweepCap then balance else st.sweepCap;
            var amount := if armed < limit then armed else limit;
            && amount > 0
            && e.record == Record(caller, amount, 0, 0, amount, true, false)
            && e.message == BurnMessage(amount, 27, cfg.stellarForwarder, cfg.usdc, cfg.stellarForwarder, e.message.maxFee,
                                        2000, HookData(site.args[..|site.args| - 1]))
            && Allowance(amount, cfg.cctpStandardMaxFeePpm, MAX_CCTP_FEE_PPM, Probe(env.circle, amount)) == Some(e.message.maxFee)
            && e.state.setupFeePaid == st.setupFeePaid && WindowAfter(st, amount, balance, e.state)
            && Moved(cfg, site, env.ledger, e.ledger, amount, 0)
  {
    var amount := SweepAmount(cfg, env, site, st);
    hide Settle;
    SettlementMoves(cfg, env, site, st, caller, amount, false);
    hide Moved;
    SettlementDoes(cfg, env, site, st, caller, amount, false);
    DrawDownKeeps(st, amount, Balance(cfg, env, site));
    hide DrawDown;
    hide WindowAfter;
    hide Allowance;
    hide Probe;
    hide HookData;
    hide SetupCharge;
    hide RecurringCharge;
  }

  /** What either settlement does that `SettleEffect` leaves open: the exact fees, the speed, the message and the rate its
      allowance is taken at, and that other tokens stay where they are. */
  lemma SettlementDoes(cfg: ConfigState, env: Env, site: Site, st: CloneState, caller: Address, amount: nat, chargeFees: bool)
    requires |site.args| > 0
    requires Settle(cfg, env, site, st, caller, amount, chargeFees).Some?
    ensures var e := Settle(cfg, env, site, st, caller, amount, chargeFees).value;
            var fast := chargeFees && site.args[|site.args| - 1] != 0 && cfg.fastEnabled;
            && e.record.caller == caller && e.record.fast == fast && e.record.viaSweep == !chargeFees
            && e.record.settled == amount == e.record.setupFee + e.record.perSettleFee + e.record.burned
            && 0 < amount <= Balance(cfg, env, site) && e.record.burned > 0
            && e.state == st.(setupFeePaid := st.setupFeePaid || chargeFees)
            && e.record.setupFee == (if chargeFees then SetupCharge(cfg, st) else 0)
            && e.record.perSettleFee == (if chargeFees then RecurringCharge(cfg, amount) else 0)
            && e.message == BurnMessage(e.record.burned, 27, cfg.stellarForwarder, cfg.usdc, cfg.stellarForwarder,
                                        e.message.maxFee, if fast then 1000 else 2000, HookData(site.args[..|site.args| - 1]))
            && Allowance(e.record.burned, if fast then cfg.cctpFastMaxFeePpm else cfg.cctpStandardMaxFeePpm, MAX_CCTP_FEE_PPM,
                         Probe(env.circle, e.record.burned)) == Some(e.message.maxFee)
  {
    hide Allowance;
    hide Probe;
    hide HookData;
    hide AcceptsBurn;
  }

  lemma SettlementMoves(cfg: ConfigState, env: Env, site: Site, st: CloneState, caller: Address, amount: nat, chargeFees: bool)
    requires |site.args| > 0
    requires Settle(cfg, env, site, st, caller, amount, chargeFees).Some?
    ensures var e := Settle(cfg, env, site, st, caller, amount, chargeFees).value;
            && Moved(cfg, site, env.ledger, e.ledger, amount, e.record.setupFee + e.record.perSettleFee)
            && e.ledger.BalanceOf(cfg.usdc, site.self) == Balance(cfg, env, site) - amount
  {
    SettleEffect(cfg, env, site, st, caller, amount, chargeFees);
    OtherTokensStay(cfg, env, site, st, caller, amount, chargeFees);
    hide Settle;
    hide UsesFast;
  }

  lemma OtherTokensStay(cfg: ConfigState, env: Env, site: Site, st: CloneState, caller: Address, amount: nat, chargeFees: bool)
    requires |site.args| > 0
    requires Settle(cfg, env, site, st, caller, amount, chargeFees).Some?
    ensures var e := Settle(cfg, env, site, st, caller, amount, chargeFees).value;
            forall t, x :: t != cfg.usdc ==> e.ledger.BalanceOf(t, x) == env.ledger.BalanceOf(t, x)
  {
    hide Allowance;
    hide Probe;
    hide HookData;
    hide AcceptsBurn;
    hide FeesFor;
  }

  lemma DrawDownKeeps(st: CloneState, settled: nat, balance: nat)
    requires 0 < settled <= balance
    ensures WindowAfter(st, settled, balance, DrawDown(st, settled, balance - settled))
    ensures WindowAfter(st, settled, balance, DrawDown(st.(setupFeePaid := true), settled, balance - settled))
    ensures DrawDown(st, settled, balance - settled).setupFeePaid == st.setupFeePaid
    ensures DrawDown(st.(setupFeePaid := true), settled, balance - settled).setupFeePaid
  {
  }

  /** Everything arming does: refused off a clone, before wiring, below two, or past `uint256`; no change to an open window;
      else the deadline is the configured delay from now, and the budget the balance. */
  lemma RequestSweepDoes(cfg: ConfigState, env: Env, site: Site, st: CloneState)
    requires Capped(cfg)
    ensures var balance := env.ledger.BalanceOf(cfg.usdc, site.self);
            RequestSweep(cfg, env, site, st) ==
            if !Committed(site) || !cfg.initialized || balance < 2 then None
            else if st.sweepableAt != 0 then Some(st)
            else if env.now + cfg.sweepDelay
                    >= 0x1_0000_0000_0000_0000_0000_0000_0000_0000_0000_0000_0000_0000_0000_0000_0000_0000 then None
            else Some(CloneState(env.now + cfg.sweepDelay, balance, st.setupFeePaid))
  {
  }

  /** A native rescue is the operator's, to a set sink, of all native coin; and goes through unless native coin is USDC and
      a whole unit of it would leave the clone. */
  lemma RescueNativeDoes(cfg: ConfigState, env: Env, site: Site, caller: Address)
    ensures RescueNative(cfg, env, site, caller).Some? <==>
            && caller in cfg.operators && cfg.rescueSink > 0 && cfg.initialized
            && (env.ledger.nativeToken != Some(cfg.usdc) || cfg.rescueSink == site.self
                || env.ledger.Native(site.self) < 1_000_000_000_000)
    ensures RescueNative(cfg, env, site, caller).Some? ==>
              var m := RescueNative(cfg, env, site, caller).value;
              && m.erc20 == env.ledger.erc20 && m.nativeToken == env.ledger.nativeToken
              && forall x :: m.Native(x) ==
                             if cfg.rescueSink == site.self then env.ledger.Native(x)
                             else if x == site.self then 0
                             else if x == cfg.rescueSink then env.ledger.Native(x) + env.ledger.Native(site.self)
                             else env.ledger.Native(x)
  {
  }

  /** A token rescue is the operator's, to a set sink, of the whole balance, of any token but a clone's USDC. */
  lemma RescueErc20Does(cfg: ConfigState, env: Env, site: Site, caller: Address, token: Address)
    ensures RescueErc20(cfg, env, site, caller, token).Some? <==>
            && caller in cfg.operators && cfg.rescueSink > 0 && cfg.initialized
            && (token != cfg.usdc || site.self == site.implementation)
    ensures RescueErc20(cfg, env, site, caller, token).Some? ==>
              var m := RescueErc20(cfg, env, site, caller, token).value;
              && (forall x :: m.BalanceOf(token, x) ==
                              if cfg.rescueSink == site.self then env.ledger.BalanceOf(token, x)
                              else if x == site.self then 0
                              else if x == cfg.rescueSink then env.ledger.BalanceOf(token, x) + env.ledger.BalanceOf(token, site.self)
                              else env.ledger.BalanceOf(token, x))
              && (forall t, x :: t != token ==> m.BalanceOf(t, x) == env.ledger.BalanceOf(t, x))
  {
  }
}
