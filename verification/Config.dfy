/** `src/Config.sol`: the shared settings every forwarder reads. `Apply` is the specification of every owner
    call; the class follows the contract and is proved against it. */
module Settings {
  import opened Tokens

  const MAX_SETUP_FEE: nat := 100_000_000
  const MAX_BASE_FEE: nat := 100_000_000
  const MAX_FEE_PPM: nat := 10_000
  const MIN_SWEEP_DELAY: nat := 3600
  const MAX_SWEEP_DELAY: nat := 604_800
  const MAX_CCTP_FEE_PPM: nat := 10_000

  datatype ConfigState = ConfigState(
    usdc: Address, tokenMessenger: Address, stellarForwarder: nat, initialized: bool,
    owner: Address, pendingOwner: Address,
    setupFee: nat, baseFee: nat, feePpm: nat, cctpStandardMaxFeePpm: nat, cctpFastMaxFeePpm: nat,
    fastEnabled: bool, publicFlush: bool, feeCollector: Address, sweepDelay: nat,
    operators: set<Address>, factory: Address, rescueSink: Address)

  /** What `init` reads from the candidate contracts. */
  datatype WiringFacts = WiringFacts(usdcHasCode: bool, messengerHasCode: bool, bodyVersion: nat, minter: Address,
                                     burnLimit: nat, stellarRoute: nat)

  /** What `setFactory` reads from a candidate factory. */
  datatype FactoryFacts = FactoryFacts(hasCode: bool, implementationHasCode: bool, wiredTo: Address)

  datatype ConfigCall =
    | Init(usdc: Address, tokenMessenger: Address, stellarForwarder: nat, facts: WiringFacts)
    | SetSetupFee(value: nat)
    | SetBaseFee(value: nat)
    | SetFeePpm(value: nat)
    | SetCctpStandardMaxFeePpm(value: nat)
    | SetCctpFastMaxFeePpm(value: nat)
    | SetFastEnabled(on: bool)
    | SetPublicFlush(on: bool)
    | SetFeeCollector(to: Address)
    | SetSweepDelay(value: nat)
    | SetOperator(who: Address, allowed: bool)
    | SetFactory(to: Address, wiring: FactoryFacts)
    | SetRescueSink(to: Address)
    | TransferOwnership(to: Address)
    | AcceptOwnership

  /** The state the constructor leaves: no fees, nothing wired, and a sweep delay already at its floor. */
  function Fresh(owner: Address): ConfigState {
    ConfigState(0, 0, 0, false, owner, 0, 0, 0, 0, 0, 0, false, false, 0, MIN_SWEEP_DELAY, {}, 0, 0)
  }

  predicate WiringSound(call: ConfigCall)
    requires call.Init?
  {
    && call.usdc != 0 && call.tokenMessenger != 0 && call.stellarForwarder != 0
    && call.facts.usdcHasCode && call.facts.messengerHasCode
    && call.facts.bodyVersion == 1
    && call.facts.minter != 0 && call.facts.burnLimit != 0
    && call.facts.stellarRoute != 0
  }

  /** When a call by `caller` goes through on the Config at address `self`. */
  predicate Permitted(s: ConfigState, self: Address, caller: Address, call: ConfigCall) {
    if call.AcceptOwnership? then caller == s.pendingOwner
    else
      && caller == s.owner
      && match call
         case Init(_, _, _, _) => !s.initialized && WiringSound(call)
         case SetSetupFee(v) => v <= MAX_SETUP_FEE
         case SetBaseFee(v) => v <= MAX_BASE_FEE
         case SetFeePpm(v) => v <= MAX_FEE_PPM
         case SetCctpStandardMaxFeePpm(v) => v <= MAX_CCTP_FEE_PPM
         case SetCctpFastMaxFeePpm(v) => v <= MAX_CCTP_FEE_PPM
         case SetFeeCollector(to) => to != 0
         case SetSweepDelay(v) => MIN_SWEEP_DELAY <= v <= MAX_SWEEP_DELAY
         case SetFactory(to, w) => to == 0 || (w.hasCode && w.implementationHasCode && w.wiredTo == self)
         case SetRescueSink(to) => to != 0
         case _ => true
  }

  function Updated(s: ConfigState, call: ConfigCall): ConfigState {
    match call
    case Init(usdc, messenger, forwarder, _) =>
      s.(usdc := usdc, tokenMessenger := messenger, stellarForwarder := forwarder, initialized := true)
    case SetSetupFee(v) => s.(setupFee := v)
    case SetBaseFee(v) => s.(baseFee := v)
    case SetFeePpm(v) => s.(feePpm := v)
    case SetCctpStandardMaxFeePpm(v) => s.(cctpStandardMaxFeePpm := v)
    case SetCctpFastMaxFeePpm(v) => s.(cctpFastMaxFeePpm := v)
    case SetFastEnabled(on) => s.(fastEnabled := on)
    case SetPublicFlush(on) => s.(publicFlush := on)
    case SetFeeCollector(to) => s.(feeCollector := to)
    case SetSweepDelay(v) => s.(sweepDelay := v)
    case SetOperator(who, allowed) => s.(operators := if allowed then s.operators + {who} else s.operators - {who})
    case SetFactory(to, _) => s.(factory := to)
    case SetRescueSink(to) => s.(rescueSink := to)
    case TransferOwnership(to) => s.(pendingOwner := to)
    case AcceptOwnership => s.(owner := s.pendingOwner, pendingOwner := 0)
  }

  /** A refused call changes nothing. */
  function Apply(s: ConfigState, self: Address, caller: Address, call: ConfigCall): ConfigState {
    if Permitted(s, self, caller, call) then Updated(s, call) else s
  }

  /** The settings after any history of calls by any callers. */
  function AfterCalls(s: ConfigState, self: Address, calls: seq<(Address, ConfigCall)>): ConfigState {
    if calls == [] then s
    else
      var k := |calls| - 1;
      Apply(AfterCalls(s, self, calls[..k]), self, calls[k].0, calls[k].1)
  }

  predicate Capped(s: ConfigState) {
    && s.setupFee <= MAX_SETUP_FEE
    && s.baseFee <= MAX_BASE_FEE
    && s.feePpm <= MAX_FEE_PPM
    && s.cctpStandardMaxFeePpm <= MAX_CCTP_FEE_PPM
    && s.cctpFastMaxFeePpm <= MAX_CCTP_FEE_PPM
    && MIN_SWEEP_DELAY <= s.sweepDelay <= MAX_SWEEP_DELAY
    && (s.initialized <==> s.usdc != 0)
    && (s.initialized ==> s.tokenMessenger != 0 && s.stellarForwarder != 0)
  }

  predicate SameWiring(s: ConfigState, t: ConfigState) {
    && s.initialized == t.initialized
    && s.usdc == t.usdc && s.tokenMessenger == t.tokenMessenger && s.stellarForwarder == t.stellarForwarder
  }

  predicate ByOwner(s: ConfigState, caller: Address) {
    caller == s.owner
  }

  /** An `init` that passes: by the owner, the first, of non-zero parts with code, of CCTP V2, burnable, routed to Stellar. */
  predicate Wires(s: ConfigState, caller: Address, call: ConfigCall) {
    && call.Init? && ByOwner(s, caller) && !s.initialized
    && call.usdc > 0 && call.tokenMessenger > 0 && call.stellarForwarder > 0
    && call.facts.usdcHasCode && call.facts.messengerHasCode && call.facts.bodyVersion == 1
    && call.facts.minter > 0 && call.facts.burnLimit > 0 && call.facts.stellarRoute > 0
  }

  /** Setting by setting, what each is after one call: so which calls move it, by whom and to what. First the rates. */
  lemma RatesAfterACall(s: ConfigState, self: Address, caller: Address, call: ConfigCall)
    ensures var t, mine := Apply(s, self, caller, call), ByOwner(s, caller);
            && t.setupFee == (if mine && call.SetSetupFee? && call.value <= 100_000_000 then call.value else s.setupFee)
            && t.baseFee == (if mine && call.SetBaseFee? && call.value <= 100_000_000 then call.value else s.baseFee)
            && t.feePpm == (if mine && call.SetFeePpm? && call.value <= 10_000 then call.value else s.feePpm)
            && t.cctpStandardMaxFeePpm ==
               (if mine && call.SetCctpStandardMaxFeePpm? && call.value <= 10_000 then call.value else s.cctpStandardMaxFeePpm)
            && t.cctpFastMaxFeePpm ==
               (if mine && call.SetCctpFastMaxFeePpm? && call.value <= 10_000 then call.value else s.cctpFastMaxFeePpm)
            && t.sweepDelay == (if mine && call.SetSweepDelay? && 3600 <= call.value <= 604_800 then call.value else s.sweepDelay)
  {
  }

  /** Then the switches and the named addresses. */
  lemma SwitchesAfterACall(s: ConfigState, self: Address, caller: Address, call: ConfigCall)
    ensures var t, mine := Apply(s, self, caller, call), ByOwner(s, caller);
            && t.fastEnabled == (if mine && call.SetFastEnabled? then call.on else s.fastEnabled)
            && t.publicFlush == (if mine && call.SetPublicFlush? then call.on else s.publicFlush)
            && t.feeCollector == (if mine && call.SetFeeCollector? && call.to > 0 then call.to else s.feeCollector)
            && t.rescueSink == (if mine && call.SetRescueSink? && call.to > 0 then call.to else s.rescueSink)
            && t.factory ==
               (if mine && call.SetFactory?
                   && (call.to == 0 || (call.wiring.hasCode && call.wiring.implementationHasCode && call.wiring.wiredTo == self))
                then call.to else s.factory)
            && (forall who :: who in t.operators <==>
                  if mine && call.SetOperator? && call.who == who then call.allowed else who in s.operators)
  {
  }

  /** Then the owner and the wiring. */
  lemma OwnerAndWiringAfterACall(s: ConfigState, self: Address, caller: Address, call: ConfigCall)
    ensures var t, mine := Apply(s, self, caller, call), ByOwner(s, caller);
            && t.owner == (if call.AcceptOwnership? && caller == s.pendingOwner then s.pendingOwner else s.owner)
            && t.pendingOwner ==
               (if call.AcceptOwnership? && caller == s.pendingOwner then 0
                else if mine && call.TransferOwnership? then call.to else s.pendingOwner)
            && t.initialized == (s.initialized || Wires(s, caller, call))
            && t.usdc == (if Wires(s, caller, call) then call.usdc else s.usdc)
            && t.tokenMessenger == (if Wires(s, caller, call) then call.tokenMessenger else s.tokenMessenger)
            && t.stellarForwarder == (if Wires(s, caller, call) then call.stellarForwarder else s.stellarForwarder)
  {
  }

  /** Which calls are let through: the pending owner's acceptance, and the owner's calls within their bounds. */
  lemma AdmittedIff(s: ConfigState, self: Address, caller: Address, call: ConfigCall)
    ensures Permitted(s, self, caller, call) <==>
            || (call.AcceptOwnership? && caller == s.pendingOwner)
            || Wires(s, caller, call)
            || (&& ByOwner(s, caller) && !call.AcceptOwnership? && !call.Init?
                && (call.SetSetupFee? || call.SetBaseFee? ==> call.value <= 100_000_000)
                && (call.SetFeePpm? || call.SetCctpStandardMaxFeePpm? || call.SetCctpFastMaxFeePpm? ==> call.value <= 10_000)
                && (call.SetSweepDelay? ==> 3600 <= call.value <= 604_800)
                && (call.SetFeeCollector? || call.SetRescueSink? ==> call.to > 0)
                && (call.SetFactory? && call.to > 0 ==>
                      call.wiring.hasCode && call.wiring.implementationHasCode && call.wiring.wiredTo == self))
  {
  }

  /** Before any call: no fees, no allowances, switches off, nothing wired or named, and the delay at one hour. */
  lemma FreshSettings(owner: Address)
    ensures var s := Fresh(owner);
            && s.owner == owner && s.pendingOwner == 0 && !s.initialized
            && s.usdc == s.tokenMessenger == s.stellarForwarder == s.feeCollector == s.factory == s.rescueSink == 0
            && s.setupFee == s.baseFee == s.feePpm == s.cctpStandardMaxFeePpm == s.cctpFastMaxFeePpm == 0
            && !s.fastEnabled && !s.publicFlush && s.operators == {} && s.sweepDelay == 3600
  {
  }

  /** One call keeps the caps, leaves a wired path alone, and wires only what `init` was given. */
  lemma ApplyKeeps(s: ConfigState, self: Address, caller: Address, call: ConfigCall)
    requires Capped(s)
    ensures Capped(Apply(s, self, caller, call))
    ensures s.initialized ==> SameWiring(s, Apply(s, self, caller, call))
    ensures !SameWiring(s, Apply(s, self, caller, call)) ==> call.Init? && Apply(s, self, caller, call).usdc == call.usdc
  {
  }

  /** The caps, the delay floor and the wiring latch hold in every reachable state. */
  lemma {:induction false} CapsHoldAlways(owner: Address, self: Address, calls: seq<(Address, ConfigCall)>)
    ensures Capped(AfterCalls(Fresh(owner), self, calls))
  {
    if calls != [] {
      var k := |calls| - 1;
      CapsHoldAlways(owner, self, calls[..k]);
      ApplyKeeps(AfterCalls(Fresh(owner), self, calls[..k]), self, calls[k].0, calls[k].1);
    }
  }

  /** Once wired, no history of calls changes the USDC path. */
  lemma {:induction false} WiringIsForever(s: ConfigState, self: Address, calls: seq<(Address, ConfigCall)>)
    requires s.initialized
    ensures SameWiring(s, AfterCalls(s, self, calls))
  {
    if calls != [] {
      WiringIsForever(s, self, calls[..|calls| - 1]);
    }
  }

  /** The contract itself, one field per storage slot. */
  class Config {
    const self: Address
    var usdc: Address
    var tokenMessenger: Address
    var stellarForwarder: nat
    var initialized: bool
    var owner: Address
    var pendingOwner: Address
    var setupFee: nat
    var baseFee: nat
    var feePpm: nat
    var cctpStandardMaxFeePpm: nat
    var cctpFastMaxFeePpm: nat
    var fastEnabled: bool
    var publicFlush: bool
    var feeCollector: Address
    var sweepDelay: nat
    var operators: set<Address>
    var factory: Address
    var rescueSink: Address

    function View(): ConfigState
      reads this
    {
      ConfigState(usdc, tokenMessenger, stellarForwarder, initialized, owner, pendingOwner, setupFee, baseFee, feePpm,
                  cctpStandardMaxFeePpm, cctpFastMaxFeePpm, fastEnabled, publicFlush, feeCollector, sweepDelay,
                  operators, factory, rescueSink)
    }

    /** `new Config(owner_)`; a zero owner reverts the deployment, so no such instance exists. */
    constructor (self: Address, owner_: Address)
      requires owner_ != 0
      ensures this.self == self
      ensures View() == Fresh(owner_)
    {
      this.self := self;
      usdc, tokenMessenger, stellarForwarder, initialized := 0, 0, 0, false;
      owner, pendingOwner := owner_, 0;
      setupFee, baseFee, feePpm := 0, 0, 0;
      cctpStandardMaxFeePpm, cctpFastMaxFeePpm := 0, 0;
      fastEnabled, publicFlush, feeCollector := false, false, 0;
      sweepDelay := MIN_SWEEP_DELAY;
      operators, factory, rescueSink := {}, 0, 0;
    }

    method Init(caller: Address, usdc_: Address, tokenMessenger_: Address, stellarForwarder_: nat, facts: WiringFacts)
      returns (ok: bool)
      modifies this
      ensures var call := ConfigCall.Init(usdc_, tokenMessenger_, stellarForwarder_, facts);
              ok == old(Permitted(View(), self, caller, call)) && View() == old(Apply(View(), self, caller, call))
    {
      if caller != owner { return false; }
      if initialized { return false; }
      if usdc_ == 0 || tokenMessenger_ == 0 || stellarForwarder_ == 0 { return false; }
      if !facts.usdcHasCode || !facts.messengerHasCode { return false; }
      if facts.bodyVersion != 1 { return false; }
      if facts.minter == 0 || facts.burnLimit == 0 { return false; }
      if facts.stellarRoute == 0 { return false; }
      usdc := usdc_;
      tokenMessenger := tokenMessenger_;
      stellarForwarder := stellarForwarder_;
      initialized := true;
      return true;
    }

    method SetSetupFee(caller: Address, value: nat) returns (ok: bool)
      modifies this
      ensures var call := ConfigCall.SetSetupFee(value);
              ok == old(Permitted(View(), self, caller, call)) && View() == old(Apply(View(), self, caller, call))
    {
      if caller != owner || value > MAX_SETUP_FEE { return false; }
      setupFee := value;
      return true;
    }

    method SetBaseFee(caller: Address, value: nat) returns (ok: bool)
      modifies this
      ensures var call := ConfigCall.SetBaseFee(value);
              ok == old(Permitted(View(), self, caller, call)) && View() == old(Apply(View(), self, caller, call))
    {
      if caller != owner || value > MAX_BASE_FEE { return false; }
      baseFee := value;
      return true;
    }

    method SetFeePpm(caller: Address, value: nat) returns (ok: bool)
      modifies this
      ensures var call := ConfigCall.SetFeePpm(value);
              ok == old(Permitted(View(), self, caller, call)) && View() == old(Apply(View(), self, caller, call))
    {
      if caller != owner || value > MAX_FEE_PPM { return false; }
      feePpm := value;
      return true;
    }

    method SetCctpStandardMaxFeePpm(caller: Address, value: nat) returns (ok: bool)
      modifies this
      ensures var call := ConfigCall.SetCctpStandardMaxFeePpm(value);
              ok == old(Permitted(View(), self, caller, call)) && View() == old(Apply(View(), self, caller, call))
    {
      if caller != owner || value > MAX_CCTP_FEE_PPM { return false; }
      cctpStandardMaxFeePpm := value;
      return true;
    }

    method SetCctpFastMaxFeePpm(caller: Address, value: nat) returns (ok: bool)
      modifies this
      ensures var call := ConfigCall.SetCctpFastMaxFeePpm(value);
              ok == old(Permitted(View(), self, caller, call)) && View() == old(Apply(View(), self, caller, call))
    {
      if caller != owner || value > MAX_CCTP_FEE_PPM { return false; }
      cctpFastMaxFeePpm := value;
      return true;
    }

    method SetFastEnabled(caller: Address, on: bool) returns (ok: bool)
      modifies this
      ensures var call := ConfigCall.SetFastEnabled(on);
              ok == old(Permitted(View(), self, caller, call)) && View() == old(Apply(View(), self, caller, call))
    {
      if caller != owner { return false; }
      fastEnabled := on;
      return true;
    }

    method SetPublicFlush(caller: Address, on: bool) returns (ok: bool)
      modifies this
      ensures var call := ConfigCall.SetPublicFlush(on);
              ok == old(Permitted(View(), self, caller, call)) && View() == old(Apply(View(), self, caller, call))
    {
      if caller != owner { return false; }
      publicFlush := on;
      return true;
    }

    method SetFeeCollector(caller: Address, to: Address) returns (ok: bool)
      modifies this
      ensures var call := ConfigCall.SetFeeCollector(to);
              ok == old(Permitted(View(), self, caller, call)) && View() == old(Apply(View(), self, caller, call))
    {
      if caller != owner || to == 0 { return false; }
      feeCollector := to;
      return true;
    }

    method SetSweepDelay(caller: Address, value: nat) returns (ok: bool)
      modifies this
      ensures var call := ConfigCall.SetSweepDelay(value);
              ok == old(Permitted(View(), self, caller, call)) && View() == old(Apply(View(), self, caller, call))
    {
      if caller != owner { return false; }
      if value < MIN_SWEEP_DELAY { return false; }
      if value > MAX_SWEEP_DELAY { return false; }
      sweepDelay := value;
      return true;
    }

    method SetOperator(caller: Address, who: Address, allowed: bool) returns (ok: bool)
      modifies this
      ensures var call := ConfigCall.SetOperator(who, allowed);
              ok == old(Permitted(View(), self, caller, call)) && View() == old(Apply(View(), self, caller, call))
    {
      if caller != owner { return false; }
      if allowed {
        operators := operators + {who};
      } else {
        operators := operators - {who};
      }
      return true;
    }

    method SetFactory(caller: Address, to: Address, wiring: FactoryFacts) returns (ok: bool)
      modifies this
      ensures var call := ConfigCall.SetFactory(to, wiring);
              ok == old(Permitted(View(), self, caller, call)) && View() == old(Apply(View(), self, caller, call))
    {
      if caller != owner { return false; }
      if to != 0 {
        if !wiring.hasCode { return false; }
        if !wiring.implementationHasCode || wiring.wiredTo != self { return false; }
      }
      factory := to;
      return true;
    }

    method SetRescueSink(caller: Address, to: Address) returns (ok: bool)
      modifies this
      ensures var call := ConfigCall.SetRescueSink(to);
              ok == old(Permitted(View(), self, caller, call)) && View() == old(Apply(View(), self, caller, call))
    {
      if caller != owner || to == 0 { return false; }
      rescueSink := to;
      return true;
    }

    method TransferOwnership(caller: Address, to: Address) returns (ok: bool)
      modifies this
      ensures var call := ConfigCall.TransferOwnership(to);
              ok == old(Permitted(View(), self, caller, call)) && View() == old(Apply(View(), self, caller, call))
    {
      if caller != owner { return false; }
      pendingOwner := to;
      return true;
    }

    method AcceptOwnership(caller: Address) returns (ok: bool)
      modifies this
      ensures var call := ConfigCall.AcceptOwnership;
              ok == old(Permitted(View(), self, caller, call)) && View() == old(Apply(View(), self, caller, call))
    {
      if caller != pendingOwner { return false; }
      owner := pendingOwner;
      pendingOwner := 0;
      return true;
    }
  }
}
