/** `src/DepositForwarder.sol` in its own form: a clone whose entry points move balances and update three storage
    fields statement by statement. Each entry point is proved to do what `Settlement` says, and a revert at any
    depth to leave the clone and the chain exactly as they were. */
module Forwarders {
  import opened Basics
  import opened Tokens
  import opened Settings
  import opened Cctp
  import opened Layout
  import opened Settlement

  /** The rest of the chain a forwarder touches: balances, Circle's contracts, the clock, and the logs. */
  class Chain {
    var ledger: Ledger
    var circle: Circle
    var now: nat
    var burns: seq<BurnMessage>
    var records: seq<(Address, Record)>

    function Env(): Env
      reads this
    {
      Settlement.Env(ledger, circle, now)
    }

    constructor (ledger: Ledger, circle: Circle, now: nat)
      ensures Env() == Settlement.Env(ledger, circle, now) && burns == [] && records == []
    {
      this.ledger, this.circle, this.now := ledger, circle, now;
      burns, records := [], [];
    }

    /** ERC-20 `transfer`. */
    method Transfer(token: Address, from: Address, to: Address, v: nat) returns (ok: bool)
      modifies this`ledger
      ensures ok == old(v <= ledger.BalanceOf(token, from))
      ensures ledger == if ok then old(ledger.Transfer(token, from, to, v)) else old(ledger)
    {
      ok := v <= ledger.BalanceOf(token, from);
      if ok { ledger := ledger.Transfer(token, from, to, v); }
    }

    /** `depositForBurnWithHook` on the caller's behalf: pulls what was approved and burns it. */
    method DepositForBurn(from: Address, approved: nat, message: BurnMessage) returns (ok: bool)
      modifies this`ledger, this`burns
      ensures ok == old(message.amount <= approved && message.amount <= ledger.BalanceOf(message.burnToken, from)
                        && AcceptsBurn(circle, message.amount, message.maxFee))
      ensures ledger == if ok then old(ledger.Debit(message.burnToken, from, message.amount)) else old(ledger)
      ensures burns == if ok then old(burns) + [message] else old(burns)
    {
      if message.amount > approved || message.amount > ledger.BalanceOf(message.burnToken, from) { return false; }
      var before := ledger;
      ledger := ledger.Debit(message.burnToken, from, message.amount);
      if !AcceptsBurn(circle, message.amount, message.maxFee) {
        ledger := before;
        return false;
      }
      burns := burns + [message];
      return true;
    }
  }

  /** A clone of the implementation, with its immutable arguments. */
  class Forwarder {
    const self: Address
    const implementation: Address
    const args: bytes
    const config: Config
    const chain: Chain
    var sweepableAt: nat
    var sweepCap: nat
    var setupFeePaid: bool

    function Site(): Site {
      Settlement.Site(self, implementation, args)
    }

    function View(): CloneState
      reads this
    {
      CloneState(sweepableAt, sweepCap, setupFeePaid)
    }

    constructor (self: Address, implementation: Address, args: bytes, config: Config, chain: Chain)
      requires self != implementation ==> |args| > 0
      ensures Site() == Settlement.Site(self, implementation, args)
      ensures this.config == config && this.chain == chain
      ensures View() == CloneState(0, 0, false)
    {
      this.self, this.implementation, this.args := self, implementation, args;
      this.config, this.chain := config, chain;
      sweepableAt, sweepCap, setupFeePaid := 0, 0, false;
    }

    /** Undo of everything since entry: what the EVM does on `revert`. */
    method Revert(state: CloneState, ledger: Ledger, burns: seq<BurnMessage>, records: seq<(Address, Record)>)
      modifies this, chain`ledger, chain`burns, chain`records
      ensures View() == state && chain.ledger == ledger && chain.burns == burns && chain.records == records
    {
      sweepableAt, sweepCap, setupFeePaid := state.sweepableAt, state.sweepCap, state.setupFeePaid;
      chain.ledger, chain.burns, chain.records := ledger, burns, records;
    }

    /** `_cctpMinFee`: any failed or malformed answer counts as no minimum. */
    method CctpMinFee(toBurn: nat) returns (fee: nat)
      ensures fee == (match Probe(chain.circle, toBurn) case Word(v) => v case NoReply => 0)
    {
      var reply := Probe(chain.circle, toBurn);
      if reply.NoReply? { return 0; }
      return reply.value;
    }

    /** `_cctpParams`, with `fee` reassigned step by step as there; `ok` is false where `uint256` overflows. */
    method CctpParams(toBurn: nat, useFast: bool) returns (ok: bool, finality: nat, maxFee: nat)
      requires toBurn > 0
      ensures var a := Allowance(toBurn, RateFor(config.View(), useFast), MAX_CCTP_FEE_PPM, Probe(chain.circle, toBurn));
              ok == a.Some? && (ok ==> maxFee == a.value)
      ensures finality == if useFast then FINALITY_FAST else FINALITY_STANDARD
    {
      maxFee := 0;
      finality := if useFast then FINALITY_FAST else FINALITY_STANDARD;
      var cap := MAX_CCTP_FEE_PPM;
      var rate := Min(if useFast then config.cctpFastMaxFeePpm else config.cctpStandardMaxFeePpm, cap);
      if toBurn * rate + PPM_DENOM > U256_MAX { return false, finality, 0; }
      var fee := (toBurn * rate + PPM_DENOM - 1) / PPM_DENOM;
      var chainMin := CctpMinFee(toBurn);
      if chainMin > fee { fee := chainMin; }
      if toBurn * cap + PPM_DENOM > U256_MAX { return false, finality, 0; }
      fee := Min(fee, (toBurn * cap + PPM_DENOM - 1) / PPM_DENOM);
      maxFee := if fee >= toBurn then toBurn - 1 else fee;
      ok := true;
    }

    /** `_burnViaCctp`. */
    method BurnViaCctp(toBurn: nat, useFast: bool) returns (ok: bool)
      requires |args| > 0
      requires 0 < toBurn <= chain.ledger.BalanceOf(config.usdc, self)
      modifies chain`ledger, chain`burns
      ensures var r := old(Settlement.BurnViaCctp(config.View(), chain.circle, Site(), chain.ledger, toBurn, useFast));
              && ok == r.Some?
              && (ok ==> chain.ledger == r.value.0 && chain.burns == old(chain.burns) + [r.value.1])
    {
      var priced, finality, maxFee := CctpParams(toBurn, useFast);
      if !priced { return false; }
      var forwarder := config.stellarForwarder;
      var approved := toBurn;
      ok := chain.DepositForBurn(self, approved,
                                 BurnMessage(toBurn, STELLAR_DOMAIN, forwarder, config.usdc, forwarder, maxFee, finality,
                                             HookData(RecipientOf(args))));
    }

    /** `_collectFees`: marks the setup fee paid and pays both fees in one transfer. */
    method CollectFees(settled: nat) returns (ok: bool, setupFee: nat, perSettleFee: nat)
      requires settled <= chain.ledger.BalanceOf(config.usdc, self)
      modifies this`setupFeePaid, chain`ledger
      ensures var r := old(Settlement.CollectFees(config.View(), Site(), chain.ledger, setupFeePaid, settled));
              && ok == r.Some?
              && (ok ==> setupFeePaid && Charge(chain.ledger, setupFee, perSettleFee) == r.value)
    {
      setupFee := if setupFeePaid then 0 else Min(config.setupFee, MAX_SETUP_FEE);
      var ppm := Min(config.feePpm, MAX_FEE_PPM);
      if settled * ppm > U256_MAX { return false, 0, 0; }
      perSettleFee := Min(config.baseFee, MAX_BASE_FEE) + settled * ppm / PPM_DENOM;
      var total := setupFee + perSettleFee;
      if total >= settled { return false, 0, 0; }
      if !setupFeePaid { setupFeePaid := true; }
      ok := true;
      if total > 0 {
        var collector := config.feeCollector;
        if collector == 0 { return false, 0, 0; }
        if collector == self { return false, 0, 0; }
        ok := chain.Transfer(config.usdc, self, collector, total);
      }
    }

    /** `_settle`. On failure the caller reverts, so only success says what was left behind. */
    method DoSettle(caller: Address, amount: nat, chargeFees: bool) returns (ok: bool)
      requires |args| > 0
      modifies this`setupFeePaid, chain`ledger, chain`burns, chain`records
      ensures var e := old(Settle(config.View(), chain.Env(), Site(), View(), caller, amount, chargeFees));
              ok == e.Some? && (ok ==> Settled(old(chain.burns), old(chain.records), e.value))
    {
      var balance := chain.ledger.BalanceOf(config.usdc, self);
      if amount == 0 || amount > balance { return false; }
      var setupFee, perSettleFee := 0, 0;
      if chargeFees {
        ok, setupFee, perSettleFee := CollectFees(amount);
        if !ok { return false; }
      }
      ok := BurnRest(caller, amount, setupFee, perSettleFee, chargeFees);
    }

    /** The second half of `_settle`: the burn and the event, once the fees are known. */
    method BurnRest(caller: Address, amount: nat, setupFee: nat, perSettleFee: nat, chargeFees: bool) returns (ok: bool)
      requires |args| > 0
      requires setupFee + perSettleFee < amount
      requires amount - setupFee - perSettleFee <= chain.ledger.BalanceOf(config.usdc, self)
      modifies chain`ledger, chain`burns, chain`records
      ensures var e := old(SettleCharged(config.View(), chain.circle, Site(), View(), caller, amount,
                                         Charge(chain.ledger, setupFee, perSettleFee), chargeFees));
              ok == e.Some? && (ok ==> Settled(old(chain.burns), old(chain.records), e.value))
    {
      var toBurn := amount - setupFee - perSettleFee;
      var useFast := chargeFees && FastOf(args) && config.fastEnabled;
      ok := BurnViaCctp(toBurn, useFast);
      if !ok { return false; }
      chain.records := chain.records +
        [(self, Record(caller, amount, setupFee, perSettleFee, toBurn, !chargeFees, useFast))];
    }

    /** The clone and the chain stand where `e` leaves them, with one more burn and one more event. */
    predicate Settled(burns: seq<BurnMessage>, records: seq<(Address, Record)>, e: Effect)
      reads this, chain
    {
      && View() == e.state
      && chain.ledger == e.ledger
      && chain.burns == burns + [e.message]
      && chain.records == records + [(self, e.record)]
    }

    /** The new state of the clone and the chain are those of `e`, or both are untouched. */
    twostate predicate Follows(e: Option<Effect>, ok: bool)
      reads this, chain
    {
      match e
      case None =>
        && !ok && View() == old(View()) && chain.Env() == old(chain.Env())
        && chain.burns == old(chain.burns) && chain.records == old(chain.records)
      case Some(f) =>
        && ok && View() == f.state && chain.Env() == old(chain.Env()).(ledger := f.ledger)
        && chain.burns == old(chain.burns) + [f.message]
        && chain.records == old(chain.records) + [(self, f.record)]
    }

    method Flush(caller: Address) returns (ok: bool)
      requires self != implementation ==> |args| > 0
      modifies this, chain
      ensures Follows(old(Settlement.Flush(config.View(), chain.Env(), Site(), View(), caller)), ok)
    {
      if self == implementation { return false; }
      if !(caller in config.operators || caller == config.factory || config.publicFlush) { return false; }
      if !config.initialized { return false; }
      var state, ledger, burns, records := View(), chain.ledger, chain.burns, chain.records;
      var balance := chain.ledger.BalanceOf(config.usdc, self);
      var limit := chain.circle.burnLimit;
      if limit == 0 { return false; }
      var amount := if balance > limit then limit else balance;
      ok := DoSettle(caller, amount, true);
      if !ok {
        Revert(state, ledger, burns, records);
        return false;
      }
      if sweepableAt != 0 {
        var remaining := if sweepCap > amount then sweepCap - amount else 0;
        if remaining < MIN_SWEEP_AMOUNT || chain.ledger.BalanceOf(config.usdc, self) == 0 {
          sweepableAt := 0;
          sweepCap := 0;
        } else {
          sweepCap := remaining;
        }
      }
    }

    method RequestSweep() returns (ok: bool)
      requires self != implementation ==> |args| > 0
      modifies this
      ensures var r := old(Settlement.RequestSweep(config.View(), chain.Env(), Site(), View()));
              ok == r.Some? && View() == if ok then r.value else old(View())
    {
      if self == implementation { return false; }
      if !config.initialized { return false; }
      var balance := chain.ledger.BalanceOf(config.usdc, self);
      if balance < MIN_SWEEP_AMOUNT { return false; }
      if sweepableAt == 0 {
        var delay := Min(config.sweepDelay, MAX_SWEEP_DELAY);
        if chain.now + delay > U256_MAX { return false; }
        sweepableAt := chain.now + delay;
        sweepCap := balance;
      }
      return true;
    }

    method Sweep(caller: Address) returns (ok: bool)
      requires self != implementation ==> |args| > 0
      modifies this, chain
      ensures Follows(old(Settlement.Sweep(config.View(), chain.Env(), Site(), View(), caller)), ok)
    {
      if self == implementation { return false; }
      if !(sweepableAt != 0 && chain.now >= sweepableAt) { return false; }
      if !config.initialized { return false; }
      var state, ledger, burns, records := View(), chain.ledger, chain.burns, chain.records;
      var balance := chain.ledger.BalanceOf(config.usdc, self);
      var limit := chain.circle.burnLimit;
      if limit == 0 { return false; }
      var amount := if balance < sweepCap then balance else sweepCap;
      if amount > limit { amount := limit; }
      ok := DoSettle(caller, amount, false);
      if !ok {
        Revert(state, ledger, burns, records);
        return false;
      }
      var remaining := sweepCap - amount;
      if remaining < MIN_SWEEP_AMOUNT || chain.ledger.BalanceOf(config.usdc, self) == 0 {
        sweepableAt := 0;
        sweepCap := 0;
      } else {
        sweepCap := remaining;
      }
    }

    method RescueNative(caller: Address) returns (ok: bool)
      modifies chain`ledger
      ensures var r := old(Settlement.RescueNative(config.View(), chain.Env(), Site(), caller));
              ok == r.Some? && chain.ledger == if ok then r.value else old(chain.ledger)
    {
      if caller !in config.operators { return false; }
      var sink := config.rescueSink;
      if sink == 0 { return false; }
      if !config.initialized { return false; }
      var usdcBefore := chain.ledger.BalanceOf(config.usdc, self);
      var amount := chain.ledger.Native(self);
      var before := chain.ledger;
      chain.ledger := chain.ledger.NativeTransfer(self, sink, amount);
      if chain.ledger.BalanceOf(config.usdc, self) < usdcBefore {
        chain.ledger := before;
        return false;
      }
      return true;
    }

    method RescueErc20(caller: Address, token: Address) returns (ok: bool)
      modifies chain`ledger
      ensures var r := old(Settlement.RescueErc20(config.View(), chain.Env(), Site(), caller, token));
              ok == r.Some? && chain.ledger == if ok then r.value else old(chain.ledger)
    {
      if caller !in config.operators { return false; }
      if !config.initialized { return false; }
      if !(token != config.usdc || self == implementation) { return false; }
      var sink := config.rescueSink;
      if sink == 0 { return false; }
      var amount := chain.ledger.BalanceOf(token, self);
      ok := chain.Transfer(token, self, sink, amount);
    }
  }
}
