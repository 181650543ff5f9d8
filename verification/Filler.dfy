/** `stellar/contracts/aquarius-filler/src/lib.rs`: the adapter that swaps what a vault hands it through a router, which
    is arbitrary code to it. Also the whole path: vault, adapter and router together. */
module Fillers {
  import opened Basics
  import opened Layout
  import opened Soroban
  import opened Vaults

  datatype FillerError = InvalidAmount | InvalidRoute | EmptyRoute | RouteTokenMismatch | Shortfall | NotAVault | InputNotTaken

  datatype FillOutcome = Filled(ledger: Ledger, got: int) | Refused(error: FillerError) | Stopped

  /** The adapter's instance storage and address. */
  datatype Adapter = Adapter(self: Address, router: Address, vaultWasm: nat)

  /** What the router is asked to do; any code may sit there. */
  datatype RouterCall = RouterCall(user: Address, hops: seq<Address>, tokenIn: Address, amountIn: nat, outMin: nat)
  type RouterCode = (Ledger, RouterCall) -> Option<Ledger>

  /** Which code runs at an address, if any. */
  type Codes = map<Address, nat>

  predicate RunsVault(a: Adapter, codes: Codes, who: Address) {
    who in codes && codes[who] == a.vaultWasm
  }

  /** The contracts the adapter goes on to call are contracts, and none is itself or the vault that called it. */
  predicate Reaches(a: Adapter, c: FillCall) {
    && Callable(c.tokenIn, a.self, c.recipient) && Callable(c.tokenOut, a.self, c.recipient)
    && Callable(a.router, a.self, c.recipient)
  }

  /** What is checked before the router is called. */
  function FillChecks(a: Adapter, codes: Codes, authorised: bool, c: FillCall): Option<FillOutcome> {
    if !authorised then Some(Stopped)
    else if !RunsVault(a, codes, c.recipient) then Some(Refused(NotAVault))
    else if c.amountIn <= 0 || c.minOut < 0 then Some(Refused(FillerError.InvalidAmount))
    else if c.data.NotARoute? then Some(Refused(InvalidRoute))
    else if c.data.hops == [] then Some(Refused(EmptyRoute))
    else if c.data.hops[|c.data.hops| - 1] != c.tokenOut then Some(Refused(RouteTokenMismatch))
    else if !Reaches(a, c) then Some(Stopped)
    else None
  }

  /** `fill`: only balance differences are believed. */
  function Fill(a: Adapter, codes: Codes, authorised: bool, l: Ledger, c: FillCall, router: RouterCode): FillOutcome {
    var refused := FillChecks(a, codes, authorised, c);
    if refused.Some? then refused.value
    else
      match router(l, RouterCall(a.self, c.data.hops, c.tokenIn, c.amountIn, c.minOut))
      case None => Stopped
      case Some(m) =>
        if l.Balance(c.tokenIn, a.self) - m.Balance(c.tokenIn, a.self) != c.amountIn then Refused(InputNotTaken)
        else
          var got := m.Balance(c.tokenOut, a.self) - l.Balance(c.tokenOut, a.self);
          if got < c.minOut then Refused(Shortfall)
          else match m.Transfer(c.tokenOut, a.self, c.recipient, got)
               case None => Stopped
               case Some(paid) => Filled(paid, got)
  }

  /** The adapter as the filler of a vault: called directly by the vault, so authorised by it. */
  function AsFiller(a: Adapter, codes: Codes, router: RouterCode): FillerCode {
    (l: Ledger, c: FillCall) =>
      match Fill(a, codes, true, l, c, router)
      case Filled(m, _) => Some(m)
      case _ => None
  }

  /** A successful fill takes exactly the input from the adapter, delivers at least the minimum on top of what the
      recipient held, and leaves the adapter's output balance where it was. */
  lemma FillDelivers(a: Adapter, codes: Codes, authorised: bool, l: Ledger, c: FillCall, router: RouterCode)
    requires Fill(a, codes, authorised, l, c, router).Filled?
    ensures var f := Fill(a, codes, authorised, l, c, router);
            var m := router(l, RouterCall(a.self, c.data.hops, c.tokenIn, c.amountIn, c.minOut));
            && authorised && RunsVault(a, codes, c.recipient)
            && c.tokenIn != c.tokenOut
            && f.got >= c.minOut >= 0
            && m.Some?
            && (c.recipient != a.self ==>
                  && f.ledger.Balance(c.tokenOut, c.recipient) == m.value.Balance(c.tokenOut, c.recipient) + f.got
                  && f.ledger.Balance(c.tokenOut, a.self) == l.Balance(c.tokenOut, a.self))
            && f.ledger.Balance(c.tokenIn, a.self) == l.Balance(c.tokenIn, a.self) - c.amountIn
            && forall x :: f.ledger.Balance(c.tokenIn, x) == m.value.Balance(c.tokenIn, x)
  {
  }

  /** The caller runs the vault code the adapter serves, and asks for something of something. */
  predicate Served(a: Adapter, codes: Codes, authorised: bool, c: FillCall) {
    authorised && c.recipient in codes && codes[c.recipient] == a.vaultWasm && c.amountIn >= 1 && c.minOut >= 0
  }

  /** Moreover the route ends in the token wanted, and the contracts to be called can be. */
  predicate Routed(a: Adapter, codes: Codes, authorised: bool, c: FillCall) {
    && Served(a, codes, authorised, c)
    && c.data.Route? && |c.data.hops| > 0 && c.data.hops[|c.data.hops| - 1] == c.tokenOut
    && Callable(c.tokenIn, a.self, c.recipient) && Callable(c.tokenOut, a.self, c.recipient)
    && Callable(a.router, a.self, c.recipient)
  }

  /** Which refusal each broken condition of the call meets, before anything is called. */
  lemma FillRefusals(a: Adapter, codes: Codes, authorised: bool, l: Ledger, c: FillCall, router: RouterCode)
    ensures var r, served := Fill(a, codes, authorised, l, c, router), Served(a, codes, authorised, c);
            && (r == Refused(NotAVault) <==> authorised && !(c.recipient in codes && codes[c.recipient] == a.vaultWasm))
            && (r == Refused(FillerError.InvalidAmount) <==>
                  && authorised && c.recipient in codes && codes[c.recipient] == a.vaultWasm
                  && (c.amountIn < 1 || c.minOut < 0))
            && (r == Refused(InvalidRoute) <==> served && c.data == NotARoute)
            && (r == Refused(EmptyRoute) <==> served && c.data == Route([]))
            && (r == Refused(RouteTokenMismatch) <==>
                  served && c.data.Route? && |c.data.hops| > 0 && c.data.hops[|c.data.hops| - 1] != c.tokenOut)
  {
  }

  /** A routed call is filled exactly when the router takes what was to be swapped and leaves at least the minimum, and
      the recipient can hold it; otherwise the refusal names what was missing. */
  lemma FillSucceedsIff(a: Adapter, codes: Codes, authorised: bool, l: Ledger, c: FillCall, router: RouterCode)
    ensures var r := Fill(a, codes, authorised, l, c, router);
            if !Routed(a, codes, authorised, c) then !r.Filled? && r != Refused(InputNotTaken) && r != Refused(Shortfall)
            else
              match router(l, RouterCall(a.self, c.data.hops, c.tokenIn, c.amountIn, c.minOut))
              case None => r == Stopped
              case Some(m) =>
                var taken := l.Balance(c.tokenIn, a.self) - m.Balance(c.tokenIn, a.self);
                var got := m.Balance(c.tokenOut, a.self) - l.Balance(c.tokenOut, a.self);
                && (r == Refused(InputNotTaken) <==> taken != c.amountIn)
                && (r == Refused(Shortfall) <==> taken == c.amountIn && got < c.minOut)
                && (r.Filled? <==>
                      && taken == c.amountIn && got >= c.minOut
                      && (c.recipient == a.self
                          || m.Balance(c.tokenOut, c.recipient) + got <= 0x7fff_ffff_ffff_ffff_ffff_ffff_ffff_ffff))
                && (r.Filled? ==> r.got == got && m.Transfer(c.tokenOut, a.self, c.recipient, got) == Some(r.ledger))
  {
    assert Routed(a, codes, authorised, c) <==> FillChecks(a, codes, authorised, c).None?;
    hide FillChecks;
  }

  /** A token cannot be filled into itself, whatever the router does. */
  lemma SameTokenNeverFills(a: Adapter, codes: Codes, authorised: bool, l: Ledger, c: FillCall, router: RouterCode)
    requires c.tokenIn == c.tokenOut
    ensures !Fill(a, codes, authorised, l, c, router).Filled?
  {
  }

  /** Vault, adapter and any router: the adapter ends a successful swap with exactly the USDC it began with, and with
      exactly the XLM too, unless it is itself the owner being paid. */
  lemma AdapterKeepsNothing(net: Network, h: HostState, this_: Address, invoker: Address, s: SwapArgs,
                            a: Adapter, codes: Codes, router: RouterCode)
    requires s.filler == a.self
    requires Swap(net, h, this_, invoker, s, AsFiller(a, codes, router)).Done?
    ensures var out := Swap(net, h, this_, invoker, s, AsFiller(a, codes, router)).value;
            && out.ledger.Balance(s.config.usdc, a.self) == h.ledger.Balance(s.config.usdc, a.self)
            && out.ledger.Balance(s.config.xlm, a.self) ==
               h.ledger.Balance(s.config.xlm, a.self) + (if net.parse(s.owner) == Some(a.self) then out.paidOut else 0)
  {
    var out := Swap(net, h, this_, invoker, s, AsFiller(a, codes, router)).value;
    var handed := h.ledger.Transfer(s.config.usdc, this_, s.filler, s.amount).value;
    var c := FillCall(this_, s.config.usdc, s.amount, s.config.xlm, out.want, s.data);
    FillDelivers(a, codes, true, handed, c, router);
  }

  /** A router that pays nobody's vault in the token it is given. */
  ghost predicate NeverPaysIn(router: RouterCode, vault: Address) {
    forall l, c :: router(l, c).Some? ==> router(l, c).value.Balance(c.tokenIn, vault) <= l.Balance(c.tokenIn, vault)
  }

  /** Through the adapter, the debit is `amount` exactly when the router's own answer leaves the vault no USDC on top of
      what the hand-over left; so always, under a router that never does. */
  lemma AdapterDebitsExactlyIff(net: Network, h: HostState, this_: Address, invoker: Address, s: SwapArgs,
                                a: Adapter, codes: Codes, router: RouterCode)
    ensures var r := Swap(net, h, this_, invoker, s, AsFiller(a, codes, router));
            r.Done? ==>
              var handed := h.ledger.Transfer(s.config.usdc, this_, s.filler, s.amount);
              && handed.Some? && s.data.Route? && SwapChecks(net, h, this_, invoker, s).Done?
              && var want := SwapChecks(net, h, this_, invoker, s).value.2;
                 var answer := router(handed.value, RouterCall(a.self, s.data.hops, s.config.usdc, s.amount, want));
                 && answer.Some?
                 && (DebitIsAmount(net, h, this_, invoker, s, AsFiller(a, codes, router))
                     <==> answer.value.Balance(s.config.usdc, this_) <= handed.value.Balance(s.config.usdc, this_))
    ensures NeverPaysIn(router, this_) ==> DebitIsAmount(net, h, this_, invoker, s, AsFiller(a, codes, router))
  {
    var r := Swap(net, h, this_, invoker, s, AsFiller(a, codes, router));
    if r.Done? {
      var handed := h.ledger.Transfer(s.config.usdc, this_, s.filler, s.amount).value;
      var c := FillCall(this_, s.config.usdc, s.amount, s.config.xlm, r.value.want, s.data);
      FillDelivers(a, codes, true, handed, c, router);
      SparesAllMeaning(handed, r.value.filled, this_, s.config.usdc);
      hide SwapChecks;
      hide Fill;
    }
  }

  /** A router that does its job on this call: takes exactly the input, pays at least the minimum, and takes nothing
      from the vault. */
  predicate Serves(router: RouterCode, l: Ledger, c: RouterCall, vault: Address, bound: nat) {
    var r := router(l, c);
    && c.hops != []
    && r.Some?
    && r.value.Below(bound)
    && r.value.Balance(c.tokenIn, c.user) == l.Balance(c.tokenIn, c.user) - c.amountIn
    && r.value.Balance(c.hops[|c.hops| - 1], c.user) >= l.Balance(c.hops[|c.hops| - 1], c.user) + c.outMin
    && l.SparesAll(r.value, vault)
  }

  /** 2^125: below it, no sum of the few balances a swap adds up leaves `i128`. */
  const ROOM: nat := 0x2000_0000_0000_0000_0000_0000_0000_0000

  lemma BelowMeaning(l: Ledger, bound: nat, token: Address, who: Address)
    requires l.Below(bound) && bound > 0
    ensures l.Balance(token, who) < bound
  {
    if (token, who) in l.balances {
      assert (token, who) in l.balances.Keys;
    }
  }

  /** A serving router makes the adapter's fill succeed and stay within what the host allows. */
  lemma ServingRouterFills(a: Adapter, codes: Codes, l: Ledger, c: FillCall, router: RouterCode)
    requires RunsVault(a, codes, c.recipient) && c.recipient != a.self && Reaches(a, c)
    requires c.amountIn > 0 && c.minOut >= 0 && c.tokenIn != c.tokenOut
    requires c.data.Route? && c.data.hops != [] && c.data.hops[|c.data.hops| - 1] == c.tokenOut
    requires Serves(router, l, RouterCall(a.self, c.data.hops, c.tokenIn, c.amountIn, c.minOut), c.recipient, ROOM)
    ensures var r := HostCall(AsFiller(a, codes, router), l, c, c.recipient);
            && r.Some?
            && r.value.Below(2 * ROOM)
            && r.value.Balance(c.tokenOut, c.recipient) >= l.Balance(c.tokenOut, c.recipient) + c.minOut
  {
    var m := router(l, RouterCall(a.self, c.data.hops, c.tokenIn, c.amountIn, c.minOut)).value;
    var got := m.Balance(c.tokenOut, a.self) - l.Balance(c.tokenOut, a.self);
    BelowMeaning(m, ROOM, c.tokenOut, a.self);
    BelowMeaning(m, ROOM, c.tokenOut, c.recipient);
    SparesAllMeaning(l, m, c.recipient, c.tokenOut);
    var paid := m.Transfer(c.tokenOut, a.self, c.recipient, got);
    assert paid.Some?;
    assert Fill(a, codes, true, l, c, router) == Filled(paid.value, got);
    forall k | k in l.balances.Keys && k.1 == c.recipient ensures paid.value.Balance(k.0, k.1) >= l.balances[k] {
      SparesAllMeaning(l, m, c.recipient, k.0);
    }
    PaidStaysSmall(m, c.tokenOut, a.self, c.recipient, got);
  }

  lemma PaidStaysSmall(m: Ledger, token: Address, from: Address, to: Address, v: nat)
    requires m.Below(ROOM)
    requires m.Transfer(token, from, to, v).Some?
    ensures m.Transfer(token, from, to, v).value.Below(2 * ROOM)
  {
    var p := m.Transfer(token, from, to, v).value;
    BelowMeaning(m, ROOM, token, from);
    BelowMeaning(m, ROOM, token, to);
    forall k | k in p.balances.Keys ensures p.balances[k] < 2 * ROOM {
      assert p.balances[k] == p.Balance(k.0, k.1);
      BelowMeaning(m, ROOM, k.0, k.1);
    }
  }

  /** The swap goes through whenever the vault's own checks pass and the router serves the hand-over: nothing in the
      adapter stands in the way. */
  lemma HonestRouterCompletesTheSwap(net: Network, h: HostState, this_: Address, invoker: Address, s: SwapArgs,
                                     a: Adapter, codes: Codes, router: RouterCode)
    requires s.filler == a.self && Callable(a.self, this_, s.factory)
    requires Callable(a.router, a.self, this_) && a.router != s.factory && a.self != s.config.usdc && a.self != s.config.xlm
    requires RunsVault(a, codes, this_)
    requires s.data.Route? && s.data.hops != [] && s.data.hops[|s.data.hops| - 1] == s.config.xlm
    requires SwapChecks(net, h, this_, invoker, s).Done?
    requires h.ledger.Below(ROOM)
    requires var want := SwapChecks(net, h, this_, invoker, s).value.2;
             var handed := h.ledger.Transfer(s.config.usdc, this_, a.self, s.amount);
             handed.Some? ==>
               Serves(router, handed.value, RouterCall(a.self, s.data.hops, s.config.usdc, s.amount, want), this_, ROOM)
    ensures Swap(net, h, this_, invoker, s, AsFiller(a, codes, router)).Done?
  {
    var (payee, floor, want) := SwapChecks(net, h, this_, invoker, s).value;
    BelowMeaning(h.ledger, ROOM, s.config.usdc, this_);
    BelowMeaning(h.ledger, ROOM, s.config.usdc, a.self);
    var handed := h.ledger.Transfer(s.config.usdc, this_, a.self, s.amount);
    assert handed.Some?;
    var c := FillCall(this_, s.config.usdc, s.amount, s.config.xlm, want, s.data);
    ServingRouterFills(a, codes, handed.value, c, router);
    var filled := HostCall(AsFiller(a, codes, router), handed.value, c, this_).value;
    BelowMeaning(filled, 2 * ROOM, s.config.xlm, this_);
    BelowMeaning(filled, 2 * ROOM, s.config.xlm, payee);
    assert Vaults.Filled(h.ledger, this_, s, want, AsFiller(a, codes, router)) == Some(filled);
  }

  /** The adapter does end with more XLM when it is the owner: for any network and any strkey that names the adapter,
      here is a swap of ten USDC against the router's ten XLM that pays it ten, no token created or lost. */
  lemma AdapterCanBeTheOwner(net: Network, factory: Address, owner: bytes, a: Adapter, usdc: Address, xlm: Address,
                             oracle: Address)
    returns (h: HostState, s: SwapArgs, codes: Codes, router: RouterCode)
    requires net.parse(owner) == Some(a.self) && usdc != xlm
    requires forall x :: x in {a.self, a.router, usdc, xlm, oracle} ==> Callable(x, net.Derive(factory, owner), factory)
    requires a.self !in {a.router, usdc, xlm}
    ensures s.owner == owner && s.filler == a.self && s.config.xlm == xlm && s.config.oracle == oracle
    ensures h.ledger == Ledger(map[(usdc, net.Derive(factory, owner)) := 10, (xlm, a.router) := 10])
    ensures forall l, c :: router(l, c) == Some(Ledger(map[(usdc, a.router) := 10, (xlm, a.self) := 10]))
    ensures Swap(net, h, net.Derive(factory, owner), factory, s, AsFiller(a, codes, router)).Done?
    ensures Swap(net, h, net.Derive(factory, owner), factory, s, AsFiller(a, codes, router)).value.ledger.Balance(xlm, a.self)
            >= h.ledger.Balance(xlm, a.self) + 10
  {
    var vault := net.Derive(factory, owner);
    assert Callable(a.self, vault, factory) && Callable(a.router, vault, factory) && Callable(oracle, vault, factory);
    assert Callable(usdc, vault, factory) && Callable(xlm, vault, factory);
    h := HostState(Ledger(map[(usdc, vault) := 10, (xlm, a.router) := 10]),
                   map[(oracle, 0) := PriceData(1, 0), (oracle, 1) := PriceData(1, 0)], 0);
    s := SwapArgs(owner, factory, a.self, 10, 10, Route([xlm]), VaultConfig(usdc, xlm, 0, oracle, 0, 1, 0, 900, 1));
    codes := map[vault := a.vaultWasm];
    var paid := Ledger(map[(usdc, a.router) := 10, (xlm, a.self) := 10]);
    router := (_, _) => Some(paid);
    TenPassTheChecks(net, factory, h, s, a.self);
    hide SwapChecks;
    hide Callable;
    RouterPays(h.ledger, paid, vault, a, usdc, xlm, router);
    hide Serves;
    hide Swap;
    HonestRouterCompletesTheSwap(net, h, vault, factory, s, a, codes, router);
    AdapterKeepsNothing(net, h, vault, factory, s, a, codes, router);
    SwapPaysTheOwner(net, h, vault, factory, s, AsFiller(a, codes, router), usdc);
  }

  /** Ten units at equal, fresh prices, asking for ten. */
  lemma TenPassTheChecks(net: Network, factory: Address, h: HostState, s: SwapArgs, payee: Address)
    requires s.factory == factory && s.amount == 10 && s.minOut == 10 && net.parse(s.owner) == Some(payee)
    requires s.config == VaultConfig(s.config.usdc, s.config.xlm, 0, s.config.oracle, 0, 1, 0, 900, 1)
    requires s.config.usdc != s.config.xlm
    requires h.feeds == map[(s.config.oracle, 0) := PriceData(1, 0), (s.config.oracle, 1) := PriceData(1, 0)] && h.now == 0
    requires Callable(s.config.usdc, net.Derive(factory, s.owner), factory)
    requires Callable(s.config.xlm, net.Derive(factory, s.owner), factory)
    requires Callable(s.config.oracle, net.Derive(factory, s.owner), factory)
    requires h.ledger.Balance(s.config.usdc, net.Derive(factory, s.owner)) == 10
    ensures SwapChecks(net, h, net.Derive(factory, s.owner), factory, s) == Done((payee, Floor(10, 1, 1), 10))
  {
    hide Network.Derive;
    assert CheckedFloor(10, 1, 1, 0) == Done(10);
    hide CheckedFloor;
  }

  lemma RouterPays(before: Ledger, paid: Ledger, vault: Address, a: Adapter, usdc: Address, xlm: Address, router: RouterCode)
    requires usdc != xlm && a.self != vault && a.router != vault && a.self != a.router
    requires before == Ledger(map[(usdc, vault) := 10, (xlm, a.router) := 10])
    requires paid == Ledger(map[(usdc, a.router) := 10, (xlm, a.self) := 10])
    requires forall l, c :: router(l, c) == Some(paid)
    ensures before.Below(ROOM) && before.Transfer(usdc, vault, a.self, 10).Some?
    ensures Serves(router, before.Transfer(usdc, vault, a.self, 10).value, RouterCall(a.self, [xlm], usdc, 10, 10), vault, ROOM)
  {
    var handed := before.Transfer(usdc, vault, a.self, 10).value;
    assert handed.balances == map[(usdc, vault) := 0, (xlm, a.router) := 10, (usdc, a.self) := 10];
    assert handed.SparesAll(paid, vault);
  }

  /** The contract itself. */
  class AquariusFiller {
    const adapter: Adapter

    constructor (self: Address, router: Address, vaultWasm: nat)
      ensures adapter == Adapter(self, router, vaultWasm)
    {
      adapter := Adapter(self, router, vaultWasm);
    }

    /** `fill`: snapshots, calls the router, re-reads, and pays out; any failure undoes all of it. */
    method DoFill(host: Host, codes: Codes, authorised: bool, c: FillCall, router: RouterCode) returns (r: FillOutcome)
      modifies host`ledger
      ensures r == old(Fill(adapter, codes, authorised, host.ledger, c, router))
      ensures host.ledger == if r.Filled? then r.ledger else old(host.ledger)
    {
      if !authorised { return Stopped; }
      if !(c.recipient in codes && codes[c.recipient] == adapter.vaultWasm) { return Refused(NotAVault); }
      if c.amountIn <= 0 || c.minOut < 0 { return Refused(FillerError.InvalidAmount); }
      if c.data.NotARoute? { return Refused(InvalidRoute); }
      var chain := c.data.hops;
      if chain == [] { return Refused(EmptyRoute); }
      if chain[|chain| - 1] != c.tokenOut { return Refused(RouteTokenMismatch); }
      if !Reaches(adapter, c) { return Stopped; }
      var saved := host.ledger;
      var before := host.ledger.Balance(c.tokenOut, adapter.self);
      var inputBefore := host.ledger.Balance(c.tokenIn, adapter.self);
      var swapped := router(host.ledger, RouterCall(adapter.self, chain, c.tokenIn, c.amountIn, c.minOut));
      if swapped.None? { return Stopped; }
      host.ledger := swapped.value;
      if inputBefore - host.ledger.Balance(c.tokenIn, adapter.self) != c.amountIn {
        host.ledger := saved;
        return Refused(InputNotTaken);
      }
      var got: int := host.ledger.Balance(c.tokenOut, adapter.self) - before;
      if got < c.minOut {
        host.ledger := saved;
        return Refused(Shortfall);
      }
      var ok := host.Transfer(c.tokenOut, adapter.self, c.recipient, got);
      if !ok {
        host.ledger := saved;
        return Stopped;
      }
      return Filled(host.ledger, got);
    }
  }
}
