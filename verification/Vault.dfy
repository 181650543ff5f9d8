/** `stellar/contracts/vault/src/lib.rs`: one stateless vault per owner. `Swap` and `Withdraw` are what a call does to
    the ledger; the methods follow the contract step by step, undoing everything when a check fails. */
module Vaults {
  import opened Basics
  import opened Layout
  import opened Soroban

  const PPM: nat := 1_000_000
  const MAX_CLOCK_SKEW: nat := 60
  const DISCOUNT_CAP_PPM: nat := 100_000
  const MAX_PRICE_AGE_CAP: nat := 900

  datatype VaultError =
    | NotThisVault | InvalidAmount | InsufficientBalance | OracleUnavailable | OracleStale | BelowMinDelivery
    | FillShortfall | NothingToWithdraw | Overflow | InvalidConfig

  /** A contract call returns, panics with one of its errors, or is stopped by the host (no authorization, a malformed
      strkey, a failing token or filler). */
  datatype Outcome<+T> = Done(value: T) | Failed(error: VaultError) | Trapped

  datatype VaultConfig = VaultConfig(
    usdc: Address, xlm: Address, vaultWasmHash: nat, oracle: Address, xlmAsset: nat, usdcAsset: nat,
    discountPpm: nat, maxPriceAge: nat, minDelivery: int)

  /** `timestamp` is a `u64`. */
  datatype PriceData = PriceData(price: int, timestamp: nat)

  /** What is fixed for a network: its hash and id, and strkey parsing. */
  datatype Network = Network(sha256: Hash, id: bytes, parse: bytes -> Option<Address>) {

    function Preimage(factory: Address, owner: bytes): bytes {
      ContractIdPreimage(id, XdrAddress(factory), sha256(owner))
    }

    /** The address of what `factory` deploys for `owner`, whose salt is `sha256(owner)`. */
    function Derive(factory: Address, owner: bytes): Address {
      Contract(sha256(Preimage(factory, owner)))
    }

    ghost predicate HashesTo32() {
      forall x :: Digest(sha256(x))
    }
  }

  datatype HostState = HostState(ledger: Ledger, feeds: map<(Address, nat), PriceData>, now: nat)

  datatype SwapArgs = SwapArgs(owner: bytes, factory: Address, filler: Address, amount: int, minOut: int, data: RouteData,
                               config: VaultConfig)

  datatype Floor = Floor(floor: nat, xlmPrice: nat, usdcPrice: nat)

  datatype Swapped = Swapped(ledger: Ledger, payee: Address, amountOut: int, paidOut: nat, floor: Floor, want: int,
                             filled: Ledger)

  /** `require_this_vault`. */
  function RequireThisVault(net: Network, this_: Address, owner: bytes, factory: Address): Outcome<Address> {
    if net.Derive(factory, owner) != this_ then Failed(NotThisVault)
    else match net.parse(owner) case Some(payee) => Done(payee) case None => Trapped
  }

  predicate UsableConfig(c: VaultConfig) {
    && c.discountPpm <= DISCOUNT_CAP_PPM
    && 0 < c.maxPriceAge <= MAX_PRICE_AGE_CAP
    && c.minDelivery > 0
    && c.usdc != c.xlm
  }

  /** `fresh_price`, in saturating `u64` time arithmetic. */
  function FreshPrice(h: HostState, oracle: Address, asset: nat, maxAge: nat): Outcome<PriceData> {
    if (oracle, asset) !in h.feeds then Failed(OracleUnavailable)
    else
      var record := h.feeds[(oracle, asset)];
      if record.price <= 0 then Failed(OracleUnavailable)
      else if record.timestamp > SaturatingAdd(h.now, MAX_CLOCK_SKEW)
              || SaturatingSub(h.now, record.timestamp) > maxAge then Failed(OracleStale)
      else Done(record)
  }

  /** The two-stage checked arithmetic of `oracle_floor`. */
  function CheckedFloor(amount: nat, usdcPrice: nat, xlmPrice: nat, discountPpm: nat): Outcome<nat>
    requires xlmPrice > 0 && discountPpm <= PPM
  {
    match CheckedMul(amount, usdcPrice)
    case None => Failed(Overflow)
    case Some(v) =>
      match CheckedMul(v, PPM - discountPpm)
      case None => Failed(Overflow)
      case Some(numerator) =>
        match CheckedMul(xlmPrice, PPM)
        case None => Failed(Overflow)
        case Some(denominator) => Done(Quotient(numerator, denominator))
  }

  /** `oracle_floor`, with vault and factory on the stack. */
  function OracleFloor(h: HostState, this_: Address, factory: Address, c: VaultConfig, amount: nat): Outcome<Floor> {
    if !UsableConfig(c) then Failed(InvalidConfig)
    else if !Callable(c.oracle, this_, factory) then Trapped
    else
      match FreshPrice(h, c.oracle, c.xlmAsset, c.maxPriceAge)
      case Failed(e) => Failed(e)
      case Trapped => Trapped
      case Done(xlm) =>
        match FreshPrice(h, c.oracle, c.usdcAsset, c.maxPriceAge)
        case Failed(e) => Failed(e)
        case Trapped => Trapped
        case Done(usdc) =>
          match CheckedFloor(amount, usdc.price, xlm.price, c.discountPpm)
          case Failed(e) => Failed(e)
          case Trapped => Trapped
          case Done(f) => Done(Floor(f, xlm.price, usdc.price))
  }

  /** What must hold before any token moves; the result is who is paid and how much must come back. */
  function SwapChecks(net: Network, h: HostState, this_: Address, invoker: Address, s: SwapArgs): Outcome<(Address, Floor, int)> {
    match RequireThisVault(net, this_, s.owner, s.factory)
    case Failed(e) => Failed(e)
    case Trapped => Trapped
    case Done(payee) =>
      if invoker != s.factory then Trapped
      else if s.amount <= 0 then Failed(InvalidAmount)
      else if !Callable(s.config.usdc, this_, s.factory) then Trapped
      else if s.amount > h.ledger.Balance(s.config.usdc, this_) then Failed(InsufficientBalance)
      else
        match OracleFloor(h, this_, s.factory, s.config, s.amount)
        case Failed(e) => Failed(e)
        case Trapped => Trapped
        case Done(f) =>
          var want := if s.minOut > f.floor then s.minOut else f.floor;
          if want < s.config.minDelivery then Failed(BelowMinDelivery)
          else if !Callable(s.config.xlm, this_, s.factory) then Trapped
          else Done((payee, f, want))
  }

  /** The filler's turn: it holds the USDC and may do anything the host allows; neither the vault nor the factory, both
      on the stack, can themselves be the filler. */
  function Filled(l: Ledger, this_: Address, s: SwapArgs, want: int, code: FillerCode): Option<Ledger>
    requires s.amount > 0
  {
    if !Callable(s.filler, this_, s.factory) then None
    else
      match l.Transfer(s.config.usdc, this_, s.filler, s.amount)
      case None => None
      case Some(handed) =>
        HostCall(code, handed, FillCall(this_, s.config.usdc, s.amount, s.config.xlm, want, s.data), this_)
  }

  /** `Vault::swap`. */
  function Swap(net: Network, h: HostState, this_: Address, invoker: Address, s: SwapArgs, code: FillerCode): Outcome<Swapped> {
    match SwapChecks(net, h, this_, invoker, s)
    case Failed(e) => Failed(e)
    case Trapped => Trapped
    case Done((payee, floor, want)) =>
      match Filled(h.ledger, this_, s, want, code)
      case None => Trapped
      case Some(filled) =>
        var after := filled.Balance(s.config.xlm, this_);
        var delta := after - h.ledger.Balance(s.config.xlm, this_);
        if delta < want then Failed(FillShortfall)
        else
          match filled.Transfer(s.config.xlm, this_, payee, after)
          case None => Trapped
          case Some(paid) => Done(Swapped(paid, payee, delta, after, floor, want, filled))
  }

  /** `Vault::withdraw`; `signers` are the addresses whose authorization the host has verified. */
  function Withdraw(net: Network, l: Ledger, this_: Address, signers: set<Address>, owner: bytes, factory: Address, token: Address)
    : Outcome<(Ledger, Address, nat)>
  {
    match RequireThisVault(net, this_, owner, factory)
    case Failed(e) => Failed(e)
    case Trapped => Trapped
    case Done(payee) =>
      if payee !in signers then Trapped
      else if !token.Contract? || token == this_ then Trapped
      else
        var amount := l.Balance(token, this_);
        if amount <= 0 then Failed(NothingToWithdraw)
        else
          match l.Transfer(token, this_, payee, amount)
          case None => Trapped
          case Some(m) => Done((m, payee, amount))
  }

  // --- What a swap guarantees ---

  /** A successful swap as its three moves: the USDC to the filler, the filler's answer, all XLM to the owner. */
  lemma SwapIsThreeMoves(net: Network, h: HostState, this_: Address, invoker: Address, s: SwapArgs, code: FillerCode)
    requires Swap(net, h, this_, invoker, s, code).Done?
    ensures var out := Swap(net, h, this_, invoker, s, code).value;
            var handed := h.ledger.Transfer(s.config.usdc, this_, s.filler, s.amount);
            && s.amount > 0 && s.config.usdc != s.config.xlm && handed.Some?
            && code(handed.value, FillCall(this_, s.config.usdc, s.amount, s.config.xlm, out.want, s.data)) == Some(out.filled)
            && handed.value.SparesAll(out.filled, this_)
            && out.paidOut == out.filled.Balance(s.config.xlm, this_)
            && out.filled.Transfer(s.config.xlm, this_, out.payee, out.paidOut) == Some(out.ledger)
  {
    hide Network.Derive;
    hide FreshPrice;
    hide CheckedFloor;
  }

  /** Whatever the filler did: the whole XLM balance, at least what was there plus the larger of the relayer's minimum,
      the oracle floor and the delivery minimum, went to the owner; the vault gave up at most `amount` USDC and nothing
      of any third token. */
  lemma SwapPaysTheOwner(net: Network, h: HostState, this_: Address, invoker: Address, s: SwapArgs, code: FillerCode, token: Address)
    requires Swap(net, h, this_, invoker, s, code).Done?
    ensures var out := Swap(net, h, this_, invoker, s, code).value;
            && net.parse(s.owner) == Some(out.payee) && invoker == s.factory && net.Derive(s.factory, s.owner) == this_
            && out.paidOut >= h.ledger.Balance(s.config.xlm, this_) + Max(s.minOut, out.floor.floor)
            && Max(s.minOut, out.floor.floor) >= s.config.minDelivery > 0
            && out.amountOut == out.paidOut - h.ledger.Balance(s.config.xlm, this_)
            && (out.payee != this_ ==>
                  && out.ledger.Balance(s.config.xlm, out.payee) == out.filled.Balance(s.config.xlm, out.payee) + out.paidOut)
            && out.ledger.Balance(s.config.usdc, this_) >= h.ledger.Balance(s.config.usdc, this_) - s.amount
            && (token != s.config.usdc && token != s.config.xlm ==>
                  out.ledger.Balance(token, this_) >= h.ledger.Balance(token, this_))
  {
    var out := Swap(net, h, this_, invoker, s, code).value;
    var handed := h.ledger.Transfer(s.config.usdc, this_, s.filler, s.amount).value;
    SparesAllMeaning(handed, out.filled, this_, s.config.usdc);
    SparesAllMeaning(handed, out.filled, this_, token);
  }

  /** The owner's strkey names the very vault derived from that strkey: a fixed point of the hash. */
  predicate SelfOwned(net: Network, factory: Address, owner: bytes) {
    net.parse(owner) == Some(net.Derive(factory, owner))
  }

  /** The vault is left without XLM exactly when it is not its own owner. */
  lemma SwapEmptiesXlmIff(net: Network, h: HostState, this_: Address, invoker: Address, s: SwapArgs, code: FillerCode)
    requires Swap(net, h, this_, invoker, s, code).Done?
    ensures Swap(net, h, this_, invoker, s, code).value.ledger.Balance(s.config.xlm, this_) == 0
            <==> !SelfOwned(net, s.factory, s.owner)
  {
    SwapPaysTheOwner(net, h, this_, invoker, s, code, s.config.usdc);
  }

  // --- The USDC debit ---

  predicate DebitIsAmount(net: Network, h: HostState, this_: Address, invoker: Address, s: SwapArgs, code: FillerCode) {
    var r := Swap(net, h, this_, invoker, s, code);
    r.Done? ==> r.value.ledger.Balance(s.config.usdc, this_) == h.ledger.Balance(s.config.usdc, this_) - s.amount
  }

  /** Every successful swap through this filler debits its vault by exactly `amount`. */
  ghost predicate DebitsExactly(net: Network, code: FillerCode) {
    forall h, this_, invoker, s :: DebitIsAmount(net, h, this_, invoker, s, code)
  }

  /** A call some vault makes to a filler in some swap: of a usable size, between different tokens, by the vault derived
      from an owner and a factory, after the input has moved. */
  predicate VaultCall(net: Network, before: Ledger, filler: Address, owner: bytes, factory: Address, c: FillCall) {
    && net.Derive(factory, owner) == c.recipient && net.parse(owner).Some?
    && Callable(filler, c.recipient, factory)
    && Callable(c.tokenIn, c.recipient, factory) && Callable(c.tokenOut, c.recipient, factory)
    && c.tokenIn != c.tokenOut
    && 0 < c.amountIn && c.amountIn * (PPM - DISCOUNT_CAP_PPM) <= I128_MAX
    && c.minOut > 0
    && before.Transfer(c.tokenIn, c.recipient, filler, c.amountIn).Some?
  }

  /** On that call the filler delivers what is asked, and hands the vault some of the input back. */
  predicate Refunds(net: Network, code: FillerCode, before: Ledger, filler: Address, owner: bytes, factory: Address, c: FillCall) {
    && VaultCall(net, before, filler, owner, factory, c)
    && var handed := before.Transfer(c.tokenIn, c.recipient, filler, c.amountIn).value;
       var answer := HostCall(code, handed, c, c.recipient);
       && answer.Some?
       && answer.value.Balance(c.tokenOut, c.recipient) >= handed.Balance(c.tokenOut, c.recipient) + c.minOut
       && answer.value.Transfer(c.tokenOut, c.recipient, net.parse(owner).value,
                                answer.value.Balance(c.tokenOut, c.recipient)).Some?
       && answer.value.Balance(c.tokenIn, c.recipient) > handed.Balance(c.tokenIn, c.recipient)
  }

  /** The debit is `amount` in every swap exactly when there is no vault call on which the filler delivers and refunds. */
  lemma DebitsExactlyIff(net: Network, code: FillerCode)
    ensures DebitsExactly(net, code) <==>
            forall before, filler, owner, factory, c :: !Refunds(net, code, before, filler, owner, factory, c)
  {
    hide Refunds;
    hide DebitIsAmount;
    forall h, this_, invoker, s | !DebitIsAmount(net, h, this_, invoker, s, code)
      ensures exists before, filler, owner, factory, c :: Refunds(net, code, before, filler, owner, factory, c)
    {
      var c := ShortDebitIsARefund(net, h, this_, invoker, s, code);
      assert Refunds(net, code, h.ledger, s.filler, s.owner, s.factory, c);
    }
    forall before, filler, owner, factory, c | Refunds(net, code, before, filler, owner, factory, c)
      ensures !DebitsExactly(net, code)
    {
      FillerIsCallable(net, code, before, filler, owner, factory, c);
      var h, s := RefundShortensADebit(net, code, before, filler, owner, factory, c, filler);
      assert !DebitIsAmount(net, h, c.recipient, factory, s, code);
    }
  }

  lemma FillerIsCallable(net: Network, code: FillerCode, before: Ledger, filler: Address, owner: bytes, factory: Address,
                         c: FillCall)
    requires Refunds(net, code, before, filler, owner, factory, c)
    ensures Callable(filler, c.recipient, factory)
  {
  }

  lemma ShortDebitIsARefund(net: Network, h: HostState, this_: Address, invoker: Address, s: SwapArgs, code: FillerCode)
    returns (c: FillCall)
    requires !DebitIsAmount(net, h, this_, invoker, s, code)
    ensures Refunds(net, code, h.ledger, s.filler, s.owner, s.factory, c)
  {
    var out := Swap(net, h, this_, invoker, s, code).value;
    c := FillCall(this_, s.config.usdc, s.amount, s.config.xlm, out.want, s.data);
    var handed := h.ledger.Transfer(s.config.usdc, this_, s.filler, s.amount).value;
    SparesAllMeaning(handed, out.filled, this_, s.config.usdc);
    SwapSizeIsBounded(net, h, this_, invoker, s, code);
    hide OracleFloor;
  }

  lemma SwapSizeIsBounded(net: Network, h: HostState, this_: Address, invoker: Address, s: SwapArgs, code: FillerCode)
    requires Swap(net, h, this_, invoker, s, code).Done?
    ensures s.amount * (PPM - DISCOUNT_CAP_PPM) <= I128_MAX
  {
    hide Filled;
    hide CheckedFloor;
    var f := Swap(net, h, this_, invoker, s, code).value.floor;
    assert CheckedFloor(s.amount, f.usdcPrice, f.xlmPrice, s.config.discountPpm).Done?;
    CheckedSize(s.amount, f.usdcPrice, f.xlmPrice, s.config.discountPpm);
  }

  lemma CheckedSize(amount: nat, usdcPrice: nat, xlmPrice: nat, discountPpm: nat)
    requires usdcPrice > 0 && xlmPrice > 0 && discountPpm <= DISCOUNT_CAP_PPM
    requires CheckedFloor(amount, usdcPrice, xlmPrice, discountPpm).Done?
    ensures amount * (PPM - DISCOUNT_CAP_PPM) <= I128_MAX
  {
    var v := amount * usdcPrice;
    assert v * (PPM - discountPpm) <= I128_MAX;
    MulMono(1, usdcPrice, amount);
    MulMono(amount, v, PPM - DISCOUNT_CAP_PPM);
    MulMono(PPM - DISCOUNT_CAP_PPM, PPM - discountPpm, v);
  }

  /** The largest XLM price the floor can divide by. */
  const TOP_PRICE: nat := I128_MAX / PPM

  lemma LowFloor(amount: nat)
    requires 0 < amount && amount * (PPM - DISCOUNT_CAP_PPM) <= I128_MAX
    ensures CheckedFloor(amount, 1, TOP_PRICE, DISCOUNT_CAP_PPM).Done?
    ensures CheckedFloor(amount, 1, TOP_PRICE, DISCOUNT_CAP_PPM).value <= 1
  {
    var n, d := amount * (PPM - DISCOUNT_CAP_PPM), TOP_PRICE * PPM;
    assert n < 2 * d;
    DivBounds(n, d);
    if n / d >= 2 {
      MulMono(2, n / d, d);
    }
  }

  /** The swap in which a refund shows: a vault with a relayer asking for what the filler was asked, under prices that
      make the oracle floor small. */
  lemma RefundShortensADebit(net: Network, code: FillerCode, before: Ledger, filler: Address, owner: bytes, factory: Address,
                             c: FillCall, oracle: Address)
    returns (h: HostState, s: SwapArgs)
    requires Refunds(net, code, before, filler, owner, factory, c)
    requires Callable(oracle, c.recipient, factory)
    ensures h.ledger == before && s.owner == owner && s.filler == filler
    ensures s.amount == c.amountIn && s.config.usdc == c.tokenIn && s.config.xlm == c.tokenOut && s.config.oracle == oracle
    ensures Swap(net, h, c.recipient, factory, s, code).Done?
    ensures !DebitIsAmount(net, h, c.recipient, factory, s, code)
  {
    var config := VaultConfig(c.tokenIn, c.tokenOut, 0, oracle, 0, 1, DISCOUNT_CAP_PPM, MAX_PRICE_AGE_CAP, 1);
    h := HostState(before, map[(oracle, 0) := PriceData(TOP_PRICE, 0), (oracle, 1) := PriceData(1, 0)], 0);
    s := SwapArgs(owner, factory, filler, c.amountIn, c.minOut, c.data, config);
    LowFloor(c.amountIn);
    var floor := Floor(CheckedFloor(c.amountIn, 1, TOP_PRICE, DISCOUNT_CAP_PPM).value, TOP_PRICE, 1);
    hide CheckedFloor;
    assert OracleFloor(h, c.recipient, factory, config, c.amountIn) == Done(floor);
    hide OracleFloor;
    var payee := net.parse(owner).value;
    assert SwapChecks(net, h, c.recipient, factory, s) == Done((payee, floor, c.minOut));
    hide SwapChecks;
    var handed := before.Transfer(c.tokenIn, c.recipient, filler, c.amountIn).value;
    assert FillCall(c.recipient, c.tokenIn, c.amountIn, c.tokenOut, c.minOut, c.data) == c;
    assert Filled(before, c.recipient, s, c.minOut, code) == HostCall(code, handed, c, c.recipient);
  }

  /** What a caller can ask of a filler up front: it never raises its recipient's balance of the token it is paid in. */
  ghost predicate NeverRefunds(code: FillerCode) {
    forall l, c :: code(l, c).Some? ==> code(l, c).value.Balance(c.tokenIn, c.recipient) <= l.Balance(c.tokenIn, c.recipient)
  }

  lemma NeverRefundsDebitsExactly(net: Network, code: FillerCode)
    requires NeverRefunds(code)
    ensures DebitsExactly(net, code)
  {
    forall before, filler, owner, factory, c ensures !Refunds(net, code, before, filler, owner, factory, c) {
      if VaultCall(net, before, filler, owner, factory, c) {
        var handed := before.Transfer(c.tokenIn, c.recipient, filler, c.amountIn).value;
        assert code(handed, c).Some? ==>
            code(handed, c).value.Balance(c.tokenIn, c.recipient) <= handed.Balance(c.tokenIn, c.recipient);
      }
    }
    hide Refunds;
    hide DebitsExactly;
    DebitsExactlyIff(net, code);
  }

  // --- The oracle floor ---

  /** The floor in exact arithmetic. */
  function ExactFloor(amount: nat, usdcPrice: nat, xlmPrice: nat, discountPpm: nat): nat
    requires xlmPrice > 0 && discountPpm <= PPM
  {
    Quotient(amount * usdcPrice * (PPM - discountPpm), xlmPrice * PPM)
  }

  /** The checked computation overflows exactly when the exact numerator or denominator leaves `i128`, and otherwise is
      the exact floor. */
  lemma FloorOverflowsIff(amount: nat, usdcPrice: nat, xlmPrice: nat, discountPpm: nat)
    requires xlmPrice > 0 && discountPpm < PPM
    ensures CheckedFloor(amount, usdcPrice, xlmPrice, discountPpm) ==
            if amount * usdcPrice * (PPM - discountPpm) > I128_MAX || xlmPrice * PPM > I128_MAX then Failed(Overflow)
            else Done(ExactFloor(amount, usdcPrice, xlmPrice, discountPpm))
  {
    MulMono(1, PPM - discountPpm, amount * usdcPrice);
  }

  /** `f` whole stroops is the most the discounted worth of `amount` covers. */
  lemma ExactFloorIs(amount: nat, usdcPrice: nat, xlmPrice: nat, discountPpm: nat, f: nat)
    requires xlmPrice > 0 && discountPpm <= 1_000_000
    ensures ExactFloor(amount, usdcPrice, xlmPrice, discountPpm) == f
            <==> f * (xlmPrice * 1_000_000) <= amount * usdcPrice * (1_000_000 - discountPpm) < (f + 1) * (xlmPrice * 1_000_000)
  {
    QuotientIs(amount * usdcPrice * (1_000_000 - discountPpm), xlmPrice * 1_000_000, f);
  }

  /** The oracle has no usable record of the asset. */
  predicate Unavailable(h: HostState, oracle: Address, asset: nat) {
    (oracle, asset) !in h.feeds || h.feeds[(oracle, asset)].price <= 0
  }

  /** The record is dated from `maxAge` seconds before to a minute after now. */
  predicate InTime(h: HostState, oracle: Address, asset: nat, maxAge: nat) {
    (oracle, asset) in h.feeds && h.now - maxAge <= h.feeds[(oracle, asset)].timestamp <= h.now + 60
  }

  /** Clock and records are `u64`. */
  predicate TimesFit(h: HostState) {
    h.now < 0x1_0000_0000_0000_0000 && forall k | k in h.feeds.Keys :: h.feeds[k].timestamp < 0x1_0000_0000_0000_0000
  }

  /** The saturating `u64` tests accept exactly the timestamps from `maxAge` before to a minute after now. */
  lemma FreshnessIsAnInterval(h: HostState, oracle: Address, asset: nat, maxAge: nat)
    requires TimesFit(h)
    ensures var r := FreshPrice(h, oracle, asset, maxAge);
            && (r == Failed(OracleUnavailable) <==> Unavailable(h, oracle, asset))
            && (r == Failed(OracleStale) <==> !Unavailable(h, oracle, asset) && !InTime(h, oracle, asset, maxAge))
            && (r.Done? <==> !Unavailable(h, oracle, asset) && InTime(h, oracle, asset, maxAge))
            && (r.Done? ==> r.value == h.feeds[(oracle, asset)])
  {
    if (oracle, asset) in h.feeds {
      assert (oracle, asset) in h.feeds.Keys;
    }
  }

  /** What a config must satisfy, in plain numbers. */
  predicate WithinCodeBounds(c: VaultConfig) {
    c.discountPpm <= 100_000 && 1 <= c.maxPriceAge <= 900 && c.minDelivery >= 1 && c.usdc != c.xlm
  }

  predicate BothAvailable(h: HostState, c: VaultConfig) {
    !Unavailable(h, c.oracle, c.xlmAsset) && !Unavailable(h, c.oracle, c.usdcAsset)
  }

  /** Both prices are positive and no older than the configured age. */
  predicate Priced(h: HostState, c: VaultConfig) {
    BothAvailable(h, c) && InTime(h, c.oracle, c.xlmAsset, c.maxPriceAge) && InTime(h, c.oracle, c.usdcAsset, c.maxPriceAge)
  }

  /** The discounted worth of `amount` and the price it is divided by fit a signed 128-bit integer. */
  predicate Fits(h: HostState, c: VaultConfig, amount: nat)
    requires Priced(h, c) && c.discountPpm <= 1_000_000
  {
    && amount * h.feeds[(c.oracle, c.usdcAsset)].price * (1_000_000 - c.discountPpm) < 0x8000_0000_0000_0000_0000_0000_0000_0000
    && h.feeds[(c.oracle, c.xlmAsset)].price * 1_000_000 < 0x8000_0000_0000_0000_0000_0000_0000_0000
  }

  /** The floor from the feed's own prices and the configured discount. */
  function MarketFloor(h: HostState, c: VaultConfig, amount: nat): nat
    requires BothAvailable(h, c) && c.discountPpm <= 1_000_000
  {
    ExactFloor(amount, h.feeds[(c.oracle, c.usdcAsset)].price, h.feeds[(c.oracle, c.xlmAsset)].price, c.discountPpm)
  }

  /** The oracle floor exists exactly for a config within the code's bounds, an oracle off the stack, prices in date by
      the configured age, and numbers that fit; each refusal has its own cause, the XLM record being read first. */
  lemma OracleFloorIff(h: HostState, this_: Address, factory: Address, c: VaultConfig, amount: nat)
    requires TimesFit(h)
    ensures var r := OracleFloor(h, this_, factory, c, amount);
            var asked := WithinCodeBounds(c) && c.oracle.Contract? && c.oracle != this_ && c.oracle != factory;
            && (r == Failed(InvalidConfig) <==> !WithinCodeBounds(c))
            && (r == Trapped <==> WithinCodeBounds(c) && !asked)
            && (r == Failed(OracleUnavailable) <==>
                  && asked
                  && (Unavailable(h, c.oracle, c.xlmAsset)
                      || (InTime(h, c.oracle, c.xlmAsset, c.maxPriceAge) && Unavailable(h, c.oracle, c.usdcAsset))))
            && (r == Failed(OracleStale) <==>
                  && asked && !Unavailable(h, c.oracle, c.xlmAsset)
                  && (!InTime(h, c.oracle, c.xlmAsset, c.maxPriceAge)
                      || (!Unavailable(h, c.oracle, c.usdcAsset) && !InTime(h, c.oracle, c.usdcAsset, c.maxPriceAge))))
            && (r == Failed(Overflow) <==> asked && Priced(h, c) && !Fits(h, c, amount))
            && (r.Done? <==> asked && Priced(h, c) && Fits(h, c, amount))
            && (r.Done? ==>
                  r.value == Floor(MarketFloor(h, c, amount), h.feeds[(c.oracle, c.xlmAsset)].price,
                                   h.feeds[(c.oracle, c.usdcAsset)].price))
  {
    FreshnessIsAnInterval(h, c.oracle, c.xlmAsset, c.maxPriceAge);
    FreshnessIsAnInterval(h, c.oracle, c.usdcAsset, c.maxPriceAge);
    hide FreshPrice;
    hide InTime;
    if UsableConfig(c) && BothAvailable(h, c) {
      FloorOverflowsIff(amount, h.feeds[(c.oracle, c.usdcAsset)].price, h.feeds[(c.oracle, c.xlmAsset)].price, c.discountPpm);
    }
    hide CheckedFloor;
    hide ExactFloor;
  }

  /** The owner's strkey derives to this vault and names an account, and the factory makes the call. */
  predicate Identified(net: Network, this_: Address, invoker: Address, s: SwapArgs) {
    net.Derive(s.factory, s.owner) == this_ && net.parse(s.owner).Some? && invoker == s.factory
  }

  /** Moreover the amount is positive and held. */
  predicate Funded(net: Network, h: HostState, this_: Address, invoker: Address, s: SwapArgs) {
    && Identified(net, this_, invoker, s)
    && Callable(s.config.usdc, this_, s.factory)
    && 0 < s.amount <= h.ledger.Balance(s.config.usdc, this_)
  }

  /** Moreover the floor is known. */
  predicate Floored(net: Network, h: HostState, this_: Address, invoker: Address, s: SwapArgs) {
    && Funded(net, h, this_, invoker, s)
    && WithinCodeBounds(s.config) && Callable(s.config.oracle, this_, s.factory)
    && Priced(h, s.config) && Fits(h, s.config, s.amount)
  }

  /** What the filler must deliver: the relayer's minimum or the market floor, whichever is more. */
  function Wanted(h: HostState, s: SwapArgs): int
    requires s.amount >= 0 && BothAvailable(h, s.config) && s.config.discountPpm <= 1_000_000
  {
    Max(s.minOut, MarketFloor(h, s.config, s.amount))
  }

  /** The checks before a token moves pass exactly for a funded, floored swap that wants the delivery minimum; who is
      paid and what is wanted then follow from strkey, feed, discount and the relayer's minimum. */
  lemma SwapChecksIff(net: Network, h: HostState, this_: Address, invoker: Address, s: SwapArgs)
    requires TimesFit(h)
    ensures var r := SwapChecks(net, h, this_, invoker, s);
            && (r.Done? <==>
                  && Floored(net, h, this_, invoker, s)
                  && Wanted(h, s) >= s.config.minDelivery && Callable(s.config.xlm, this_, s.factory))
            && (r.Done? ==>
                  r.value == (net.parse(s.owner).value,
                              Floor(MarketFloor(h, s.config, s.amount), h.feeds[(s.config.oracle, s.config.xlmAsset)].price,
                                    h.feeds[(s.config.oracle, s.config.usdcAsset)].price),
                              Wanted(h, s)))
  {
    if s.amount > 0 {
      OracleFloorIff(h, this_, s.factory, s.config, s.amount);
    }
    hide OracleFloor;
    hide Priced;
    hide Fits;
    hide BothAvailable;
    hide MarketFloor;
    hide Network.Derive;
  }

  /** Which refusal each broken condition meets. */
  lemma SwapRefusals(net: Network, h: HostState, this_: Address, invoker: Address, s: SwapArgs)
    requires TimesFit(h)
    ensures var r := SwapChecks(net, h, this_, invoker, s);
            && (r == Failed(NotThisVault) <==> net.Derive(s.factory, s.owner) != this_)
            && (r == Failed(InvalidAmount) <==> Identified(net, this_, invoker, s) && s.amount <= 0)
            && (r == Failed(InsufficientBalance) <==>
                  && Identified(net, this_, invoker, s) && Callable(s.config.usdc, this_, s.factory)
                  && s.amount > h.ledger.Balance(s.config.usdc, this_))
            && (r == Failed(BelowMinDelivery) <==>
                  Floored(net, h, this_, invoker, s) && Wanted(h, s) < s.config.minDelivery)
            && (forall e :: e in {VaultError.InvalidConfig, OracleUnavailable, OracleStale, Overflow} ==>
                  (r == Failed(e) <==>
                     && Funded(net, h, this_, invoker, s)
                     && OracleFloor(h, this_, s.factory, s.config, s.amount) == Failed(e)))
  {
    if s.amount > 0 {
      OracleFloorIff(h, this_, s.factory, s.config, s.amount);
    }
    hide OracleFloor;
    hide Priced;
    hide Fits;
    hide BothAvailable;
    hide MarketFloor;
    hide Network.Derive;
  }

  /** The whole swap succeeds exactly when the checks pass, the filler can be called, answers within what the host
      allows, leaves the vault what is wanted on top of the XLM it had, and the owner can hold it; a filler that leaves
      less is a shortfall. */
  lemma SwapSucceedsIff(net: Network, h: HostState, this_: Address, invoker: Address, s: SwapArgs, code: FillerCode)
    ensures var r := Swap(net, h, this_, invoker, s, code);
            match SwapChecks(net, h, this_, invoker, s)
            case Failed(e) => r == Failed(e)
            case Trapped => r == Trapped
            case Done((payee, floor, want)) =>
              var handed := h.ledger.Transfer(s.config.usdc, this_, s.filler, s.amount);
              if handed.None? || !s.filler.Contract? || s.filler == this_ || s.filler == s.factory then r == Trapped
              else
                match code(handed.value, FillCall(this_, s.config.usdc, s.amount, s.config.xlm, want, s.data))
                case None => r == Trapped
                case Some(filled) =>
                  var before, after := h.ledger.Balance(s.config.xlm, this_), filled.Balance(s.config.xlm, this_);
                  if !handed.value.SparesAll(filled, this_) || !filled.Below(0x8000_0000_0000_0000_0000_0000_0000_0000)
                  then r == Trapped
                  else if after < before + want then r == Failed(FillShortfall)
                  else if payee != this_ && filled.Balance(s.config.xlm, payee) + after > 0x7fff_ffff_ffff_ffff_ffff_ffff_ffff_ffff
                  then r == Trapped
                  else r.Done? && r.value.amountOut == after - before && r.value.paidOut == after && r.value.payee == payee
                       && r.value.floor == floor && r.value.want == want && r.value.filled == filled
  {
    hide SwapChecks;
    hide Ledger.SparesAll;
    hide Ledger.Below;
  }

  /** The filler's answer leaves the vault at least what is wanted on top of the XLM it had, breaks no rule of the host,
      and the owner can hold it all. */
  predicate Serves(l: Ledger, vault: Address, xlm: Address, want: int, handed: Ledger, answer: Option<Ledger>, payee: Address) {
    && answer.Some? && handed.SparesAll(answer.value, vault)
    && answer.value.Below(0x8000_0000_0000_0000_0000_0000_0000_0000)
    && answer.value.Balance(xlm, vault) >= l.Balance(xlm, vault) + want
    && (payee == vault
        || answer.value.Balance(xlm, payee) + answer.value.Balance(xlm, vault) <= 0x7fff_ffff_ffff_ffff_ffff_ffff_ffff_ffff)
  }

  /** From the call to the answer: a swap succeeds exactly when it is funded and its floor known, at least the delivery
      minimum is wanted, the input can be handed over, and the filler's answer to that serves it. */
  lemma SwapIff(net: Network, h: HostState, this_: Address, invoker: Address, s: SwapArgs, code: FillerCode)
    requires TimesFit(h)
    ensures var handed := h.ledger.Transfer(s.config.usdc, this_, s.filler, s.amount);
            Swap(net, h, this_, invoker, s, code).Done? <==>
              && Floored(net, h, this_, invoker, s) && Wanted(h, s) >= s.config.minDelivery
              && Callable(s.config.xlm, this_, s.factory) && Callable(s.filler, this_, s.factory) && handed.Some?
              && Serves(h.ledger, this_, s.config.xlm, Wanted(h, s), handed.value,
                        code(handed.value, FillCall(this_, s.config.usdc, s.amount, s.config.xlm, Wanted(h, s), s.data)),
                        net.parse(s.owner).value)
  {
    SwapChecksIff(net, h, this_, invoker, s);
    SwapSucceedsIff(net, h, this_, invoker, s, code);
    hide Swap;
    hide SwapChecks;
    hide BothAvailable;
    hide Priced;
    hide Fits;
    hide Wanted;
    hide Ledger.SparesAll;
    hide Ledger.Below;
    hide Network.Derive;
  }

  /** `withdraw` succeeds exactly on the signature of the account the strkey names, for a token of which something is
      held and which that account can hold; it moves all of it. */
  lemma WithdrawIff(net: Network, l: Ledger, this_: Address, signers: set<Address>, owner: bytes, factory: Address, token: Address)
    ensures var r := Withdraw(net, l, this_, signers, owner, factory, token);
            var held := l.Balance(token, this_);
            var signed := net.Derive(factory, owner) == this_ && net.parse(owner).Some? && net.parse(owner).value in signers
                          && token.Contract? && token != this_;
            && (r == Failed(NotThisVault) <==> net.Derive(factory, owner) != this_)
            && (r == Failed(NothingToWithdraw) <==> signed && held == 0)
            && (r.Done? <==>
                  && signed && held > 0
                  && (net.parse(owner).value == this_
                      || l.Balance(token, net.parse(owner).value) + held <= 0x7fff_ffff_ffff_ffff_ffff_ffff_ffff_ffff))
            && (r.Done? ==>
                  && r.value.1 == net.parse(owner).value && r.value.2 == held
                  && forall t, x ::
                       r.value.0.Balance(t, x) ==
                       if t != token || net.parse(owner).value == this_ then l.Balance(t, x)
                       else if x == this_ then 0
                       else if x == net.parse(owner).value then l.Balance(t, x) + held
                       else l.Balance(t, x))
  {
    hide Network.Derive;
  }

  /** A fill is held to the floor at the configured discount, from prices no older than the configured age. */
  lemma SwapIsHeldToTheFloor(net: Network, h: HostState, this_: Address, invoker: Address, s: SwapArgs, code: FillerCode)
    requires Swap(net, h, this_, invoker, s, code).Done?
    requires TimesFit(h)
    ensures var out := Swap(net, h, this_, invoker, s, code).value;
            var xlm, usdc := (s.config.oracle, s.config.xlmAsset), (s.config.oracle, s.config.usdcAsset);
            && xlm in h.feeds && usdc in h.feeds && h.feeds[xlm].price > 0 && h.feeds[usdc].price > 0
            && h.now - s.config.maxPriceAge <= h.feeds[xlm].timestamp <= h.now + 60
            && h.now - s.config.maxPriceAge <= h.feeds[usdc].timestamp <= h.now + 60
            && s.config.maxPriceAge <= 900 && s.config.discountPpm <= 100_000 && s.amount > 0
            && out.floor.floor == ExactFloor(s.amount, h.feeds[usdc].price, h.feeds[xlm].price, s.config.discountPpm)
            && out.want == Max(s.minOut, out.floor.floor) && out.amountOut >= out.want
  {
    SwapChecksIff(net, h, this_, invoker, s);
    SwapSucceedsIff(net, h, this_, invoker, s, code);
    hide Swap;
    hide SwapChecks;
    hide ExactFloor;
    hide Fits;
  }

  /** So it never beats the owner down by more than the 10 % cap against prices at most 15 minutes old. */
  lemma SwapRespectsTheMarket(net: Network, h: HostState, this_: Address, invoker: Address, s: SwapArgs, code: FillerCode)
    requires Swap(net, h, this_, invoker, s, code).Done?
    requires TimesFit(h)
    ensures var out := Swap(net, h, this_, invoker, s, code).value;
            var xlm, usdc := (s.config.oracle, s.config.xlmAsset), (s.config.oracle, s.config.usdcAsset);
            && xlm in h.feeds && usdc in h.feeds
            && h.now - 900 <= h.feeds[xlm].timestamp <= h.now + 60
            && h.now - 900 <= h.feeds[usdc].timestamp <= h.now + 60
            && h.feeds[xlm].price > 0 && h.feeds[usdc].price > 0 && out.amountOut >= 0
            && 10 * h.feeds[xlm].price * (out.amountOut + 1) > 9 * s.amount * h.feeds[usdc].price
  {
    hide Swap;
    hide ExactFloor;
    SwapIsHeldToTheFloor(net, h, this_, invoker, s, code);
    FloorWithinTenPercent(s.amount, h.feeds[(s.config.oracle, s.config.usdcAsset)].price,
                          h.feeds[(s.config.oracle, s.config.xlmAsset)].price, s.config.discountPpm,
                          Swap(net, h, this_, invoker, s, code).value.amountOut);
  }

  lemma FloorWithinTenPercent(amount: nat, pu: nat, px: nat, discountPpm: nat, out: nat)
    requires px > 0 && discountPpm <= DISCOUNT_CAP_PPM
    requires out >= ExactFloor(amount, pu, px, discountPpm)
    ensures 10 * px * (out + 1) > 9 * amount * pu
  {
    var n, d := amount * pu * (PPM - discountPpm), px * PPM;
    DivBounds(n, d);
    MulMono(n / d + 1, out + 1, d);
    MulMono(900_000, PPM - discountPpm, amount * pu);
    assert (out + 1) * d == px * (out + 1) * PPM;
    assert amount * pu * 900_000 < px * (out + 1) * PPM;
  }

  /** More USDC or a dearer USDC never lowers the floor; a dearer XLM or a larger discount never raises it. */
  lemma FloorIsMonotone(a1: nat, a2: nat, pu1: nat, pu2: nat, px1: nat, px2: nat, d1: nat, d2: nat)
    requires a1 <= a2 && pu1 <= pu2 && 0 < px2 <= px1 && d2 <= d1 <= PPM
    ensures ExactFloor(a1, pu1, px1, d1) <= ExactFloor(a2, pu2, px2, d2)
  {
    var n1, n2 := a1 * pu1 * (PPM - d1), a2 * pu2 * (PPM - d2);
    var m1, m2 := px1 * PPM, px2 * PPM;
    assert n1 <= n2 by {
      MulMono(a1, a2, pu1);
      MulMono(pu1, pu2, a2);
      MulMono(a1 * pu1, a2 * pu2, PPM - d1);
      MulMono(PPM - d1, PPM - d2, a2 * pu2);
    }
    DivBounds(n1, m1);
    DivBounds(n2, m2);
    if n1 / m1 > n2 / m2 {
      MulMono(n2 / m2 + 1, n1 / m1, m2);
      MulMono(m2, m1, n1 / m1);
    }
  }

  function Sum(parts: seq<nat>): nat {
    if parts == [] then 0 else Sum(parts[..|parts| - 1]) + parts[|parts| - 1]
  }

  function FloorSum(parts: seq<nat>, pu: nat, px: nat, d: nat): nat
    requires px > 0 && d <= PPM
  {
    if parts == [] then 0 else FloorSum(parts[..|parts| - 1], pu, px, d) + ExactFloor(parts[|parts| - 1], pu, px, d)
  }

  /** Settling in `k` partial swaps at the same prices costs the owner at most `k - 1` stroops of floor, and gains none. */
  lemma {:induction false} BatchingLosesAtMost(parts: seq<nat>, pu: nat, px: nat, d: nat)
    requires parts != [] && px > 0 && d <= PPM
    ensures FloorSum(parts, pu, px, d) <= ExactFloor(Sum(parts), pu, px, d) <= FloorSum(parts, pu, px, d) + |parts| - 1
  {
    var last, rest := parts[|parts| - 1], parts[..|parts| - 1];
    if rest == [] {
      assert Sum(parts) == last;
    } else {
      BatchingLosesAtMost(rest, pu, px, d);
      SplitFloor(Sum(rest), last, pu, px, d);
    }
  }

  lemma SplitFloor(a: nat, b: nat, pu: nat, px: nat, d: nat)
    requires px > 0 && d <= PPM
    ensures ExactFloor(a, pu, px, d) + ExactFloor(b, pu, px, d) <= ExactFloor(a + b, pu, px, d)
            <= ExactFloor(a, pu, px, d) + ExactFloor(b, pu, px, d) + 1
  {
    var k, m := pu * (PPM - d), px * PPM;
    assert a * pu * (PPM - d) == a * k && b * pu * (PPM - d) == b * k;
    assert (a + b) * pu * (PPM - d) == a * k + b * k;
    SplitQuotient(a * k, b * k, m);
  }

  lemma SplitQuotient(x: nat, y: nat, m: nat)
    requires m > 0
    ensures Quotient(x, m) + Quotient(y, m) <= Quotient(x + y, m) <= Quotient(x, m) + Quotient(y, m) + 1
  {
    DivBounds(x, m);
    DivBounds(y, m);
    SumQuotient(x, y, m, Quotient(x, m), Quotient(y, m));
  }

  lemma SumQuotient(x: nat, y: nat, m: nat, p: nat, q: nat)
    requires m > 0
    requires p * m <= x < (p + 1) * m && q * m <= y < (q + 1) * m
    ensures p + q <= Quotient(x + y, m) <= p + q + 1
  {
    var a, b := p * m, q * m;
    assert (p + 1) * m == a + m && (q + 1) * m == b + m;
    assert (p + q) * m == a + b && (p + q + 1) * m == a + b + m && (p + q + 2) * m == a + b + m + m;
    if x + y < a + b + m {
      DivUnique(x + y, m, p + q);
    } else {
      DivUnique(x + y, m, p + q + 1);
    }
  }

  // --- What an address commits ---

  /** Two (factory, owner) pairs that break the hash: their strkeys collide, or their preimages do. */
  predicate Clash(net: Network, f1: Address, o1: bytes, f2: Address, o2: bytes) {
    Collides(net.sha256, o1, o2) || Collides(net.sha256, net.Preimage(f1, o1), net.Preimage(f2, o2))
  }

  /** Two pairs that derive to one vault are the same pair, or exhibit a hash collision. */
  lemma VaultAddressCommits(net: Network, f1: Address, o1: bytes, f2: Address, o2: bytes)
    requires net.HashesTo32() && net.Derive(f1, o1) == net.Derive(f2, o2)
    ensures (f1 == f2 && o1 == o2) || Clash(net, f1, o1, f2, o2)
  {
    assert Digest(net.sha256(o1)) && Digest(net.sha256(o2));
    hide XdrAddress;
    hide ContractIdPreimage;
    if net.Preimage(f1, o1) == net.Preimage(f2, o2) {
      ContractIdPreimageInjective(net.id, XdrAddress(f1), net.sha256(o1), net.id, XdrAddress(f2), net.sha256(o2));
      XdrAddressInjective(f1, f2);
    }
  }

  /** A filler may hand USDC back: for any network, owner, filler, oracle and tokens there is a swap of ten USDC against
      the filler's own ten XLM that debits less, no token created or lost. */
  lemma RefundingFillerIsPossible(net: Network, factory: Address, owner: bytes, filler: Address, usdc: Address, xlm: Address,
                                  oracle: Address)
    returns (h: HostState, s: SwapArgs, code: FillerCode)
    requires net.parse(owner).Some? && usdc != xlm
    requires forall a :: a in {filler, usdc, xlm, oracle} ==> Callable(a, net.Derive(factory, owner), factory)
    ensures Swap(net, h, net.Derive(factory, owner), factory, s, code).Done?
    ensures h.ledger == Ledger(map[(usdc, net.Derive(factory, owner)) := 10, (xlm, filler) := 10])
    ensures forall l, c :: code(l, c) == Some(Ledger(map[(usdc, filler) := 9, (usdc, net.Derive(factory, owner)) := 1,
                                                         (xlm, filler) := 0, (xlm, net.Derive(factory, owner)) := 10]))
    ensures s.owner == owner && s.filler == filler && s.amount == 10
    ensures s.config.usdc == usdc && s.config.xlm == xlm && s.config.oracle == oracle
    ensures !DebitIsAmount(net, h, net.Derive(factory, owner), factory, s, code)
  {
    var vault := net.Derive(factory, owner);
    var before := Ledger(map[(usdc, vault) := 10, (xlm, filler) := 10]);
    var given := Ledger(map[(usdc, filler) := 9, (usdc, vault) := 1, (xlm, filler) := 0, (xlm, vault) := 10]);
    code := (_, _) => Some(given);
    var c := FillCall(vault, usdc, 10, xlm, 10, NotARoute);
    assert Callable(filler, vault, factory) && Callable(usdc, vault, factory) && Callable(xlm, vault, factory);
    assert Callable(oracle, vault, factory);
    GivenIsAnAnswer(before, given, usdc, xlm, vault, filler, c, code);
    hide HostCall;
    hide Callable;
    assert Refunds(net, code, before, filler, owner, factory, c);
    hide Refunds;
    h, s := RefundShortensADebit(net, code, before, filler, owner, factory, c, oracle);
  }

  lemma GivenIsAnAnswer(before: Ledger, given: Ledger, usdc: Address, xlm: Address, vault: Address, filler: Address,
                        c: FillCall, code: FillerCode)
    requires usdc != xlm && filler != vault
    requires before == Ledger(map[(usdc, vault) := 10, (xlm, filler) := 10])
    requires given == Ledger(map[(usdc, filler) := 9, (usdc, vault) := 1, (xlm, filler) := 0, (xlm, vault) := 10])
    requires forall l, d :: code(l, d) == Some(given)
    ensures before.Transfer(usdc, vault, filler, 10).Some?
    ensures HostCall(code, before.Transfer(usdc, vault, filler, 10).value, c, vault) == Some(given)
  {
    var handed := before.Transfer(usdc, vault, filler, 10).value;
    assert handed.balances == map[(usdc, vault) := 0, (xlm, filler) := 10, (usdc, filler) := 10];
    assert handed.SparesAll(given, vault);
    assert given.Below(I128_MAX + 1);
  }

  // --- The contract, step by step ---

  /** The host's mutable side during an invocation. */
  class Host {
    var ledger: Ledger
    var feeds: map<(Address, nat), PriceData>
    var now: nat
    var codes: map<Address, nat>

    constructor (h: HostState, codes: map<Address, nat>)
      ensures State() == h && this.codes == codes
    {
      ledger, feeds, now := h.ledger, h.feeds, h.now;
      this.codes := codes;
    }

    function State(): HostState
      reads this
    {
      HostState(ledger, feeds, now)
    }

    /** A token's `transfer`. */
    method Transfer(token: Address, from: Address, to: Address, amount: int) returns (ok: bool)
      modifies this`ledger
      ensures ok == old(ledger.Transfer(token, from, to, amount)).Some?
      ensures ledger == if ok then old(ledger.Transfer(token, from, to, amount)).value else old(ledger)
    {
      var r := ledger.Transfer(token, from, to, amount);
      ok := r.Some?;
      if ok { ledger := r.value; }
    }
  }

  /** `Vault::swap`: returns the XLM delivered; any failure leaves every balance as it was. */
  method DoSwap(net: Network, host: Host, this_: Address, invoker: Address, s: SwapArgs, code: FillerCode)
    returns (r: Outcome<int>)
    modifies host`ledger
    ensures match old(Swap(net, host.State(), this_, invoker, s, code))
            case Done(out) => r == Done(out.amountOut) && host.ledger == out.ledger
            case Failed(e) => r == Failed(e) && host.ledger == old(host.ledger)
            case Trapped => r == Trapped && host.ledger == old(host.ledger)
  {
    hide OracleFloor;
    hide Filled;
    var saved := host.ledger;
    var identity := RequireThisVault(net, this_, s.owner, s.factory);
    if identity.Failed? { return Failed(identity.error); }
    if identity.Trapped? { return Trapped; }
    var owner := identity.value;
    if invoker != s.factory { return Trapped; }
    if s.amount <= 0 { return Failed(InvalidAmount); }
    if !Callable(s.config.usdc, this_, s.factory) { return Trapped; }
    if s.amount > host.ledger.Balance(s.config.usdc, this_) { return Failed(InsufficientBalance); }
    var priced := OracleFloor(host.State(), this_, s.factory, s.config, s.amount);
    if priced.Failed? { return Failed(priced.error); }
    if priced.Trapped? { return Trapped; }
    var want := if s.minOut > priced.value.floor then s.minOut else priced.value.floor;
    if want < s.config.minDelivery { return Failed(BelowMinDelivery); }
    if !Callable(s.config.xlm, this_, s.factory) { return Trapped; }

    var before: int := host.ledger.Balance(s.config.xlm, this_);
    var ok := CallFiller(host, this_, s, want, code);
    if !ok {
      host.ledger := saved;
      return Trapped;
    }
    var after: int := host.ledger.Balance(s.config.xlm, this_);
    var delta := after - before;
    if delta < want {
      host.ledger := saved;
      return Failed(FillShortfall);
    }
    ok := host.Transfer(s.config.xlm, this_, owner, after);
    if !ok {
      host.ledger := saved;
      return Trapped;
    }
    return Done(delta);
  }

  /** The hand-over of the USDC and the filler's own invocation. */
  method CallFiller(host: Host, this_: Address, s: SwapArgs, want: int, code: FillerCode) returns (ok: bool)
    requires s.amount > 0
    modifies host`ledger
    ensures ok == old(Filled(host.ledger, this_, s, want, code)).Some?
    ensures ok ==> host.ledger == old(Filled(host.ledger, this_, s, want, code)).value
  {
    ok := host.Transfer(s.config.usdc, this_, s.filler, s.amount);
    if !ok { return false; }
    if !Callable(s.filler, this_, s.factory) { return false; }
    var r := HostCall(code, host.ledger, FillCall(this_, s.config.usdc, s.amount, s.config.xlm, want, s.data), this_);
    if r.None? { return false; }
    host.ledger := r.value;
  }

  /** `Vault::withdraw`: the whole balance of a token, to the owner, on the owner's signature. */
  method DoWithdraw(net: Network, host: Host, this_: Address, signers: set<Address>, owner: bytes, factory: Address,
                    token: Address)
    returns (r: Outcome<nat>)
    modifies host`ledger
    ensures match old(Withdraw(net, host.ledger, this_, signers, owner, factory, token))
            case Done((m, _, amount)) => r == Done(amount) && host.ledger == m
            case Failed(e) => r == Failed(e) && host.ledger == old(host.ledger)
            case Trapped => r == Trapped && host.ledger == old(host.ledger)
  {
    var identity := RequireThisVault(net, this_, owner, factory);
    if identity.Failed? { return Failed(identity.error); }
    if identity.Trapped? { return Trapped; }
    if identity.value !in signers { return Trapped; }
    if !token.Contract? || token == this_ { return Trapped; }
    var amount := host.ledger.Balance(token, this_);
    if amount <= 0 { return Failed(NothingToWithdraw); }
    var ok := host.Transfer(token, this_, identity.value, amount);
    if !ok { return Trapped; }
    return Done(amount);
  }
}
