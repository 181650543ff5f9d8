/** `stellar/contracts/vault-factory/src/lib.rs`: one factory per network, the only caller of `Vault::swap`. Its admin
    moves three things (the admin itself, the relayer set, the discount); everything else is fixed at construction. */
module VaultFactories {
  import opened Basics
  import opened Layout
  import opened Soroban
  import opened Vaults

  datatype FactoryError = NotRelayer | InvalidConfig | AboveCap

  datatype FactoryState = FactoryState(admin: Address, config: VaultConfig, discount: Option<nat>, relayers: set<Address>)

  datatype AdminCall =
    | SetRelayer(who: Address, enabled: bool)
    | SetDiscount(ppm: nat)
    | SetAdmin(newAdmin: Address)

  /** A swap through the factory fails as the vault fails, for want of an enabled relayer, or in the host. */
  datatype SwapOutcome =
    | Delivered(out: Swapped, codes: map<Address, nat>)
    | VaultRefused(error: VaultError)
    | FactoryRefused(reason: FactoryError)
    | Stopped
  {
    /** What the caller is handed back: the XLM delivered, or the failure. */
    function Returned(): SwapReturn {
      match this
      case Delivered(out, _) => Amount(out.amountOut)
      case VaultRefused(e) => VaultFailed(e)
      case FactoryRefused(e) => FactoryFailed(e)
      case Stopped => HostFailed
    }
  }

  datatype SwapReturn = Amount(amountOut: int) | VaultFailed(error: VaultError) | FactoryFailed(reason: FactoryError) | HostFailed

  datatype SwapRequest = SwapRequest(relayer: Address, owner: bytes, amount: Option<int>, filler: Address, minOut: int,
                                     data: RouteData)

  /** What the constructor insists on. */
  predicate Constructible(c: VaultConfig) {
    UsableConfig(c) && c.oracle != c.usdc && c.oracle != c.xlm
  }

  function Constructed(admin: Address, c: VaultConfig): FactoryState {
    FactoryState(admin, c, None, {})
  }

  /** The admin calls; `None` is a failure, which changes nothing. */
  function Administer(s: FactoryState, signers: set<Address>, call: AdminCall): Option<FactoryState> {
    if s.admin !in signers then None
    else match call
      case SetRelayer(who, enabled) => Some(s.(relayers := if enabled then s.relayers + {who} else s.relayers - {who}))
      case SetDiscount(ppm) => if ppm > DISCOUNT_CAP_PPM then None else Some(s.(discount := Some(ppm)))
      case SetAdmin(newAdmin) => if newAdmin in signers then Some(s.(admin := newAdmin)) else None
  }

  function AfterAdmin(s: FactoryState, calls: seq<(set<Address>, AdminCall)>): FactoryState {
    if calls == [] then s
    else
      var k := |calls| - 1;
      var t := AfterAdmin(s, calls[..k]);
      match Administer(t, calls[k].0, calls[k].1) case None => t case Some(r) => r
  }

  /** `read_config`: the constructor's values with the admin-set discount, if any. */
  function ReadConfig(s: FactoryState): VaultConfig {
    match s.discount case None => s.config case Some(ppm) => s.config.(discountPpm := ppm)
  }

  /** `deploy`: the address the owner's strkey derives to, with vault code at it. */
  function Deploy(net: Network, self: Address, s: FactoryState, codes: map<Address, nat>, owner: bytes)
    : Option<(map<Address, nat>, Address)>
  {
    if net.parse(owner).None? then None
    else
      var address := net.Derive(self, owner);
      Some((if address in codes then codes else codes[address := s.config.vaultWasmHash], address))
  }

  /** The vault call a request turns into. */
  function VaultArgs(self: Address, s: FactoryState, l: Ledger, vault: Address, q: SwapRequest): SwapArgs {
    var config := ReadConfig(s);
    SwapArgs(q.owner, self, q.filler, if q.amount.Some? then q.amount.value else l.Balance(config.usdc, vault), q.minOut,
             q.data, config)
  }

  /** `swap` and `settle`. */
  function RelayedSwap(net: Network, self: Address, s: FactoryState, h: HostState, codes: map<Address, nat>, signers: set<Address>,
                q: SwapRequest, code: FillerCode): SwapOutcome
  {
    if q.relayer !in signers then Stopped
    else if q.relayer !in s.relayers then FactoryRefused(NotRelayer)
    else match Deploy(net, self, s, codes, q.owner)
      case None => Stopped
      case Some((deployed, vault)) =>
        match Vaults.Swap(net, h, vault, self, VaultArgs(self, s, h.ledger, vault, q), code)
        case Done(out) => Delivered(out, deployed)
        case Failed(e) => VaultRefused(e)
        case Trapped => Stopped
  }

  // --- What each entry point does ---

  /** Only the admin's signature moves anything, a discount stays within a tenth and a new admin signs too; then exactly
      the thing the call names is moved. */
  lemma AdministerDoes(s: FactoryState, signers: set<Address>, call: AdminCall)
    ensures var r := Administer(s, signers, call);
            && (r.Some? <==>
                  && s.admin in signers
                  && (call.SetDiscount? ==> call.ppm <= 100_000)
                  && (call.SetAdmin? ==> call.newAdmin in signers))
            && (r.Some? ==>
                  && r.value.config == s.config
                  && r.value.admin == (if call.SetAdmin? then call.newAdmin else s.admin)
                  && r.value.discount == (if call.SetDiscount? then Some(call.ppm) else s.discount)
                  && forall x :: x in r.value.relayers <==>
                                 if call.SetRelayer? && x == call.who then call.enabled else x in s.relayers)
  {
  }

  /** The discount a state puts in force. */
  function Discount(s: FactoryState): nat {
    if s.discount.Some? then s.discount.value else s.config.discountPpm
  }

  /** The vault is handed what the request says, the whole USDC balance if it names no amount, and the constructor's
      config at the discount in force. */
  lemma VaultIsHanded(self: Address, s: FactoryState, l: Ledger, vault: Address, q: SwapRequest)
    ensures var a := VaultArgs(self, s, l, vault, q);
            && a.owner == q.owner && a.factory == self && a.filler == q.filler && a.minOut == q.minOut && a.data == q.data
            && (q.amount.Some? ==> a.amount == q.amount.value)
            && (q.amount.None? ==> a.amount == l.Balance(s.config.usdc, vault))
            && a.config == s.config.(discountPpm := Discount(s))
  {
  }

  /** An accepted `set_discount` is the discount of the next swap; no other admin call moves it. */
  lemma DiscountReachesTheVault(self: Address, s: FactoryState, signers: set<Address>, call: AdminCall, l: Ledger,
                                vault: Address, q: SwapRequest)
    requires Administer(s, signers, call).Some?
    ensures VaultArgs(self, Administer(s, signers, call).value, l, vault, q).config ==
            if call.SetDiscount? then s.config.(discountPpm := call.ppm) else VaultArgs(self, s, l, vault, q).config
  {
  }

  /** Any well-formed owner's vault stands after a deployment, where the network derives it from the factory and the hash
      of the strkey; what stood there or elsewhere before still does. */
  lemma DeployDoes(net: Network, self: Address, s: FactoryState, codes: map<Address, nat>, owner: bytes)
    ensures var r := Deploy(net, self, s, codes, owner);
            && (r.Some? <==> net.parse(owner).Some?)
            && (r.Some? ==>
                  var (after, vault) := r.value;
                  && vault == Contract(net.sha256(ContractIdPreimage(net.id, XdrAddress(self), net.sha256(owner))))
                  && after.Keys == codes.Keys + {vault}
                  && (forall x :: x in codes ==> after[x] == codes[x])
                  && (vault !in codes ==> after[vault] == s.config.vaultWasmHash))
  {
  }

  /** A swap needs the signature of an enabled relayer and a well-formed owner; past that it is the vault's own swap,
      called by the factory, and a vault that refuses leaves no deployment behind. */
  lemma RelayedSwapIs(net: Network, self: Address, s: FactoryState, h: HostState, codes: map<Address, nat>, signers: set<Address>,
                      q: SwapRequest, code: FillerCode)
    ensures var r, vault := RelayedSwap(net, self, s, h, codes, signers, q, code), net.Derive(self, q.owner);
            var swap := Swap(net, h, vault, self, VaultArgs(self, s, h.ledger, vault, q), code);
            var admitted := q.relayer in signers && q.relayer in s.relayers && net.parse(q.owner).Some?;
            && (r == FactoryRefused(NotRelayer) <==> q.relayer in signers && q.relayer !in s.relayers)
            && (r.Delivered? <==> admitted && swap.Done?)
            && (r.Delivered? ==> r.out == swap.value && Some((r.codes, vault)) == Deploy(net, self, s, codes, q.owner))
            && (forall e :: r == VaultRefused(e) <==> admitted && swap == Failed(e))
            && (r.Delivered? ==> r.Returned() == Amount(swap.value.amountOut))
            && (r.Returned() == FactoryFailed(NotRelayer) <==> r == FactoryRefused(NotRelayer))
            && (forall e :: r.Returned() == VaultFailed(e) <==> r == VaultRefused(e))
  {
    hide Vaults.Swap;
    hide Network.Derive;
    hide VaultArgs;
  }

  /** A relayed swap delivers exactly when the relayer is enabled and signs, the request is funded and its floor known, at
      least the delivery minimum is wanted, and the filler's answer to the hand-over serves it. */
  lemma DeliversIff(net: Network, self: Address, s: FactoryState, h: HostState, codes: map<Address, nat>, signers: set<Address>,
                    q: SwapRequest, code: FillerCode)
    requires TimesFit(h)
    ensures var vault := net.Derive(self, q.owner);
            var a := VaultArgs(self, s, h.ledger, vault, q);
            var handed := h.ledger.Transfer(s.config.usdc, vault, q.filler, a.amount);
            RelayedSwap(net, self, s, h, codes, signers, q, code).Delivered? <==>
              && q.relayer in signers && q.relayer in s.relayers
              && Floored(net, h, vault, self, a) && Wanted(h, a) >= s.config.minDelivery
              && Callable(s.config.xlm, vault, self) && Callable(q.filler, vault, self) && handed.Some?
              && Serves(h.ledger, vault, s.config.xlm, Wanted(h, a), handed.value,
                        code(handed.value, FillCall(vault, s.config.usdc, a.amount, s.config.xlm, Wanted(h, a), q.data)),
                        net.parse(q.owner).value)
  {
    var vault := net.Derive(self, q.owner);
    var a := VaultArgs(self, s, h.ledger, vault, q);
    VaultIsHanded(self, s, h.ledger, vault, q);
    RelayedSwapIs(net, self, s, h, codes, signers, q, code);
    SwapIff(net, h, vault, self, a, code);
    hide Vaults.Swap;
    hide VaultArgs;
    hide RelayedSwap;
    hide Serves;
    hide Wanted;
    hide Priced;
    hide Fits;
    hide Network.Derive;
  }

  predicate Sound(c: VaultConfig, s: FactoryState) {
    && Constructible(c)
    && s.config == c
    && (s.discount.Some? ==> s.discount.value <= DISCOUNT_CAP_PPM)
  }

  lemma AdministerKeeps(c: VaultConfig, s: FactoryState, signers: set<Address>, call: AdminCall)
    requires Sound(c, s) && Administer(s, signers, call).Some?
    ensures Sound(c, Administer(s, signers, call).value)
  {
  }

  /** However the admins act, the config handed to vaults passes every check vaults make, and differs from the
      constructor's in the discount alone. */
  lemma {:induction false} ConfigStaysUsable(admin: Address, c: VaultConfig, calls: seq<(set<Address>, AdminCall)>)
    requires Constructible(c)
    ensures var s := AfterAdmin(Constructed(admin, c), calls);
            && Sound(c, s)
            && UsableConfig(ReadConfig(s))
            && ReadConfig(s).(discountPpm := c.discountPpm) == c
            && ReadConfig(s).discountPpm <= DISCOUNT_CAP_PPM
  {
    if calls != [] {
      var k := |calls| - 1;
      ConfigStaysUsable(admin, c, calls[..k]);
      var t := AfterAdmin(Constructed(admin, c), calls[..k]);
      if Administer(t, calls[k].0, calls[k].1).Some? {
        AdministerKeeps(c, t, calls[k].0, calls[k].1);
      }
    }
  }

  /** So no factory swap ever fails with the vault's `InvalidConfig`, nor for an owner or factory that do not derive to
      the vault. */
  lemma FactorySwapNeverMisconfigured(c: VaultConfig, net: Network, self: Address, s: FactoryState, h: HostState,
                                      codes: map<Address, nat>, signers: set<Address>, q: SwapRequest, code: FillerCode)
    requires Sound(c, s)
    ensures var r := RelayedSwap(net, self, s, h, codes, signers, q, code);
            r != VaultRefused(VaultError.InvalidConfig) && r != VaultRefused(NotThisVault)
  {
  }

  /** The contract itself. */
  class VaultFactory {
    const self: Address
    const net: Network
    var admin: Address
    var config: VaultConfig
    var discount: Option<nat>
    var relayers: set<Address>

    function View(): FactoryState
      reads this
    {
      FactoryState(admin, config, discount, relayers)
    }

    /** `__constructor`; a config it refuses leaves no instance. */
    constructor (self: Address, net: Network, admin: Address, config: VaultConfig)
      requires Constructible(config)
      ensures this.self == self && this.net == net
      ensures View() == Constructed(admin, config)
      ensures this.admin == admin && this.config == config && discount == None && relayers == {}
    {
      this.self, this.net := self, net;
      this.admin, this.config, discount, relayers := admin, config, None, {};
    }

    /** The refusal itself: who may not be constructed. */
    static method CheckConfig(config: VaultConfig) returns (r: Option<FactoryError>)
      ensures r == if Constructible(config) then None else Some(FactoryError.InvalidConfig)
      ensures r.None? <==>
              && config.discountPpm <= 100_000 && 1 <= config.maxPriceAge <= 900 && config.minDelivery >= 1
              && config.usdc != config.xlm && config.oracle != config.usdc && config.oracle != config.xlm
    {
      if config.discountPpm > DISCOUNT_CAP_PPM
        || config.maxPriceAge == 0
        || config.maxPriceAge > MAX_PRICE_AGE_CAP
        || config.minDelivery <= 0
        || config.usdc == config.xlm
        || config.oracle == config.usdc
        || config.oracle == config.xlm
      {
        return Some(FactoryError.InvalidConfig);
      }
      return None;
    }

    method SetRelayer(signers: set<Address>, who: Address, enabled: bool) returns (ok: bool)
      modifies this
      ensures var r := old(Administer(View(), signers, AdminCall.SetRelayer(who, enabled)));
              ok == r.Some? && View() == if ok then r.value else old(View())
    {
      if admin !in signers { return false; }
      if enabled {
        relayers := relayers + {who};
      } else {
        relayers := relayers - {who};
      }
      return true;
    }

    method SetDiscount(signers: set<Address>, ppm: nat) returns (ok: bool)
      modifies this
      ensures var r := old(Administer(View(), signers, AdminCall.SetDiscount(ppm)));
              ok == r.Some? && View() == if ok then r.value else old(View())
    {
      if admin !in signers { return false; }
      if ppm > DISCOUNT_CAP_PPM { return false; }
      discount := Some(ppm);
      return true;
    }

    method SetAdmin(signers: set<Address>, newAdmin: Address) returns (ok: bool)
      modifies this
      ensures var r := old(Administer(View(), signers, AdminCall.SetAdmin(newAdmin)));
              ok == r.Some? && View() == if ok then r.value else old(View())
    {
      if admin !in signers { return false; }
      if newAdmin !in signers { return false; }
      admin := newAdmin;
      return true;
    }

    method DoDeploy(host: Host, owner: bytes) returns (r: Option<Address>)
      modifies host`codes
      ensures var d := old(Deploy(net, self, View(), host.codes, owner));
              && r.Some? == d.Some?
              && (r.Some? ==> r.value == d.value.1)
              && host.codes == if d.Some? then d.value.0 else old(host.codes)
    {
      var parsed := net.parse(owner);
      if parsed.None? { return None; }
      var address := net.Derive(self, owner);
      if address in host.codes { return Some(address); }
      host.codes := host.codes[address := config.vaultWasmHash];
      return Some(address);
    }

    /** `swap`: deploys if needed, then calls the vault; a failure undoes the deployment too. */
    method DoSwap(host: Host, signers: set<Address>, q: SwapRequest, code: FillerCode) returns (r: SwapReturn)
      modifies host`ledger, host`codes
      ensures var o := old(RelayedSwap(net, self, View(), host.State(), host.codes, signers, q, code));
              && r == o.Returned()
              && host.ledger == (if o.Delivered? then o.out.ledger else old(host.ledger))
              && host.codes == (if o.Delivered? then o.codes else old(host.codes))
    {
      hide Vaults.Swap;
      if q.relayer !in signers { return HostFailed; }
      if q.relayer !in relayers { return FactoryFailed(NotRelayer); }
      var saved := host.codes;
      var cfg := ReadConfig(View());
      var vault := DoDeploy(host, q.owner);
      if vault.None? { return HostFailed; }
      var amount := match q.amount case Some(v) => v case None => host.ledger.Balance(cfg.usdc, vault.value);
      var s := SwapArgs(q.owner, self, q.filler, amount, q.minOut, q.data, cfg);
      var delivered := Vaults.DoSwap(net, host, vault.value, self, s, code);
      match delivered {
        case Done(amountOut) => return Amount(amountOut);
        case Failed(e) => host.codes := saved; return VaultFailed(e);
        case Trapped => host.codes := saved; return HostFailed;
      }
    }
  }
}
