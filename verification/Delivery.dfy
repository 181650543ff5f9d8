/** Whole runs of the delivery protocol: admins, relayers, fillers, oracles, other contracts and owners acting in any
    order on one network, and calling each other while a filler has its turn. */
module Delivery {
  import opened Basics
  import opened Layout
  import opened Soroban
  import opened Vaults
  import F = VaultFactories

  /** The fixed background: the network's functions and the factory's address. */
  datatype Scene = Scene(net: Network, factory: Address)

  datatype World = World(state: F.FactoryState, ledger: Ledger, codes: map<Address, nat>,
                         feeds: map<(Address, nat), PriceData>, now: nat)

  /** One call by anyone. A swap brings what is done while its filler has its turn: any calls, further swaps included. */
  datatype Action =
    | Admin(signers: set<Address>, call: F.AdminCall)
    | Oracle(feeds: map<(Address, nat), PriceData>)
    | Clock(now: nat)
    | Outside(ledger: Ledger)
    | OutsideDeploy(preimage: bytes, code: nat)
    | DeployVault(owner: bytes)
    | RelayerSwap(signers: set<Address>, q: F.SwapRequest, turn: seq<Action>)
    | DirectSwap(invoker: Address, vault: Address, s: SwapArgs, turn: seq<Action>)
    | DirectWithdraw(vault: Address, signers: set<Address>, owner: bytes, factory: Address, token: Address)

  function VaultOf(c: Scene, owner: bytes): Address {
    c.net.Derive(c.factory, owner)
  }

  function HostOf(w: World): HostState {
    HostState(w.ledger, w.feeds, w.now)
  }

  predicate IsVault(w: World, a: Address) {
    a in w.codes && w.codes[a] == w.state.config.vaultWasmHash
  }

  /** Tokens at `a` move only through the vault's own functions: vault code runs there, or nothing does yet. */
  predicate VaultLike(w: World, a: Address) {
    a.Contract? && (a in w.codes ==> IsVault(w, a))
  }

  /** A vault signs for nothing, so code other than its own takes nothing from it. */
  predicate SparesVaultLike(w: World, m: Ledger) {
    forall k | k in w.ledger.balances.Keys :: VaultLike(w, k.1) ==> m.Balance(k.0, k.1) >= w.ledger.balances[k]
  }

  /** Nothing but vault code is at the address of `owner`'s vault. */
  predicate VaultCodeAt(c: Scene, w: World, owner: bytes) {
    VaultOf(c, owner) in w.codes ==> IsVault(w, VaultOf(c, owner))
  }

  /** How the preimage of every address deployed by the factory begins; only the factory deploys at such. */
  function FactoryPrefix(c: Scene): bytes {
    ContractIdPreimage(c.net.id, XdrAddress(c.factory), [])
  }

  predicate TimestampsFit(feeds: map<(Address, nat), PriceData>) {
    forall k | k in feeds.Keys :: feeds[k].timestamp <= U64_MAX
  }

  // --- Calls within calls ---

  /** A swap under way: the vault and its arguments, what is on the stack during the filler's turn, the world the vault
      was called in, and the outcome. */
  datatype Turn = Turn(vault: Address, s: SwapArgs, stack: set<Address>, world: World, out: Swapped)

  /** The swap an action makes, if the host and all the checks let it through: the factory's entry point and the vault's
      are refused while they are on the stack, the vault runs vault code, and only the factory is the factory's invoker.
      (A swap for an owner whose address foreign code reached by a collision is no vault's.) */
  function SwapOf(c: Scene, stack: set<Address>, w: World, act: Action): Option<Turn>
    requires act.RelayerSwap? || act.DirectSwap?
    decreases act.turn, 2
  {
    match act
    case RelayerSwap(signers, q, turn) =>
      var vault := VaultOf(c, q.owner);
      if c.factory in stack || vault in stack || !VaultCodeAt(c, w, q.owner) then None
      else
        var within := stack + {c.factory, vault};
        var v := w.(codes := if vault in w.codes then w.codes else w.codes[vault := w.state.config.vaultWasmHash]);
        (match F.RelayedSwap(c.net, c.factory, w.state, HostOf(w), w.codes, signers, q, Filler(c, within, v, turn))
         case Delivered(out, _) => Some(Turn(vault, F.VaultArgs(c.factory, w.state, w.ledger, vault, q), within, v, out))
         case _ => None)
    case DirectSwap(invoker, vault, s, turn) =>
      if vault in stack || invoker == c.factory || !IsVault(w, vault) then None
      else
        var within := stack + {invoker, vault};
        (match Swap(c.net, HostOf(w), vault, invoker, s, Filler(c, within, w, turn))
         case Done(out) => Some(Turn(vault, s, within, w, out))
         case _ => None)
  }

  /** The filler, to the vault: whatever ledger its turn leaves. */
  function Filler(c: Scene, stack: set<Address>, w: World, turn: seq<Action>): FillerCode
    decreases turn, 1
  {
    (l: Ledger, call: FillCall) => Some(Play(c, stack, w.(ledger := l), turn).ledger)
  }

  /** Calls one after the other, under `stack`; a run of whole transactions when `stack` is empty. */
  function Play(c: Scene, stack: set<Address>, w: World, acts: seq<Action>): World
    decreases acts, 0
  {
    if acts == [] then w else Step(c, stack, Play(c, stack, w, acts[..|acts| - 1]), acts[|acts| - 1])
  }

  /** The world when the filler gets its turn: the vault's input has been handed over. */
  function Start(t: Turn): World {
    match t.world.ledger.Transfer(t.s.config.usdc, t.vault, t.s.filler, t.s.amount)
    case Some(l) => t.world.(ledger := l)
    case None => t.world
  }

  /** One call; what the host or a contract refuses changes nothing. */
  function Step(c: Scene, stack: set<Address>, w: World, act: Action): World
    decreases act
  {
    match act
    case Admin(signers, call) =>
      if c.factory in stack then w
      else (match F.Administer(w.state, signers, call) case None => w case Some(s) => w.(state := s))
    case Oracle(feeds) => if TimestampsFit(feeds) then w.(feeds := feeds) else w
    case Clock(now) => if stack == {} && now <= U64_MAX then w.(now := now) else w
    case Outside(ledger) => if SparesVaultLike(w, ledger) then w.(ledger := ledger) else w
    case OutsideDeploy(preimage, code) =>
      var at := Contract(c.net.sha256(preimage));
      if at in w.codes || FactoryPrefix(c) <= preimage then w else w.(codes := w.codes[at := code])
    case DeployVault(owner) =>
      if c.factory in stack then w
      else (match F.Deploy(c.net, c.factory, w.state, w.codes, owner)
            case None => w
            case Some((codes, _)) => w.(codes := codes))
    case RelayerSwap(_, _, turn) =>
      (match SwapOf(c, stack, w, act)
       case None => w
       case Some(t) => Play(c, t.stack, Start(t), turn).(ledger := t.out.ledger))
    case DirectSwap(_, _, _, turn) =>
      (match SwapOf(c, stack, w, act)
       case None => w
       case Some(t) => Play(c, t.stack, Start(t), turn).(ledger := t.out.ledger))
    case DirectWithdraw(vault, signers, owner, factory, token) =>
      (match WithdrawalOf(c, stack, w, act) case None => w case Some((ledger, _, _)) => w.(ledger := ledger))
  }

  function WithdrawalOf(c: Scene, stack: set<Address>, w: World, act: Action): Option<(Ledger, Address, nat)>
    requires act.DirectWithdraw?
  {
    if act.vault in stack || !IsVault(w, act.vault) then None
    else match Withdraw(c.net, w.ledger, act.vault, act.signers, act.owner, act.factory, act.token)
         case Done(r) => Some(r)
         case _ => None
  }

  /** A call that was made: on which stack, in which world. */
  datatype Call = Call(stack: set<Address>, world: World, act: Action)

  /** Every call a step makes and keeps: its own, then those of its filler's turn. */
  function CallsOf(c: Scene, stack: set<Address>, w: World, act: Action): seq<Call>
    decreases act
  {
    [Call(stack, w, act)]
    + if act.RelayerSwap? || act.DirectSwap? then
        match SwapOf(c, stack, w, act) case None => [] case Some(t) => CallsIn(c, t.stack, Start(t), act.turn)
      else []
  }

  function CallsIn(c: Scene, stack: set<Address>, w: World, acts: seq<Action>): seq<Call>
    decreases acts
  {
    if acts == [] then []
    else
      var k := |acts| - 1;
      CallsIn(c, stack, w, acts[..k]) + CallsOf(c, stack, Play(c, stack, w, acts[..k]), acts[k])
  }

  /** A swap's step, seen from outside: the vault's own `Swap` against the filler's turn. */
  lemma SwapStep(c: Scene, stack: set<Address>, w: World, act: Action)
    requires act.RelayerSwap? || act.DirectSwap?
    requires SwapOf(c, stack, w, act).Some?
    ensures var t := SwapOf(c, stack, w, act).value;
            && Swap(c.net, HostOf(w), t.vault, t.s.factory, t.s, Filler(c, t.stack, t.world, act.turn)) == Done(t.out)
            && t.world == w.(codes := t.world.codes)
            && (act.RelayerSwap? ==> t.s.factory == c.factory && t.s.owner == act.q.owner)
            && (act.DirectSwap? ==> t.s == act.s && t.s.factory != c.factory && t.world == w)
            && Step(c, stack, w, act) == Play(c, t.stack, Start(t), act.turn).(ledger := t.out.ledger)
  {
    hide Vaults.Swap;
    hide Filler;
    hide Play;
    hide Network.Derive;
    hide VaultCodeAt;
    if act.DirectSwap? {
      SwapNamesItsVault(c.net, HostOf(w), act.vault, act.invoker, act.s, Filler(c, stack + {act.invoker, act.vault}, w, act.turn));
    }
  }

  lemma SwapNamesItsVault(net: Network, h: HostState, this_: Address, invoker: Address, s: SwapArgs, code: FillerCode)
    requires Swap(net, h, this_, invoker, s, code).Done?
    ensures net.Derive(s.factory, s.owner) == this_ && invoker == s.factory
  {
  }

  /** What a swap may take from its own vault: the USDC it swaps, and the XLM it pays out. */
  function TakenBySwap(t: Turn, token: Address): nat {
    if token == t.s.config.usdc then Max(0, t.s.amount) else if token == t.s.config.xlm then t.out.paidOut else 0
  }

  /** Before and after the filler's turn a swap takes nothing from anyone but its vault; over all of it, from the vault
      only what is swapped and paid out. */
  lemma SwapMoves(c: Scene, stack: set<Address>, w: World, act: Action, a: Address, token: Address)
    requires act.RelayerSwap? || act.DirectSwap?
    requires SwapOf(c, stack, w, act).Some?
    ensures var t := SwapOf(c, stack, w, act).value;
            && t.out.filled == Play(c, t.stack, Start(t), act.turn).ledger
            && (a != t.vault ==>
                  && Start(t).ledger.Balance(token, a) >= w.ledger.Balance(token, a)
                  && t.out.ledger.Balance(token, a) >= t.out.filled.Balance(token, a))
            && (a == t.vault ==> w.ledger.Balance(token, a) - t.out.ledger.Balance(token, a) <= TakenBySwap(t, token))
  {
    SwapStep(c, stack, w, act);
    hide SwapOf;
    hide Step;
    hide Vaults.Swap;
    var t := SwapOf(c, stack, w, act).value;
    var code := Filler(c, t.stack, t.world, act.turn);
    SwapIsThreeMoves(c.net, HostOf(w), t.vault, t.s.factory, t.s, code);
    var handed := w.ledger.Transfer(t.s.config.usdc, t.vault, t.s.filler, t.s.amount).value;
    assert t.world.(ledger := handed) == Start(t);
    hide Play;
    hide Start;
    ThreeMovesTake(w.ledger, handed, t.out.filled, t.out.ledger, t, a, token);
  }

  lemma ThreeMovesTake(l: Ledger, handed: Ledger, filled: Ledger, m: Ledger, t: Turn, a: Address, token: Address)
    requires t.s.amount > 0 && t.s.config.usdc != t.s.config.xlm
    requires l.Transfer(t.s.config.usdc, t.vault, t.s.filler, t.s.amount) == Some(handed)
    requires handed.SparesAll(filled, t.vault)
    requires filled.Transfer(t.s.config.xlm, t.vault, t.out.payee, t.out.paidOut) == Some(m)
    ensures a != t.vault ==> handed.Balance(token, a) >= l.Balance(token, a) && m.Balance(token, a) >= filled.Balance(token, a)
    ensures a == t.vault ==> l.Balance(token, a) - m.Balance(token, a) <= TakenBySwap(t, token)
  {
    SparesAllMeaning(handed, filled, t.vault, token);
    hide Ledger.SparesAll;
  }

  // --- What every run keeps ---

  /** What every reachable world satisfies for the config `cfg` the factory was built with. */
  ghost predicate Sound(c: Scene, cfg: VaultConfig, w: World) {
    c.net.HashesTo32() && F.Sound(cfg, w.state) && w.now <= U64_MAX && TimestampsFit(w.feeds)
  }

  /** A fresh factory; anything may have happened elsewhere. */
  ghost predicate Genesis(c: Scene, cfg: VaultConfig, w: World) {
    && c.net.HashesTo32() && w.now <= U64_MAX && TimestampsFit(w.feeds)
    && F.Constructible(cfg)
    && w.state == F.Constructed(w.state.admin, cfg)
  }

  ghost predicate AllSound(c: Scene, cfg: VaultConfig, calls: seq<Call>) {
    forall k :: 0 <= k < |calls| ==> Sound(c, cfg, calls[k].world)
  }

  lemma CallsOfSwap(c: Scene, stack: set<Address>, w: World, act: Action)
    ensures CallsOf(c, stack, w, act) ==
            [Call(stack, w, act)]
            + if (act.RelayerSwap? || act.DirectSwap?) && SwapOf(c, stack, w, act).Some?
              then var t := SwapOf(c, stack, w, act).value; CallsIn(c, t.stack, Start(t), act.turn)
              else []
  {
    hide SwapOf;
    hide Start;
  }

  lemma StartSound(c: Scene, cfg: VaultConfig, stack: set<Address>, w: World, act: Action)
    requires Sound(c, cfg, w) && (act.RelayerSwap? || act.DirectSwap?) && SwapOf(c, stack, w, act).Some?
    ensures Sound(c, cfg, Start(SwapOf(c, stack, w, act).value))
  {
    SwapStep(c, stack, w, act);
    hide SwapOf;
    hide Step;
    hide Vaults.Swap;
    hide Play;
  }

  lemma LedgerIsFree(c: Scene, cfg: VaultConfig, w: World, l: Ledger)
    requires Sound(c, cfg, w)
    ensures Sound(c, cfg, w.(ledger := l))
  {
  }

  lemma {:induction false} StepSound(c: Scene, cfg: VaultConfig, stack: set<Address>, w: World, act: Action)
    requires Sound(c, cfg, w)
    ensures Sound(c, cfg, Step(c, stack, w, act)) && AllSound(c, cfg, CallsOf(c, stack, w, act))
    decreases act
  {
    hide Sound;
    hide Step;
    hide SwapOf;
    hide CallsOf;
    CallsOfSwap(c, stack, w, act);
    if (act.RelayerSwap? || act.DirectSwap?) && SwapOf(c, stack, w, act).Some? {
      SwapStep(c, stack, w, act);
      StartSound(c, cfg, stack, w, act);
      var t := SwapOf(c, stack, w, act).value;
      PlaySound(c, cfg, t.stack, Start(t), act.turn);
      LedgerIsFree(c, cfg, Play(c, t.stack, Start(t), act.turn), t.out.ledger);
    } else {
      PlainStepSound(c, cfg, stack, w, act);
    }
  }

  lemma PlainStepSound(c: Scene, cfg: VaultConfig, stack: set<Address>, w: World, act: Action)
    requires Sound(c, cfg, w)
    requires (act.RelayerSwap? || act.DirectSwap?) ==> SwapOf(c, stack, w, act).None?
    ensures Sound(c, cfg, Step(c, stack, w, act))
  {
    hide WithdrawalOf;
    hide SwapOf;
  }

  /** In any run, at every call made in it, nested ones included, the factory's config stands and time is a `u64`. */
  lemma {:induction false} PlaySound(c: Scene, cfg: VaultConfig, stack: set<Address>, w: World, acts: seq<Action>)
    requires Sound(c, cfg, w)
    ensures Sound(c, cfg, Play(c, stack, w, acts)) && AllSound(c, cfg, CallsIn(c, stack, w, acts))
    decreases acts
  {
    hide Step;
    hide CallsOf;
    hide Sound;
    if acts != [] {
      var k := |acts| - 1;
      PlaySound(c, cfg, stack, w, acts[..k]);
      StepSound(c, cfg, stack, Play(c, stack, w, acts[..k]), acts[k]);
    }
  }

  // --- What may leave a vault ---

  predicate OwnerSigned(c: Scene, signers: set<Address>, owner: bytes) {
    c.net.parse(owner).Some? && c.net.parse(owner).value in signers
  }

  /** What a call takes of `token` on behalf of `owner`: by the owner's withdrawal from the owner's vault, what the vault
      held; by a relayer's swap for that owner, the USDC it swaps and the XLM it pays the owner; by anything else, nothing. */
  function TakenBy(c: Scene, x: Call, owner: bytes, token: Address): nat {
    match x.act
    case DirectWithdraw(vault, _, o, f, t) =>
      if o == owner && f == c.factory && t == token && WithdrawalOf(c, x.stack, x.world, x.act).Some?
      then x.world.ledger.Balance(token, vault) else 0
    case RelayerSwap(_, q, _) =>
      if q.owner != owner then 0
      else (match SwapOf(c, x.stack, x.world, x.act) case None => 0 case Some(t) => TakenBySwap(t, token))
    case _ => 0
  }

  /** What a swap pays out is what its vault held and what the filler added. */
  lemma SwapPaysOut(c: Scene, stack: set<Address>, w: World, act: Action)
    requires act.RelayerSwap? || act.DirectSwap?
    requires SwapOf(c, stack, w, act).Some?
    ensures var t := SwapOf(c, stack, w, act).value;
            t.s.amount > 0 && t.out.paidOut == w.ledger.Balance(t.s.config.xlm, t.vault) + t.out.amountOut
  {
    SwapStep(c, stack, w, act);
    hide SwapOf;
    hide Step;
    hide Vaults.Swap;
    hide Filler;
    hide Network.Derive;
    var t := SwapOf(c, stack, w, act).value;
    var code := Filler(c, t.stack, t.world, act.turn);
    SwapPaysTheOwner(c.net, HostOf(w), t.vault, t.s.factory, t.s, code, t.s.config.xlm);
    SwapIsThreeMoves(c.net, HostOf(w), t.vault, t.s.factory, t.s, code);
  }

  /** In numbers: a relayer's swap takes its amount of USDC, and of XLM what the vault held and what the filler added. */
  lemma SwapCosts(c: Scene, x: Call, token: Address)
    requires x.act.RelayerSwap? && SwapOf(c, x.stack, x.world, x.act).Some?
    ensures var t := SwapOf(c, x.stack, x.world, x.act).value;
            TakenBy(c, x, x.act.q.owner, token) ==
            if token == t.s.config.usdc then t.s.amount
            else if token == t.s.config.xlm then x.world.ledger.Balance(token, t.vault) + t.out.amountOut
            else 0
  {
    hide SwapOf;
    SwapPaysOut(c, x.stack, x.world, x.act);
  }

  /** And a withdrawal takes the vault's balance. */
  lemma WithdrawalCosts(c: Scene, x: Call)
    requires x.act.DirectWithdraw? && x.act.factory == c.factory && WithdrawalOf(c, x.stack, x.world, x.act).Some?
    ensures TakenBy(c, x, x.act.owner, x.act.token) == x.world.ledger.Balance(x.act.token, VaultOf(c, x.act.owner))
  {
  }

  function Taken(c: Scene, calls: seq<Call>, owner: bytes, token: Address): nat {
    if calls == [] then 0 else Taken(c, calls[..|calls| - 1], owner, token) + TakenBy(c, calls[|calls| - 1], owner, token)
  }

  /** The call names inputs that break the hash against this vault's: another owner and factory with its address, or
      another contract's preimage. */
  predicate Collision(c: Scene, act: Action, owner: bytes) {
    match act
    case RelayerSwap(_, q, _) => Clash(c.net, c.factory, q.owner, c.factory, owner)
    case DirectSwap(_, _, s, _) => Clash(c.net, s.factory, s.owner, c.factory, owner)
    case DirectWithdraw(_, _, o, f, _) => Clash(c.net, f, o, c.factory, owner)
    case OutsideDeploy(preimage, _) => Collides(c.net.sha256, preimage, c.net.Preimage(c.factory, owner))
    case _ => false
  }

  predicate Collided(c: Scene, calls: seq<Call>, owner: bytes) {
    exists k | 0 <= k < |calls| :: Collision(c, calls[k].act, owner)
  }

  lemma {:induction false} TakenConcat(c: Scene, x: seq<Call>, y: seq<Call>, owner: bytes, token: Address)
    ensures Taken(c, x + y, owner, token) == Taken(c, x, owner, token) + Taken(c, y, owner, token)
  {
    hide TakenBy;
    if y == [] {
      assert x + y == x;
    } else {
      TakenConcat(c, x, y[..|y| - 1], owner, token);
      assert (x + y)[..|x + y| - 1] == x + y[..|y| - 1];
    }
  }

  lemma CollidedConcat(c: Scene, x: seq<Call>, y: seq<Call>, owner: bytes)
    ensures Collided(c, x, owner) || Collided(c, y, owner) ==> Collided(c, x + y, owner)
  {
    hide Collision;
    if Collided(c, x, owner) {
      var k :| 0 <= k < |x| && Collision(c, x[k].act, owner);
      assert (x + y)[k] == x[k];
    } else if Collided(c, y, owner) {
      var k :| 0 <= k < |y| && Collision(c, y[k].act, owner);
      assert (x + y)[|x| + k] == y[k];
    }
  }

  /** From `w` to `v` the vault of `owner` stayed a vault and lost at most what `calls` take on the owner's behalf, or one
      of them exhibits a collision. */
  predicate Accounted(c: Scene, w: World, v: World, calls: seq<Call>, owner: bytes, token: Address) {
    || Collided(c, calls, owner)
    || (&& VaultCodeAt(c, v, owner)
        && w.ledger.Balance(token, VaultOf(c, owner)) - v.ledger.Balance(token, VaultOf(c, owner)) <= Taken(c, calls, owner, token))
  }

  lemma AccountedThen(c: Scene, w: World, v: World, z: World, x: seq<Call>, y: seq<Call>, owner: bytes, token: Address)
    requires Accounted(c, w, v, x, owner, token) && Accounted(c, v, z, y, owner, token)
    ensures Accounted(c, w, z, x + y, owner, token)
  {
    TakenConcat(c, x, y, owner, token);
    CollidedConcat(c, x, y, owner);
    hide Taken;
    hide Collided;
    hide VaultCodeAt;
  }

  lemma {:induction false} StepAccounted(c: Scene, stack: set<Address>, w: World, act: Action, owner: bytes, token: Address)
    requires c.net.HashesTo32() && VaultCodeAt(c, w, owner)
    ensures Accounted(c, w, Step(c, stack, w, act), CallsOf(c, stack, w, act), owner, token)
    decreases act
  {
    var x := Call(stack, w, act);
    hide Accounted;
    hide Network.HashesTo32;
    if (act.RelayerSwap? || act.DirectSwap?) && SwapOf(c, stack, w, act).Some? {
      var t := SwapOf(c, stack, w, act).value;
      StartKeepsCode(c, stack, w, act, owner);
      PlayAccounted(c, t.stack, Start(t), act.turn, owner, token);
      SwapAccounted(c, stack, w, act, CallsIn(c, t.stack, Start(t), act.turn), owner, token);
    } else {
      PlainStepAccounted(c, stack, w, act, owner, token);
    }
  }

  lemma StartKeepsCode(c: Scene, stack: set<Address>, w: World, act: Action, owner: bytes)
    requires act.RelayerSwap? || act.DirectSwap?
    requires SwapOf(c, stack, w, act).Some? && VaultCodeAt(c, w, owner)
    ensures VaultCodeAt(c, Start(SwapOf(c, stack, w, act).value), owner)
  {
    hide Vaults.Swap;
    hide Filler;
    hide Network.Derive;
  }

  lemma SwapAccounted(c: Scene, stack: set<Address>, w: World, act: Action, inner: seq<Call>, owner: bytes, token: Address)
    requires c.net.HashesTo32() && (act.RelayerSwap? || act.DirectSwap?)
    requires SwapOf(c, stack, w, act).Some?
    requires var t := SwapOf(c, stack, w, act).value;
             Accounted(c, Start(t), Play(c, t.stack, Start(t), act.turn), inner, owner, token)
    ensures Accounted(c, w, Step(c, stack, w, act), [Call(stack, w, act)] + inner, owner, token)
  {
    hide Vaults.Swap;
    hide SwapOf;
    hide Step;
    hide Play;
    hide Start;
    hide Filler;
    hide Taken;
    hide Collided;
    hide Clash;
    hide TakenBySwap;
    hide Network.HashesTo32;
    var t := SwapOf(c, stack, w, act).value;
    var x, a := [Call(stack, w, act)], VaultOf(c, owner);
    SwapStep(c, stack, w, act);
    SwapMoves(c, stack, w, act, a, token);
    SwapNamesItsVault(c.net, HostOf(w), t.vault, t.s.factory, t.s, Filler(c, t.stack, t.world, act.turn));
    TakenConcat(c, x, inner, owner, token);
    CollidedConcat(c, x, inner, owner);
    OneCall(c, x[0], owner, token);
    hide Network.Derive;
    if a == t.vault {
      VaultAddressCommits(c.net, t.s.factory, t.s.owner, c.factory, owner);
    }
  }

  lemma OneCall(c: Scene, x: Call, owner: bytes, token: Address)
    ensures Taken(c, [x], owner, token) == TakenBy(c, x, owner, token)
    ensures Collision(c, x.act, owner) ==> Collided(c, [x], owner)
  {
    assert [x][..0] == [];
    assert Taken(c, [], owner, token) == 0;
    assert [x][0] == x;
    hide TakenBy;
    hide Collision;
  }

  lemma PlainStepAccounted(c: Scene, stack: set<Address>, w: World, act: Action, owner: bytes, token: Address)
    requires c.net.HashesTo32() && VaultCodeAt(c, w, owner)
    requires (act.RelayerSwap? || act.DirectSwap?) ==> SwapOf(c, stack, w, act).None?
    ensures Accounted(c, w, Step(c, stack, w, act), CallsOf(c, stack, w, act), owner, token)
  {
    var x := Call(stack, w, act);
    assert CallsOf(c, stack, w, act) == [x] + [] == [x];
    OneCall(c, x, owner, token);
    hide CallsOf;
    hide Taken;
    hide Collided;
    match act
    case OutsideDeploy(preimage, code) =>
      FactoryPrefixes(c, owner);
      hide ContractIdPreimage;
    case Outside(ledger) =>
      if SparesVaultLike(w, ledger) {
        SparedVault(c, w, ledger, owner, token);
      }
      hide SparesVaultLike;
    case DirectWithdraw(_, _, _, _, _) =>
      WithdrawTakes(c, stack, w, act, owner, token);
      hide WithdrawalOf;
      hide Collision;
      hide TakenBy;
    case _ =>
      hide SwapOf;
      hide Network.Derive;
  }

  lemma WithdrawTakes(c: Scene, stack: set<Address>, w: World, act: Action, owner: bytes, token: Address)
    requires c.net.HashesTo32() && act.DirectWithdraw?
    ensures var v := Step(c, stack, w, act);
            && v.codes == w.codes && v.state == w.state
            && (Collision(c, act, owner)
                || w.ledger.Balance(token, VaultOf(c, owner)) - v.ledger.Balance(token, VaultOf(c, owner))
                   <= TakenBy(c, Call(stack, w, act), owner, token))
  {
    hide Clash;
    hide Network.HashesTo32;
    if WithdrawalOf(c, stack, w, act).Some? && act.vault == VaultOf(c, owner) {
      VaultAddressCommits(c.net, act.factory, act.owner, c.factory, owner);
    }
    hide Network.Derive;
  }

  lemma FactoryPrefixes(c: Scene, owner: bytes)
    ensures FactoryPrefix(c) <= c.net.Preimage(c.factory, owner)
  {
    hide XdrAddress;
    hide BigEndian;
    assert c.net.Preimage(c.factory, owner) == FactoryPrefix(c) + c.net.sha256(owner);
  }

  lemma SparedVault(c: Scene, w: World, m: Ledger, owner: bytes, token: Address)
    requires SparesVaultLike(w, m) && VaultCodeAt(c, w, owner)
    ensures m.Balance(token, VaultOf(c, owner)) >= w.ledger.Balance(token, VaultOf(c, owner))
  {
    var k := (token, VaultOf(c, owner));
    if k in w.ledger.balances {
      assert k in w.ledger.balances.Keys;
    }
  }

  lemma {:induction false} PlayAccounted(c: Scene, stack: set<Address>, w: World, acts: seq<Action>, owner: bytes, token: Address)
    requires c.net.HashesTo32() && VaultCodeAt(c, w, owner)
    ensures Accounted(c, w, Play(c, stack, w, acts), CallsIn(c, stack, w, acts), owner, token)
    decreases acts
  {
    hide Step;
    hide CallsOf;
    hide Network.HashesTo32;
    if acts == [] {
      NothingTaken(c, w, owner, token);
    } else {
      var k := |acts| - 1;
      var v := Play(c, stack, w, acts[..k]);
      var x, y := CallsIn(c, stack, w, acts[..k]), CallsOf(c, stack, v, acts[k]);
      PlayAccounted(c, stack, w, acts[..k], owner, token);
      if Collided(c, x, owner) {
        CollidedConcat(c, x, y, owner);
        hide Collided;
      } else {
        StepAccounted(c, stack, v, acts[k], owner, token);
        AccountedThen(c, w, v, Step(c, stack, v, acts[k]), x, y, owner, token);
        hide Accounted;
      }
    }
  }

  lemma NothingTaken(c: Scene, w: World, owner: bytes, token: Address)
    requires VaultCodeAt(c, w, owner)
    ensures Accounted(c, w, w, [], owner, token)
  {
  }

  // --- What a whole run guarantees ---

  /** The account of one vault over a whole run, whoever did what and called whom: what it lost of a token is at most what
      its owner withdrew and what relayers' swaps for its owner took, unless a call exhibits a hash collision. */
  lemma LossesAreAccountedFor(c: Scene, w: World, acts: seq<Action>, owner: bytes, token: Address)
    requires c.net.HashesTo32() && VaultCodeAt(c, w, owner)
    ensures var v, calls := Play(c, {}, w, acts), CallsIn(c, {}, w, acts);
            Collided(c, calls, owner)
            || w.ledger.Balance(token, VaultOf(c, owner)) - v.ledger.Balance(token, VaultOf(c, owner)) <= Taken(c, calls, owner, token)
  {
    PlayAccounted(c, {}, w, acts, owner, token);
    hide Play;
    hide CallsIn;
    hide Taken;
    hide Collided;
    hide VaultCodeAt;
  }

  /** A call takes on an owner's behalf only as the owner's signed withdrawal, or as an enabled relayer's signed swap for
      that owner, of USDC or XLM. */
  predicate OnBehalfOf(c: Scene, x: Call, owner: bytes, token: Address) {
    match x.act
    case DirectWithdraw(vault, signers, o, f, t) =>
      vault == VaultOf(c, owner) && o == owner && f == c.factory && t == token && OwnerSigned(c, signers, owner)
    case RelayerSwap(signers, q, _) =>
      && q.owner == owner && q.relayer in signers && q.relayer in x.world.state.relayers
      && (token == x.world.state.config.usdc || token == x.world.state.config.xlm)
    case _ => false
  }

  lemma TakenIsOnBehalf(c: Scene, x: Call, owner: bytes, token: Address)
    requires TakenBy(c, x, owner, token) > 0
    ensures OnBehalfOf(c, x, owner, token)
  {
    hide Vaults.Swap;
    hide Filler;
    hide Network.Derive;
  }

  lemma {:induction false} SomeCallTook(c: Scene, calls: seq<Call>, owner: bytes, token: Address)
    requires Taken(c, calls, owner, token) > 0
    ensures exists k | 0 <= k < |calls| :: OnBehalfOf(c, calls[k], owner, token)
  {
    hide TakenBy;
    hide OnBehalfOf;
    var k := |calls| - 1;
    if TakenBy(c, calls[k], owner, token) > 0 {
      TakenIsOnBehalf(c, calls[k], owner, token);
    } else {
      SomeCallTook(c, calls[..k], owner, token);
    }
  }

  /** So in any run a vault loses a token only if some call, nested or not, was its owner's signed withdrawal or a
      relayer's swap for its owner, or exhibits a collision; never by strangers, the admin or other vaults' swaps alone. */
  lemma VaultLosesOnlyForItsOwner(c: Scene, w: World, acts: seq<Action>, owner: bytes, token: Address)
    requires c.net.HashesTo32() && VaultCodeAt(c, w, owner)
    requires Play(c, {}, w, acts).ledger.Balance(token, VaultOf(c, owner)) < w.ledger.Balance(token, VaultOf(c, owner))
    ensures var calls := CallsIn(c, {}, w, acts);
            Collided(c, calls, owner) || exists k | 0 <= k < |calls| :: OnBehalfOf(c, calls[k], owner, token)
  {
    hide Play;
    hide CallsIn;
    hide Taken;
    hide Collided;
    hide OnBehalfOf;
    hide VaultCodeAt;
    LossesAreAccountedFor(c, w, acts, owner, token);
    if Taken(c, CallsIn(c, {}, w, acts), owner, token) > 0 {
      SomeCallTook(c, CallsIn(c, {}, w, acts), owner, token);
    }
  }

  /** Foreign code never sits at a vault's address, unless a deployment exhibits a collision. */
  lemma ReachableCode(c: Scene, w: World, acts: seq<Action>, owner: bytes)
    requires c.net.HashesTo32() && VaultCodeAt(c, w, owner)
    ensures VaultCodeAt(c, Play(c, {}, w, acts), owner) || Collided(c, CallsIn(c, {}, w, acts), owner)
  {
    PlayAccounted(c, {}, w, acts, owner, c.factory);
    hide Play;
    hide CallsIn;
    hide Taken;
    hide Collided;
    hide VaultCodeAt;
  }

  /** Every reachable world, and every world a call is made in, keeps the factory's config. */
  lemma ReachableSound(c: Scene, cfg: VaultConfig, w: World, acts: seq<Action>)
    requires Genesis(c, cfg, w)
    ensures Sound(c, cfg, Play(c, {}, w, acts)) && AllSound(c, cfg, CallsIn(c, {}, w, acts))
  {
    PlaySound(c, cfg, {}, w, acts);
  }

  /** Whatever admins, relayers, fillers, oracles and strangers did before, the owner's way out stays open: deploy, then
      withdraw on the owner's signature, returns the whole balance of any token and nothing stays behind. */
  lemma OwnerCanAlwaysLeave(c: Scene, w: World, acts: seq<Action>, owner: bytes, payee: Address, signers: set<Address>,
                            token: Address)
    requires c.net.HashesTo32() && VaultCodeAt(c, w, owner) && !Collided(c, CallsIn(c, {}, w, acts), owner)
    requires c.net.parse(owner) == Some(payee) && payee in signers && !SelfOwned(c.net, c.factory, owner)
    requires token.Contract? && token != VaultOf(c, owner)
    requires var v := Play(c, {}, w, acts);
             var held := v.ledger.Balance(token, VaultOf(c, owner));
             held > 0 && v.ledger.Balance(token, payee) + held <= I128_MAX
    ensures var v := Play(c, {}, w, acts);
            var out := Step(c, {}, Step(c, {}, v, DeployVault(owner)),
                            DirectWithdraw(VaultOf(c, owner), signers, owner, c.factory, token));
            && out.ledger.Balance(token, VaultOf(c, owner)) == 0
            && out.ledger.Balance(token, payee) == v.ledger.Balance(token, payee) + v.ledger.Balance(token, VaultOf(c, owner))
  {
    hide Step;
    hide Play;
    hide Collided;
    hide VaultCodeAt;
    ReachableCode(c, w, acts, owner);
    DeployedAnyway(c, Play(c, {}, w, acts), owner);
    WithdrawNow(c, Step(c, {}, Play(c, {}, w, acts), DeployVault(owner)), owner, payee, signers, token);
  }

  lemma DeployedAnyway(c: Scene, w: World, owner: bytes)
    requires VaultCodeAt(c, w, owner) && c.net.parse(owner).Some?
    ensures var v := Step(c, {}, w, DeployVault(owner));
            v == w.(codes := v.codes) && IsVault(v, VaultOf(c, owner))
  {
  }

  lemma WithdrawNow(c: Scene, w: World, owner: bytes, payee: Address, signers: set<Address>, token: Address)
    requires IsVault(w, VaultOf(c, owner)) && token.Contract? && token != VaultOf(c, owner)
    requires c.net.parse(owner) == Some(payee) && payee in signers && !SelfOwned(c.net, c.factory, owner)
    requires var held := w.ledger.Balance(token, VaultOf(c, owner));
             held > 0 && w.ledger.Balance(token, payee) + held <= I128_MAX
    ensures var v := Step(c, {}, w, DirectWithdraw(VaultOf(c, owner), signers, owner, c.factory, token));
            && v.ledger.Balance(token, VaultOf(c, owner)) == 0
            && v.ledger.Balance(token, payee) == w.ledger.Balance(token, payee) + w.ledger.Balance(token, VaultOf(c, owner))
  {
  }

  // --- Who is paid ---

  /** A payment out of a vault: what the call claimed, who was paid, and the ledger it was paid from. */
  datatype Outflow = Outflow(vault: Address, factory: Address, owner: bytes, payee: Address, token: Address, before: Ledger)

  function OutflowOf(c: Scene, x: Call): Option<Outflow> {
    match x.act
    case RelayerSwap(_, _, _) => SwapOutflow(SwapOf(c, x.stack, x.world, x.act))
    case DirectSwap(_, _, _, _) => SwapOutflow(SwapOf(c, x.stack, x.world, x.act))
    case DirectWithdraw(vault, _, owner, factory, token) =>
      (match WithdrawalOf(c, x.stack, x.world, x.act)
       case Some((_, payee, _)) => Some(Outflow(vault, factory, owner, payee, token, x.world.ledger))
       case None => None)
    case _ => None
  }

  function SwapOutflow(t: Option<Turn>): Option<Outflow> {
    match t
    case None => None
    case Some(u) => Some(Outflow(u.vault, u.s.factory, u.s.owner, u.out.payee, u.s.config.xlm, u.out.filled))
  }

  /** A payment is the vault's whole balance of the token, moved to the account named by the owner the call claimed,
      whose derivation is this vault. */
  lemma OutflowPaysItsClaim(c: Scene, x: Call)
    requires OutflowOf(c, x).Some?
    ensures var o := OutflowOf(c, x).value;
            && c.net.Derive(o.factory, o.owner) == o.vault
            && c.net.parse(o.owner) == Some(o.payee)
            && o.before.Transfer(o.token, o.vault, o.payee, o.before.Balance(o.token, o.vault))
               == Some(Step(c, x.stack, x.world, x.act).ledger)
  {
    hide Network.Derive;
    if x.act.DirectWithdraw? {
      hide SwapOf;
    } else {
      hide SwapOf;
      hide Vaults.Swap;
      SwapStep(c, x.stack, x.world, x.act);
      var t := SwapOf(c, x.stack, x.world, x.act).value;
      SwapPaysTheOwner(c.net, HostOf(x.world), t.vault, t.s.factory, t.s, Filler(c, t.stack, t.world, x.act.turn), t.s.config.usdc);
      SwapIsThreeMoves(c.net, HostOf(x.world), t.vault, t.s.factory, t.s, Filler(c, t.stack, t.world, x.act.turn));
      hide Step;
    }
  }

  /** In any run, any two payments out of one vault, nested or not, whatever owner and factory their callers claimed, go
      to one payee, or the two claims exhibit a hash collision. */
  lemma PayeeIsFixedByAddress(c: Scene, w: World, acts: seq<Action>, i: nat, j: nat)
    requires c.net.HashesTo32() && i < |CallsIn(c, {}, w, acts)| && j < |CallsIn(c, {}, w, acts)|
    requires OutflowOf(c, CallsIn(c, {}, w, acts)[i]).Some? && OutflowOf(c, CallsIn(c, {}, w, acts)[j]).Some?
    ensures var x, y := OutflowOf(c, CallsIn(c, {}, w, acts)[i]).value, OutflowOf(c, CallsIn(c, {}, w, acts)[j]).value;
            x.vault == y.vault ==>
              || (x.payee == y.payee && x.owner == y.owner && x.factory == y.factory && c.net.parse(x.owner) == Some(x.payee))
              || Clash(c.net, x.factory, x.owner, y.factory, y.owner)
  {
    hide OutflowOf;
    hide CallsIn;
    hide Step;
    hide Clash;
    hide Network.Derive;
    var calls := CallsIn(c, {}, w, acts);
    OutflowPaysItsClaim(c, calls[i]);
    OutflowPaysItsClaim(c, calls[j]);
    var x, y := OutflowOf(c, calls[i]).value, OutflowOf(c, calls[j]).value;
    if x.vault == y.vault {
      VaultAddressCommits(c.net, x.factory, x.owner, y.factory, y.owner);
    }
  }

  /** So a vault of this factory only ever pays the account its own owner's strkey names. */
  lemma VaultPaysItsOwner(c: Scene, w: World, acts: seq<Action>, i: nat, owner: bytes)
    requires c.net.HashesTo32() && i < |CallsIn(c, {}, w, acts)| && OutflowOf(c, CallsIn(c, {}, w, acts)[i]).Some?
    ensures var x := OutflowOf(c, CallsIn(c, {}, w, acts)[i]).value;
            x.vault == VaultOf(c, owner) ==>
              c.net.parse(owner) == Some(x.payee) || Clash(c.net, x.factory, x.owner, c.factory, owner)
  {
    hide OutflowOf;
    hide CallsIn;
    hide Step;
    hide Clash;
    hide Network.Derive;
    var call := CallsIn(c, {}, w, acts)[i];
    OutflowPaysItsClaim(c, call);
    var x := OutflowOf(c, call).value;
    if x.vault == VaultOf(c, owner) {
      VaultAddressCommits(c.net, x.factory, x.owner, c.factory, owner);
    }
  }

  // --- What a delivery is worth ---

  /** What a delivery in world `v` owes: the vault is asked exactly what the relayer asked, at the factory's config and the
      discount in force; all XLM the vault held plus at least the larger of the relayer's minimum and the oracle floor go
      to the account the owner's strkey names; and the price is right. */
  predicate Fair(c: Scene, cfg: VaultConfig, v: World, q: F.SwapRequest, t: Turn) {
    && t.vault == VaultOf(c, q.owner)
    && t.s == SwapArgs(q.owner, c.factory, q.filler,
                       if q.amount.Some? then q.amount.value else v.ledger.Balance(cfg.usdc, t.vault),
                       q.minOut, q.data, cfg.(discountPpm := F.Discount(v.state)))
    && FairlyPaid(c, cfg, v, q, t.vault, t.out)
    && FairlyPriced(cfg, v, t.s.amount, t.s.config.discountPpm, t.out)
  }

  predicate FairlyPaid(c: Scene, cfg: VaultConfig, v: World, q: F.SwapRequest, vault: Address, out: Swapped) {
    && c.net.parse(q.owner) == Some(out.payee)
    && (!SelfOwned(c.net, c.factory, q.owner) ==>
          && out.ledger.Balance(cfg.xlm, out.payee) == out.filled.Balance(cfg.xlm, out.payee) + out.paidOut
          && out.ledger.Balance(cfg.xlm, vault) == 0)
    && out.paidOut == v.ledger.Balance(cfg.xlm, vault) + out.amountOut
    && out.amountOut >= Max(q.minOut, out.floor.floor) >= cfg.minDelivery > 0
  }

  /** Both prices are no older than the configured age, itself at most fifteen minutes, give or take one minute of skew;
      the floor is the exact one at the discount, and the delivery is worth nine tenths. */
  predicate FairlyPriced(cfg: VaultConfig, v: World, amount: int, discountPpm: nat, out: Swapped) {
    var xlm, usdc := (cfg.oracle, cfg.xlmAsset), (cfg.oracle, cfg.usdcAsset);
    && xlm in v.feeds && usdc in v.feeds
    && v.now - cfg.maxPriceAge <= v.feeds[xlm].timestamp <= v.now + 60
    && v.now - cfg.maxPriceAge <= v.feeds[usdc].timestamp <= v.now + 60
    && cfg.maxPriceAge <= 900 && discountPpm <= 100_000 && amount > 0
    && v.feeds[xlm].price > 0 && v.feeds[usdc].price > 0
    && out.floor.floor == ExactFloor(amount, v.feeds[usdc].price, v.feeds[xlm].price, discountPpm)
    && out.amountOut >= NineTenths(amount, v.feeds[usdc].price, v.feeds[xlm].price)
  }

  /** Nine tenths of what `amount` USDC are worth in XLM at these prices, in whole stroops. */
  function NineTenths(amount: int, usdcPrice: int, xlmPrice: int): nat {
    if amount <= 0 || usdcPrice <= 0 || xlmPrice <= 0 then 0 else Quotient(9 * amount * usdcPrice, 10 * xlmPrice)
  }

  lemma NineTenthsIs(amount: nat, usdcPrice: nat, xlmPrice: nat, n: nat)
    requires amount > 0 && usdcPrice > 0 && xlmPrice > 0
    ensures NineTenths(amount, usdcPrice, xlmPrice) == n
            <==> n * (10 * xlmPrice) <= 9 * amount * usdcPrice < (n + 1) * (10 * xlmPrice)
  {
    QuotientIs(9 * amount * usdcPrice, 10 * xlmPrice, n);
  }

  /** Every delivery a relayer makes in any run, nested ones included, is fair, whatever was done in the filler's turn. */
  lemma DeliveredSwapIsFair(c: Scene, cfg: VaultConfig, w: World, acts: seq<Action>, i: nat)
    requires Genesis(c, cfg, w) && i < |CallsIn(c, {}, w, acts)|
    requires var x := CallsIn(c, {}, w, acts)[i]; x.act.RelayerSwap? && SwapOf(c, x.stack, x.world, x.act).Some?
    ensures var x := CallsIn(c, {}, w, acts)[i];
            Fair(c, cfg, x.world, x.act.q, SwapOf(c, x.stack, x.world, x.act).value)
  {
    hide CallsIn;
    hide Fair;
    hide Genesis;
    hide Play;
    hide SwapOf;
    hide Sound;
    ReachableSound(c, cfg, w, acts);
    SwapIsFair(c, cfg, CallsIn(c, {}, w, acts)[i]);
  }

  lemma SwapIsFair(c: Scene, cfg: VaultConfig, x: Call)
    requires Sound(c, cfg, x.world) && x.act.RelayerSwap? && SwapOf(c, x.stack, x.world, x.act).Some?
    ensures Fair(c, cfg, x.world, x.act.q, SwapOf(c, x.stack, x.world, x.act).value)
  {
    var t := SwapOf(c, x.stack, x.world, x.act).value;
    var code := Filler(c, t.stack, t.world, x.act.turn);
    SwapStep(c, x.stack, x.world, x.act);
    SwapArguments(c, cfg, x);
    F.VaultIsHanded(c.factory, x.world.state, x.world.ledger, t.vault, x.act.q);
    hide F.VaultArgs;
    hide SwapOf;
    hide Step;
    hide Vaults.Swap;
    hide F.Sound;
    hide FairlyPaid;
    hide FairlyPriced;
    hide Network.Derive;
    SwapNamesItsVault(c.net, HostOf(x.world), t.vault, t.s.factory, t.s, code);
    PaysFairly(c, cfg, x.world, x.act.q, t.vault, t.s, code);
    PricesFairly(c.net, cfg, x.world, t.vault, t.s, code);
  }

  lemma PaysFairly(c: Scene, cfg: VaultConfig, v: World, q: F.SwapRequest, vault: Address, s: SwapArgs, code: FillerCode)
    requires s.owner == q.owner && s.factory == c.factory && s.minOut == q.minOut
    requires s.config == cfg.(discountPpm := s.config.discountPpm)
    requires Swap(c.net, HostOf(v), vault, s.factory, s, code).Done?
    ensures FairlyPaid(c, cfg, v, q, vault, Swap(c.net, HostOf(v), vault, s.factory, s, code).value)
  {
    hide Vaults.Swap;
    SwapPaysTheOwner(c.net, HostOf(v), vault, s.factory, s, code, cfg.usdc);
    SwapEmptiesXlmIff(c.net, HostOf(v), vault, s.factory, s, code);
  }

  lemma PricesFairly(net: Network, cfg: VaultConfig, v: World, vault: Address, s: SwapArgs, code: FillerCode)
    requires v.now <= U64_MAX && TimestampsFit(v.feeds)
    requires s.config == cfg.(discountPpm := s.config.discountPpm)
    requires Swap(net, HostOf(v), vault, s.factory, s, code).Done?
    ensures FairlyPriced(cfg, v, s.amount, s.config.discountPpm, Swap(net, HostOf(v), vault, s.factory, s, code).value)
  {
    hide Vaults.Swap;
    SwapIsHeldToTheFloor(net, HostOf(v), vault, s.factory, s, code);
    SwapRespectsTheMarket(net, HostOf(v), vault, s.factory, s, code);
    TenthsAreQuotients(s.amount, v.feeds[(cfg.oracle, cfg.usdcAsset)].price, v.feeds[(cfg.oracle, cfg.xlmAsset)].price,
                       Swap(net, HostOf(v), vault, s.factory, s, code).value.amountOut);
    hide NineTenths;
    hide ExactFloor;
  }

  lemma SwapArguments(c: Scene, cfg: VaultConfig, x: Call)
    requires F.Sound(cfg, x.world.state) && x.act.RelayerSwap? && SwapOf(c, x.stack, x.world, x.act).Some?
    ensures var t := SwapOf(c, x.stack, x.world, x.act).value;
            && t.vault == VaultOf(c, x.act.q.owner)
            && t.s == F.VaultArgs(c.factory, x.world.state, x.world.ledger, t.vault, x.act.q)
            && x.act.q.relayer in x.world.state.relayers && x.act.q.relayer in x.act.signers
  {
    hide Vaults.Swap;
    hide Filler;
    hide Network.Derive;
  }

  lemma TenthsAreQuotients(amount: int, usdcPrice: int, xlmPrice: int, out: int)
    requires amount > 0 && usdcPrice > 0 && xlmPrice > 0 && out >= 0
    requires 10 * xlmPrice * (out + 1) > 9 * amount * usdcPrice
    ensures out >= NineTenths(amount, usdcPrice, xlmPrice)
  {
    TimesIsBelow(9 * amount * usdcPrice, 10 * xlmPrice, out);
  }

  lemma TimesIsBelow(n: nat, d: nat, out: nat)
    requires d > 0 && n < d * (out + 1)
    ensures Quotient(n, d) <= out
  {
    DivBounds(n, d);
    if n / d > out {
      MulMono(out + 1, n / d, d);
    }
  }

  // --- The terms in force ---

  /** What the admin governs: who is admin, at what discount vaults swap, and who may relay. */
  datatype Terms = Terms(admin: Address, discount: nat, relayers: set<Address>)

  function TermsOf(s: F.FactoryState): Terms {
    Terms(s.admin, F.Discount(s), s.relayers)
  }

  /** A call amends the terms if it is the admin's, made while the factory is not running, and admissible. */
  function Amended(c: Scene, x: Call, t: Terms): Terms {
    if !x.act.Admin? || c.factory in x.stack || t.admin !in x.act.signers then t
    else match x.act.call
      case SetDiscount(ppm) => if ppm <= 100_000 then t.(discount := ppm) else t
      case SetRelayer(who, true) => t.(relayers := t.relayers + {who})
      case SetRelayer(who, false) => t.(relayers := t.relayers - {who})
      case SetAdmin(next) => if next in x.act.signers then t.(admin := next) else t
  }

  /** The terms after a history of calls. */
  function TermsAfter(c: Scene, calls: seq<Call>, t: Terms): Terms {
    if calls == [] then t else Amended(c, calls[|calls| - 1], TermsAfter(c, calls[..|calls| - 1], t))
  }

  /** Every call is made in a world at the terms its own history leaves. */
  predicate AtTerms(c: Scene, calls: seq<Call>, t: Terms) {
    forall i :: 0 <= i < |calls| ==> TermsOf(calls[i].world.state) == TermsAfter(c, calls[..i], t)
  }

  lemma {:induction false} TermsConcat(c: Scene, x: seq<Call>, y: seq<Call>, t: Terms)
    ensures TermsAfter(c, x + y, t) == TermsAfter(c, y, TermsAfter(c, x, t))
  {
    hide Amended;
    if y == [] {
      assert x + y == x;
    } else {
      TermsConcat(c, x, y[..|y| - 1], t);
      assert (x + y)[..|x + y| - 1] == x + y[..|y| - 1];
    }
  }

  lemma AtTermsConcat(c: Scene, x: seq<Call>, y: seq<Call>, t: Terms)
    requires AtTerms(c, x, t) && AtTerms(c, y, TermsAfter(c, x, t))
    ensures AtTerms(c, x + y, t)
  {
    hide TermsAfter;
    forall i | 0 <= i < |x + y| ensures TermsOf((x + y)[i].world.state) == TermsAfter(c, (x + y)[..i], t) {
      if i < |x| {
        assert (x + y)[..i] == x[..i];
      } else {
        assert (x + y)[..i] == x + y[..i - |x|];
        TermsConcat(c, x, y[..i - |x|], t);
      }
    }
  }

  lemma OneAtTerms(c: Scene, x: Call)
    ensures AtTerms(c, [x], TermsOf(x.world.state))
    ensures TermsAfter(c, [x], TermsOf(x.world.state)) == Amended(c, x, TermsOf(x.world.state))
  {
    assert [x][..0] == [];
    assert TermsAfter(c, [], TermsOf(x.world.state)) == TermsOf(x.world.state);
    hide Amended;
  }

  lemma {:induction false} StepTerms(c: Scene, stack: set<Address>, w: World, act: Action)
    ensures AtTerms(c, CallsOf(c, stack, w, act), TermsOf(w.state))
    ensures TermsOf(Step(c, stack, w, act).state) == TermsAfter(c, CallsOf(c, stack, w, act), TermsOf(w.state))
    decreases act
  {
    hide Step;
    hide SwapOf;
    hide CallsOf;
    hide AtTerms;
    hide TermsAfter;
    CallsOfSwap(c, stack, w, act);
    var x := Call(stack, w, act);
    OneAtTerms(c, x);
    if (act.RelayerSwap? || act.DirectSwap?) && SwapOf(c, stack, w, act).Some? {
      SwapStep(c, stack, w, act);
      var t := SwapOf(c, stack, w, act).value;
      PlayTerms(c, t.stack, Start(t), act.turn);
      var inner := CallsIn(c, t.stack, Start(t), act.turn);
      hide Play;
      hide CallsIn;
      AtTermsConcat(c, [x], inner, TermsOf(w.state));
      TermsConcat(c, [x], inner, TermsOf(w.state));
    } else {
      assert [x] + [] == [x];
      PlainStepTerms(c, stack, w, act);
    }
  }

  lemma PlainStepTerms(c: Scene, stack: set<Address>, w: World, act: Action)
    requires (act.RelayerSwap? || act.DirectSwap?) ==> SwapOf(c, stack, w, act).None?
    ensures TermsOf(Step(c, stack, w, act).state) == Amended(c, Call(stack, w, act), TermsOf(w.state))
  {
    hide WithdrawalOf;
    hide SwapOf;
    if act.Admin? {
      F.AdministerDoes(w.state, act.signers, act.call);
    }
  }

  lemma {:induction false} PlayTerms(c: Scene, stack: set<Address>, w: World, acts: seq<Action>)
    ensures AtTerms(c, CallsIn(c, stack, w, acts), TermsOf(w.state))
    ensures TermsOf(Play(c, stack, w, acts).state) == TermsAfter(c, CallsIn(c, stack, w, acts), TermsOf(w.state))
    decreases acts
  {
    hide Step;
    hide CallsOf;
    hide AtTerms;
    hide TermsAfter;
    if acts == [] {
      NoCalls(c, TermsOf(w.state));
    } else {
      var k := |acts| - 1;
      var v := Play(c, stack, w, acts[..k]);
      var x, y := CallsIn(c, stack, w, acts[..k]), CallsOf(c, stack, v, acts[k]);
      PlayTerms(c, stack, w, acts[..k]);
      StepTerms(c, stack, v, acts[k]);
      AtTermsConcat(c, x, y, TermsOf(w.state));
      TermsConcat(c, x, y, TermsOf(w.state));
    }
  }

  lemma NoCalls(c: Scene, t: Terms)
    ensures AtTerms(c, [], t) && TermsAfter(c, [], t) == t
  {
  }

  /** In any run every relayer's swap, nested or not, is one the admin's calls so far admit: the relayer is one last
      enabled, and the vault swaps at the config of the constructor and the discount of the last accepted
      `set_discount`, or the constructor's if there was none. */
  lemma SwapsAreOnTerms(c: Scene, cfg: VaultConfig, w: World, acts: seq<Action>, i: nat)
    requires Genesis(c, cfg, w) && i < |CallsIn(c, {}, w, acts)|
    requires var x := CallsIn(c, {}, w, acts)[i]; x.act.RelayerSwap? && SwapOf(c, x.stack, x.world, x.act).Some?
    ensures var calls := CallsIn(c, {}, w, acts);
            var x, terms := calls[i], TermsAfter(c, calls[..i], Terms(w.state.admin, cfg.discountPpm, {}));
            && x.act.q.relayer in terms.relayers && x.act.q.relayer in x.act.signers
            && SwapOf(c, x.stack, x.world, x.act).value.s.config == cfg.(discountPpm := terms.discount)
  {
    hide CallsIn;
    hide Play;
    hide SwapOf;
    hide Sound;
    PlayTerms(c, {}, w, acts);
    hide TermsAfter;
    ReachableSound(c, cfg, w, acts);
    var x := CallsIn(c, {}, w, acts)[i];
    SwapIsFair(c, cfg, x);
    hide FairlyPaid;
    hide FairlyPriced;
    SoundState(c, cfg, x.world);
    SwapArguments(c, cfg, x);
  }

  lemma SoundState(c: Scene, cfg: VaultConfig, w: World)
    requires Sound(c, cfg, w)
    ensures F.Sound(cfg, w.state)
  {
  }

  // --- When a delivery goes through ---

  /** In any world a run reaches, a relayer's swap goes through exactly when neither factory nor vault is running, the
      relayer is enabled and signs, the request is funded and its floor known, it wants at least the delivery minimum,
      and the ledger the filler's turn leaves serves it. */
  lemma RelayerSwapIff(c: Scene, cfg: VaultConfig, stack: set<Address>, w: World, act: Action)
    requires Sound(c, cfg, w) && act.RelayerSwap?
    ensures var vault, q := VaultOf(c, act.q.owner), act.q;
            var s := F.VaultArgs(c.factory, w.state, w.ledger, vault, q);
            var handed := w.ledger.Transfer(cfg.usdc, vault, q.filler, s.amount);
            var v := w.(codes := if vault in w.codes then w.codes else w.codes[vault := cfg.vaultWasmHash]);
            SwapOf(c, stack, w, act).Some? <==>
              && c.factory !in stack && vault !in stack && (vault in w.codes ==> w.codes[vault] == cfg.vaultWasmHash)
              && q.relayer in act.signers && q.relayer in w.state.relayers
              && Floored(c.net, HostOf(w), vault, c.factory, s) && Wanted(HostOf(w), s) >= cfg.minDelivery
              && Callable(cfg.xlm, vault, c.factory) && Callable(q.filler, vault, c.factory) && handed.Some?
              && Serves(w.ledger, vault, cfg.xlm, Wanted(HostOf(w), s), handed.value,
                          Some(Play(c, stack + {c.factory, vault}, v.(ledger := handed.value), act.turn).ledger),
                          c.net.parse(q.owner).value)
  {
    var vault, q := VaultOf(c, act.q.owner), act.q;
    var v := w.(codes := if vault in w.codes then w.codes else w.codes[vault := w.state.config.vaultWasmHash]);
    var code := Filler(c, stack + {c.factory, vault}, v, act.turn);
    F.DeliversIff(c.net, c.factory, w.state, HostOf(w), w.codes, act.signers, q, code);
    hide F.VaultArgs;
    hide F.RelayedSwap;
    hide Serves;
    hide Floored;
    hide Wanted;
    hide Play;
    hide Network.Derive;
  }

  /** A swap called past the factory, by a contract that names itself the factory, goes through by the same conditions. */
  lemma DirectSwapIff(c: Scene, stack: set<Address>, w: World, act: Action)
    requires w.now <= U64_MAX && TimestampsFit(w.feeds) && act.DirectSwap?
    ensures var s := act.s;
            var handed := w.ledger.Transfer(s.config.usdc, act.vault, s.filler, s.amount);
            SwapOf(c, stack, w, act).Some? <==>
              && act.vault !in stack && act.invoker != c.factory && IsVault(w, act.vault)
              && Floored(c.net, HostOf(w), act.vault, act.invoker, s) && Wanted(HostOf(w), s) >= s.config.minDelivery
              && Callable(s.config.xlm, act.vault, s.factory) && Callable(s.filler, act.vault, s.factory) && handed.Some?
              && Serves(w.ledger, act.vault, s.config.xlm, Wanted(HostOf(w), s), handed.value,
                        Some(Play(c, stack + {act.invoker, act.vault}, w.(ledger := handed.value), act.turn).ledger),
                        c.net.parse(s.owner).value)
  {
    SwapIff(c.net, HostOf(w), act.vault, act.invoker, act.s, Filler(c, stack + {act.invoker, act.vault}, w, act.turn));
    hide Vaults.Swap;
    hide Serves;
    hide Floored;
    hide Wanted;
    hide Play;
    hide Network.Derive;
  }

  /** A withdrawal goes through exactly when the vault is not running and its owner, whatever factory it is claimed of,
      signs for something held that the owner can hold; all of it then moves. */
  lemma DirectWithdrawIff(c: Scene, stack: set<Address>, w: World, act: Action)
    requires act.DirectWithdraw?
    ensures var held, named := w.ledger.Balance(act.token, act.vault), c.net.parse(act.owner);
            var through := && act.vault !in stack && IsVault(w, act.vault)
                           && c.net.Derive(act.factory, act.owner) == act.vault && named.Some? && named.value in act.signers
                           && act.token.Contract? && act.token != act.vault && held > 0
                           && (named.value == act.vault
                               || w.ledger.Balance(act.token, named.value) + held <= 0x7fff_ffff_ffff_ffff_ffff_ffff_ffff_ffff);
            && (through <==> WithdrawalOf(c, stack, w, act).Some?)
            && (!through ==> Step(c, stack, w, act) == w)
            && (through ==> Some(Step(c, stack, w, act).ledger) == w.ledger.Transfer(act.token, act.vault, named.value, held))
  {
    WithdrawIff(c.net, w.ledger, act.vault, act.signers, act.owner, act.factory, act.token);
    hide Network.Derive;
    hide IsVault;
  }

  /** What else is done: oracles report, time is set between transactions, others move what is not a vault's, and deploy
      where the factory does not. */
  lemma OthersAct(c: Scene, stack: set<Address>, w: World, act: Action)
    ensures var v := Step(c, stack, w, act);
            && (act.Oracle? && TimestampsFit(act.feeds) ==> v == w.(feeds := act.feeds))
            && (act.Clock? && stack == {} && act.now < 0x1_0000_0000_0000_0000 ==> v == w.(now := act.now))
            && (act.Outside? && SparesVaultLike(w, act.ledger) ==> v == w.(ledger := act.ledger))
            && (act.OutsideDeploy? && !(FactoryPrefix(c) <= act.preimage) && Contract(c.net.sha256(act.preimage)) !in w.codes ==>
                  v == w.(codes := w.codes[Contract(c.net.sha256(act.preimage)) := act.code]))
            && (act.Admin? && c.factory !in stack && F.Administer(w.state, act.signers, act.call).Some? ==>
                  v == w.(state := F.Administer(w.state, act.signers, act.call).value))
  {
  }

  // --- The whole account ---

  /** What the fillers delivered in a call that is a relayer's swap for `owner`. */
  function BoughtBy(c: Scene, x: Call, owner: bytes): int {
    if x.act.RelayerSwap? && x.act.q.owner == owner then
      match SwapOf(c, x.stack, x.world, x.act) case Some(t) => t.out.amountOut case None => 0
    else 0
  }

  /** What such a call owes at the least: nine tenths of its amount at the prices it read. */
  function OwedBy(c: Scene, cfg: VaultConfig, x: Call, owner: bytes): nat {
    if x.act.RelayerSwap? && x.act.q.owner == owner then
      match SwapOf(c, x.stack, x.world, x.act)
      case Some(t) =>
        NineTenths(t.s.amount, PriceOf(x.world, cfg.oracle, cfg.usdcAsset), PriceOf(x.world, cfg.oracle, cfg.xlmAsset))
      case None => 0
    else 0
  }

  function PriceOf(w: World, oracle: Address, asset: nat): int {
    if (oracle, asset) in w.feeds then w.feeds[(oracle, asset)].price else 0
  }

  function Bought(c: Scene, calls: seq<Call>, owner: bytes): int {
    if calls == [] then 0 else Bought(c, calls[..|calls| - 1], owner) + BoughtBy(c, calls[|calls| - 1], owner)
  }

  function Owed(c: Scene, cfg: VaultConfig, calls: seq<Call>, owner: bytes): nat {
    if calls == [] then 0 else Owed(c, cfg, calls[..|calls| - 1], owner) + OwedBy(c, cfg, calls[|calls| - 1], owner)
  }

  /** Over any run, whatever fillers, relayers, admins and oracles did, the XLM that relayers' swaps bought for an owner,
      all of it paid to the owner in the same calls, is at least nine tenths of the USDC they swapped, each at the prices
      of its moment and rounded down to the stroop. */
  lemma RunsPayNineTenths(c: Scene, cfg: VaultConfig, w: World, acts: seq<Action>, owner: bytes)
    requires Genesis(c, cfg, w)
    ensures var calls := CallsIn(c, {}, w, acts); Bought(c, calls, owner) >= Owed(c, cfg, calls, owner)
  {
    ReachableSound(c, cfg, w, acts);
    hide CallsIn;
    hide Play;
    hide Sound;
    CallsPayNineTenths(c, cfg, CallsIn(c, {}, w, acts), owner);
  }

  lemma {:induction false} CallsPayNineTenths(c: Scene, cfg: VaultConfig, calls: seq<Call>, owner: bytes)
    requires AllSound(c, cfg, calls)
    ensures Bought(c, calls, owner) >= Owed(c, cfg, calls, owner)
  {
    hide Sound;
    hide OwedBy;
    hide BoughtBy;
    if calls != [] {
      var k := |calls| - 1;
      CallsPayNineTenths(c, cfg, calls[..k], owner);
      CallPaysNineTenths(c, cfg, calls[k], owner);
    }
  }

  lemma CallPaysNineTenths(c: Scene, cfg: VaultConfig, x: Call, owner: bytes)
    requires Sound(c, cfg, x.world)
    ensures BoughtBy(c, x, owner) >= OwedBy(c, cfg, x, owner)
  {
    hide SwapOf;
    hide Sound;
    hide NineTenths;
    hide FairlyPaid;
    if x.act.RelayerSwap? && SwapOf(c, x.stack, x.world, x.act).Some? {
      SwapIsFair(c, cfg, x);
    }
  }
}
