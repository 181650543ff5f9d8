/** The Soroban host as the delivery contracts see it: token balances in checked `i128`, and calls into code the caller
    does not control. */
module Soroban {
  import opened Basics
  import opened Layout

  const I128_MAX: nat := 0x7fff_ffff_ffff_ffff_ffff_ffff_ffff_ffff
  const U64_MAX: nat := 0xffff_ffff_ffff_ffff

  /** An account, by its public key, or a contract, by its id. */
  datatype Address = Account(key: bytes) | Contract(id: bytes)

  /** The XDR of an address. */
  function XdrAddress(a: Address): bytes {
    match a
    case Account(key) => BigEndian(0, 4) + BigEndian(0, 4) + key
    case Contract(id) => ContractXdr(id)
  }

  /** In bytes: type 0 and key type 0 before an account's key, type 1 before a contract's id. */
  lemma XdrAddressIs(key: bytes)
    ensures XdrAddress(Account(key)) == [0, 0, 0, 0, 0, 0, 0, 0] + key
    ensures XdrAddress(Contract(key)) == [0, 0, 0, 1] + key
  {
    var zero, one := BigEndian(0, 4), BigEndian(1, 4);
    assert zero == [0, 0, 0, 0] by { FourBytes(0); }
    assert one == [0, 0, 0, 1] by { FourBytes(1); }
    hide BigEndian;
    assert zero + zero == [0, 0, 0, 0, 0, 0, 0, 0];
  }

  lemma XdrAddressInjective(a: Address, b: Address)
    requires XdrAddress(a) == XdrAddress(b)
    ensures a == b
  {
    var x, y := if a.Account? then a.key else a.id, if b.Account? then b.key else b.id;
    var account: bytes, contract: bytes := [0, 0, 0, 0, 0, 0, 0, 0], [0, 0, 0, 1];
    XdrAddressIs(x);
    XdrAddressIs(y);
    assert (account + x)[3] == (account + y)[3] == 0 && (contract + x)[3] == (contract + y)[3] == 1;
    hide XdrAddress;
    if a.Contract? && b.Contract? {
      Cut(contract, x, contract, y);
    } else if a.Account? && b.Account? {
      Cut(account, x, account, y);
    }
  }

  /** Checked `i128` product of two non-negative factors. */
  function CheckedMul(a: nat, b: nat): (r: Option<nat>)
    ensures r == if a * b > I128_MAX then None else Some(a * b)
  {
    if a * b > I128_MAX then None else Some(a * b)
  }

  function SaturatingAdd(a: nat, b: nat): nat {
    Min(a + b, U64_MAX)
  }

  function SaturatingSub(a: nat, b: nat): nat {
    Max(0, a - b)
  }

  /** A contract that can be called while `x` and `y` are on the stack: the host refuses re-entry, and an account has no
      code. */
  predicate Callable(a: Address, x: Address, y: Address) {
    a.Contract? && a != x && a != y
  }

  datatype Ledger = Ledger(balances: map<(Address, Address), nat>) {

    function Balance(token: Address, who: Address): nat {
      if (token, who) in balances then balances[(token, who)] else 0
    }

    function Set(token: Address, who: Address, v: nat): (l: Ledger)
      ensures forall t, x :: l.Balance(t, x) == if t == token && x == who then v else Balance(t, x)
    {
      Ledger(balances[(token, who) := v])
    }

    /** A token transfer: refused for a negative or uncovered amount, or when the receiver's balance would overflow. */
    function Transfer(token: Address, from: Address, to: Address, amount: int): (r: Option<Ledger>)
      ensures r.Some? ==> 0 <= amount <= Balance(token, from)
      ensures r.Some? ==> forall t, x ::
                r.value.Balance(t, x) ==
                Balance(t, x) - (if t == token && x == from then amount else 0) + (if t == token && x == to then amount else 0)
      ensures r.None? <==> amount < 0 || amount > Balance(token, from)
                           || (from != to && Balance(token, to) + amount > I128_MAX)
    {
      if amount < 0 || amount > Balance(token, from) then None
      else if from == to then Some(this)
      else if Balance(token, to) + amount > I128_MAX then None
      else Some(Set(token, from, Balance(token, from) - amount).Set(token, to, Balance(token, to) + amount))
    }

    predicate Below(bound: nat) {
      forall k | k in balances.Keys :: balances[k] < bound
    }

    /** No balance of `who` fell from here to `l`, in any token. */
    predicate SparesAll(l: Ledger, who: Address) {
      forall k | k in balances.Keys :: k.1 == who ==> l.Balance(k.0, k.1) >= balances[k]
    }
  }

  lemma SparesAllMeaning(l: Ledger, m: Ledger, who: Address, token: Address)
    requires l.SparesAll(m, who)
    ensures m.Balance(token, who) >= l.Balance(token, who)
  {
    if (token, who) in l.balances {
      assert (token, who) in l.balances.Keys;
    }
  }

  /** A route hint for a filler, already decoded: a chain of tokens to obtain, or bytes that are no chain. */
  datatype RouteData = NotARoute | Route(hops: seq<Address>)

  datatype FillCall = FillCall(recipient: Address, tokenIn: Address, amountIn: int, tokenOut: Address, minOut: int, data: RouteData)

  /** Code nobody here controls: it may rewrite the ledger, or fail. */
  type FillerCode = (Ledger, FillCall) -> Option<Ledger>

  /** A host call into such code while `caller` is on the stack: the caller cannot be re-entered and signs nothing, so a
      result that takes any token from it is not one the host lets happen; nor is a balance outside `i128`. */
  function HostCall(code: FillerCode, l: Ledger, c: FillCall, caller: Address): Option<Ledger> {
    match code(l, c)
    case None => None
    case Some(m) => if l.SparesAll(m, caller) && m.Below(I128_MAX + 1) then Some(m) else None
  }
}
