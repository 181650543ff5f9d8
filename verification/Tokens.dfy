/** Balances on one EVM chain: ERC-20 balances and the native coin. On a chain whose native coin *is* one of the
    tokens, that token has no ledger of its own: `balanceOf` is the native balance truncated from 18 to 6
    decimals. Every operation states its effect on `BalanceOf`, the only view settlement ever takes, so what is
    proved above this module holds on both kinds of chain. */
module Tokens {
  import opened Basics

  /** 20-byte addresses as numbers; 0 is `address(0)`. */
  type Address = nat

  /** Native subunits per token subunit on a shared-ledger chain (18 against 6 decimals). */
  const WEI_PER_UNIT: nat := 1_000_000_000_000

  datatype Ledger = Ledger(erc20: map<(Address, Address), nat>, native: map<Address, nat>, nativeToken: Option<Address>) {

    function Native(a: Address): nat {
      if a in native then native[a] else 0
    }

    predicate Shared(token: Address) {
      nativeToken == Some(token)
    }

    function BalanceOf(token: Address, a: Address): nat {
      if Shared(token) then Native(a) / WEI_PER_UNIT
      else if (token, a) in erc20 then erc20[(token, a)] else 0
    }

    function Credit(token: Address, a: Address, v: nat): (l: Ledger)
      ensures l.nativeToken == nativeToken
      ensures forall x :: l.BalanceOf(token, x) == BalanceOf(token, x) + if x == a then v else 0
    {
      if Shared(token) then this.(native := native[a := Native(a) + v * WEI_PER_UNIT])
      else this.(erc20 := erc20[(token, a) := BalanceOf(token, a) + v])
    }

    function Debit(token: Address, a: Address, v: nat): (l: Ledger)
      requires v <= BalanceOf(token, a)
      ensures l.nativeToken == nativeToken
      ensures forall x :: l.BalanceOf(token, x) == BalanceOf(token, x) - if x == a then v else 0
    {
      if Shared(token) then this.(native := native[a := Native(a) - v * WEI_PER_UNIT])
      else this.(erc20 := erc20[(token, a) := BalanceOf(token, a) - v])
    }

    /** A self-transfer leaves every balance where it was. */
    function Transfer(token: Address, from: Address, to: Address, v: nat): (l: Ledger)
      requires v <= BalanceOf(token, from)
      ensures l.nativeToken == nativeToken
      ensures forall x :: l.BalanceOf(token, x) ==
                          BalanceOf(token, x) - (if x == from then v else 0) + (if x == to then v else 0)
    {
      Debit(token, from, v).Credit(token, to, v)
    }

    /** Native coin arriving at `a`: visible in `BalanceOf` only where the token is the native coin. */
    function NativeCredit(a: Address, wei: nat): (l: Ledger)
      ensures l.nativeToken == nativeToken && l.erc20 == erc20
      ensures forall x :: l.Native(x) == Native(x) + if x == a then wei else 0
    {
      this.(native := native[a := Native(a) + wei])
    }

    function NativeDebit(a: Address, wei: nat): (l: Ledger)
      requires wei <= Native(a)
      ensures l.nativeToken == nativeToken && l.erc20 == erc20
      ensures forall x :: l.Native(x) == Native(x) - if x == a then wei else 0
    {
      this.(native := native[a := Native(a) - wei])
    }

    function NativeTransfer(from: Address, to: Address, wei: nat): (l: Ledger)
      requires wei <= Native(from)
      ensures l.nativeToken == nativeToken && l.erc20 == erc20
      ensures forall x :: l.Native(x) == Native(x) - (if x == from then wei else 0) + (if x == to then wei else 0)
    {
      NativeDebit(from, wei).NativeCredit(to, wei)
    }
  }

  /** Moving another token touches no balance of this one. */
  lemma TransferElsewhere(l: Ledger, moved: Address, from: Address, to: Address, v: nat, token: Address)
    requires v <= l.BalanceOf(moved, from)
    requires moved != token
    ensures forall x :: l.Transfer(moved, from, to, v).BalanceOf(token, x) == l.BalanceOf(token, x)
  {
  }
}
