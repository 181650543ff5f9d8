/** `src/DepositFactory.sol`: deploys clones at the addresses their commitments derive to. */
module DepositFactories {
  import opened Basics
  import opened Tokens
  import opened Settings
  import opened Layout
  import opened Settlement
  import opened Forwarders
  import opened Derivation

  /** A 20-byte address as a number. */
  function AsAddress(a: bytes): Address {
    FromBigEndian(a)
  }

  lemma {:induction false} BytesAreTheirNumber(x: bytes, y: bytes)
    requires |x| == |y| && FromBigEndian(x) == FromBigEndian(y)
    ensures x == y
  {
    if x != [] {
      var k := |x| - 1;
      BytesAreTheirNumber(x[..k], y[..k]);
      assert x == x[..k] + [x[k]] && y == y[..k] + [y[k]];
    }
  }

  /** Two commitments whose clones stand at one address are one commitment, or exhibit a hash collision. */
  lemma AddressesAreDistinct(keccak: Hash, factory: bytes, implementation: bytes,
                             r1: bytes, i1: nat, f1: bool, r2: bytes, i2: nat, f2: bool)
    requires forall x :: Digest(keccak(x))
    requires i1 < Pow256(32) && i2 < Pow256(32)
    requires DepositAddress(keccak, factory, implementation, r1, i1, f1).Some?
    requires DepositAddress(keccak, factory, implementation, r2, i2, f2).Some?
    requires AsAddress(DepositAddress(keccak, factory, implementation, r1, i1, f1).value)
             == AsAddress(DepositAddress(keccak, factory, implementation, r2, i2, f2).value)
    ensures || (r1 == r2 && i1 == i2 && f1 == f2)
            || Collides(keccak, AbiEncode(r1, i1), AbiEncode(r2, i2))
            || Collides(keccak, InitCode(implementation, Args(r1, f1)), InitCode(implementation, Args(r2, f2)))
            || Collides(Address20(keccak),
                        Create2Preimage(factory, keccak(AbiEncode(r1, i1)), keccak(InitCode(implementation, Args(r1, f1)))),
                        Create2Preimage(factory, keccak(AbiEncode(r2, i2)), keccak(InitCode(implementation, Args(r2, f2)))))
  {
    DepositAddressIsTwentyBytes(keccak, factory, implementation, r1, i1, f1);
    DepositAddressIsTwentyBytes(keccak, factory, implementation, r2, i2, f2);
    var a1, a2 := DepositAddress(keccak, factory, implementation, r1, i1, f1).value,
                  DepositAddress(keccak, factory, implementation, r2, i2, f2).value;
    BytesAreTheirNumber(a1, a2);
    hide DepositAddress;
    hide Collides;
    hide Pow256;
    AddressCommits(keccak, factory, implementation, r1, i1, f1, r2, i2, f2);
  }

  const NEW_CLONE := CloneState(0, 0, false)

  class DepositFactory {
    const keccak: Hash
    const self: bytes
    const implementation: bytes
    const config: Config
    const chain: Chain
    var clones: map<Address, Forwarder>

    constructor (keccak: Hash, self: bytes, implementation: bytes, config: Config, chain: Chain)
      ensures this.keccak == keccak && this.self == self && this.implementation == implementation
      ensures this.config == config && this.chain == chain && clones == map[]
    {
      this.keccak, this.self, this.implementation := keccak, self, implementation;
      this.config, this.chain, clones := config, chain, map[];
    }

    /** Where a commitment lives; `None` where the clone library refuses its length. */
    function AddressOf(recipient: bytes, index: nat, fast: bool): Option<Address> {
      match DepositAddress(keccak, self, implementation, recipient, index, fast)
      case None => None
      case Some(a) => Some(AsAddress(a))
    }

    function SiteFor(a: Address, recipient: bytes, fast: bool): Site {
      Settlement.Site(a, AsAddress(implementation), Args(recipient, fast))
    }

    /** Every clone sits at its own address, over this factory's implementation, config and chain. */
    ghost predicate Valid()
      reads this
    {
      forall a :: a in clones ==>
        && clones[a].self == a && clones[a].implementation == AsAddress(implementation)
        && clones[a].config == config && clones[a].chain == chain
        && (a != AsAddress(implementation) ==> |clones[a].args| > 0)
    }

    /** Storage at an address: a deployed clone's, or the zeros a deployment would leave. */
    function StateAt(a: Address): CloneState
      reads this, clones.Values
    {
      if a in clones then clones[a].View() else NEW_CLONE
    }

    /** `deploy`: the clone already there, untouched, or a new one that reads back exactly this commitment. */
    method Deploy(recipient: bytes, index: nat, fast: bool) returns (r: Option<Forwarder>)
      requires Valid()
      modifies this
      ensures Valid()
      ensures r.Some? == AddressOf(recipient, index, fast).Some?
      ensures r.None? ==> clones == old(clones)
      ensures r.Some? ==>
                var a := AddressOf(recipient, index, fast).value;
                && clones == old(clones)[a := r.value]
                && if a in old(clones) then r.value == old(clones)[a]
                   else
                     && fresh(r.value) && r.value.Site() == SiteFor(a, recipient, fast) && r.value.View() == NEW_CLONE
                     && RecipientOf(r.value.args) == recipient && FastOf(r.value.args) == fast
    {
      var args := Args(recipient, fast);
      var computed := AddressOf(recipient, index, fast);
      if computed.None? { return None; }
      var address := computed.value;
      if address in clones { return Some(clones[address]); }
      ArgsReadBack(recipient, fast);
      var forwarder := new Forwarder(address, AsAddress(implementation), args, config, chain);
      clones := clones[address := forwarder];
      return Some(forwarder);
    }

    /** `deployAndFlush`: open to operators, or to everyone under public flush; the clone sees this factory as its
        caller. A failed flush takes the deployment back with it. */
    method DeployAndFlush(caller: Address, recipient: bytes, index: nat, fast: bool) returns (ok: bool)
      requires Valid()
      requires var a := AddressOf(recipient, index, fast);
               a.Some? && a.value in clones ==> clones[a.value].Site() == SiteFor(a.value, recipient, fast)
      modifies this, chain, clones.Values
      ensures Valid()
      ensures var a := AddressOf(recipient, index, fast);
              var e := if a.None? then None
                       else old(Flush(config.View(), chain.Env(), SiteFor(a.value, recipient, fast), StateAt(a.value), AsAddress(self)));
              && ok == (e.Some? && (caller in config.operators || config.publicFlush))
              && (ok ==>
                    && a.value in clones && clones.Keys == old(clones).Keys + {a.value}
                    && clones[a.value].View() == e.value.state
                    && chain.ledger == e.value.ledger
                    && chain.burns == old(chain.burns) + [e.value.message])
              && (!ok ==> clones == old(clones) && chain.Env() == old(chain.Env()) && chain.burns == old(chain.burns)
                          && forall b :: b in clones ==> clones[b].View() == old(StateAt(b)))
    {
      hide Flush;
      hide DepositAddress;
      var saved := clones;
      var deployed := Deploy(recipient, index, fast);
      if deployed.None? { return false; }
      if !(caller in config.operators || config.publicFlush) {
        clones := saved;
        return false;
      }
      ghost var a := AddressOf(recipient, index, fast).value;
      assert a in old(clones) ==> deployed.value in old(clones.Values);
      assert clones[a] == deployed.value && deployed.value.chain == chain && deployed.value.config == config;
      assert a in old(clones) || fresh(deployed.value);
      assert deployed.value.Site() == SiteFor(a, recipient, fast) && deployed.value.View() == old(StateAt(a));
      ok := deployed.value.Flush(AsAddress(self));
      if !ok { clones := saved; }
    }
  }
}
