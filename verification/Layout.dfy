/** Byte layouts shared by the contracts and the off-chain derivation: big-endian integers, a clone's immutable
    arguments, and the hook data a burn carries. */
module Layout {
  import opened Basics

  type byte = x: int | 0 <= x < 256
  type bytes = seq<byte>

  function Pow256(n: nat): (p: nat)
    ensures p >= 1
  {
    if n == 0 then 1 else 256 * Pow256(n - 1)
  }

  /** The low `width` bytes of `v`, most significant first. */
  function BigEndian(v: nat, width: nat): (s: bytes)
    ensures |s| == width
  {
    if width == 0 then [] else BigEndian(v / 256, width - 1) + [v % 256]
  }

  function FromBigEndian(s: bytes): nat {
    if s == [] then 0 else FromBigEndian(s[..|s| - 1]) * 256 + s[|s| - 1]
  }

  /** A value that fits its field reads back unchanged. */
  lemma {:induction false} BigEndianRoundTrip(v: nat, width: nat)
    requires v < Pow256(width)
    ensures FromBigEndian(BigEndian(v, width)) == v
  {
    if width > 0 {
      BigEndianRoundTrip(v / 256, width - 1);
      var s := BigEndian(v, width);
      assert s[..|s| - 1] == BigEndian(v / 256, width - 1);
    }
  }

  lemma TimesRegroups(q: nat, a: nat, b: nat)
    ensures q * b * a == q * (a * b)
  {
  }

  lemma NestedBounds(v: nat, a: nat, b: nat, p: nat, q: nat)
    requires p * a <= v < (p + 1) * a && q * b <= p < (q + 1) * b
    ensures q * (a * b) <= v < (q + 1) * (a * b)
  {
    MulMono(q * b, p, a);
    MulMono(p + 1, (q + 1) * b, a);
    TimesRegroups(q, a, b);
    TimesRegroups(q + 1, a, b);
  }

  lemma QuotientOfQuotient(v: nat, a: nat, b: nat)
    requires a > 0 && b > 0 && a * b > 0
    ensures Quotient(Quotient(v, a), b) == Quotient(v, a * b)
  {
    var p := Quotient(v, a);
    var q := Quotient(p, b);
    hide Quotient;
    QuotientIs(v, a, p);
    QuotientIs(p, b, q);
    NestedBounds(v, a, b, p, q);
    QuotientIs(v, a * b, q);
  }

  /** Byte by byte: the `i`th byte of the field is the digit of 256^(width-1-i). */
  lemma {:induction false} BigEndianAt(v: nat, width: nat, i: nat)
    requires i < width
    ensures BigEndian(v, width)[i] == v / Pow256(width - 1 - i) % 256
    decreases width
  {
    var k := width - 1 - i;
    if k > 0 {
      BigEndianAt(v / 256, width - 1, i);
      QuotientOfQuotient(v, 256, Pow256(k - 1));
      assert v / 256 / Pow256(k - 1) == v / Pow256(k);
      assert BigEndian(v, width)[i] == BigEndian(v / 256, width - 1)[i];
    }
  }

  lemma SmallPowers()
    ensures Pow256(0) == 1 && Pow256(1) == 0x100 && Pow256(2) == 0x1_0000 && Pow256(3) == 0x100_0000 && Pow256(4) == UINT32
    ensures UINT32 == 4_294_967_296
  {
    assert Pow256(1) == 256 * Pow256(0) && Pow256(2) == 256 * Pow256(1) && Pow256(3) == 256 * Pow256(2);
    assert Pow256(4) == 256 * Pow256(3);
  }

  /** A four-byte field, written out. */
  lemma FourBytes(v: nat)
    ensures BigEndian(v, 4) == [v / 0x100_0000 % 256, v / 0x1_0000 % 256, v / 0x100 % 256, v % 256]
  {
    SmallPowers();
    BigEndianAt(v, 4, 0);
    BigEndianAt(v, 4, 1);
    BigEndianAt(v, 4, 2);
    BigEndianAt(v, 4, 3);
    hide BigEndian;
    hide Pow256;
  }

  function Zeros(n: nat): (s: bytes)
    ensures |s| == n
  {
    seq(n, _ => 0)
  }

  /** `abi.encodePacked(recipient, fast ? uint8(1) : uint8(0))`. */
  function Args(recipient: bytes, fast: bool): (args: bytes)
    ensures |args| == |recipient| + 1
  {
    recipient + [if fast then 1 else 0]
  }

  /** How a clone reads its own arguments back: every byte but the trailing flag, and the flag. */
  function RecipientOf(args: bytes): bytes
    requires |args| > 0
  {
    args[..|args| - 1]
  }

  predicate FastOf(args: bytes)
    requires |args| > 0
  {
    args[|args| - 1] != 0
  }

  /** The clone reads back exactly the recipient and flag its address committed. */
  lemma ArgsReadBack(recipient: bytes, fast: bool)
    ensures RecipientOf(Args(recipient, fast)) == recipient
    ensures FastOf(Args(recipient, fast)) == fast
    ensures Args(recipient, fast) == recipient + (if fast then [1] else [0])
  {
  }

  const UINT32: nat := 0x1_0000_0000

  /** 24 zero bytes, `uint32 version = 0`, `uint32 length`, then the recipient. */
  function HookData(recipient: bytes): bytes {
    Zeros(24) + BigEndian(0, 4) + BigEndian(|recipient| % UINT32, 4) + recipient
  }

  /** A parser of that frame: version 0, and a length that covers exactly the rest. */
  function ParseHookData(hook: bytes): Option<bytes> {
    if |hook| < 32 || FromBigEndian(hook[24..28]) != 0 || FromBigEndian(hook[28..32]) != |hook| - 32 then None
    else Some(hook[32..])
  }

  /** The frame decodes to the committed recipient exactly when its length fits the `uint32` field. */
  lemma HookDataDecodes(recipient: bytes)
    ensures ParseHookData(HookData(recipient)) == Some(recipient) <==> |recipient| < UINT32
  {
    var hook := HookData(recipient);
    assert hook[24..28] == BigEndian(0, 4);
    assert hook[28..32] == BigEndian(|recipient| % UINT32, 4);
    assert hook[32..] == recipient;
    assert Pow256(4) == UINT32 by {
      assert Pow256(1) == 256 && Pow256(2) == 65536 && Pow256(3) == 16777216;
    }
    BigEndianRoundTrip(0, 4);
    BigEndianRoundTrip(|recipient| % UINT32, 4);
  }

  /** The frame in bytes: 28 zeros, the low 32 bits of the length, most significant byte first, and the recipient. */
  lemma HookDataIs(recipient: bytes)
    ensures var h, n := HookData(recipient), |recipient| % 4_294_967_296;
            && |h| == 32 + |recipient| && (forall i :: 0 <= i < 28 ==> h[i] == 0)
            && h[28..32] == [n / 0x100_0000 % 256, n / 0x1_0000 % 256, n / 0x100 % 256, n % 256]
            && h[32..] == recipient
  {
    FourBytes(0);
    FourBytes(|recipient| % UINT32);
    SmallPowers();
    hide BigEndian;
    hide Pow256;
    assert HookData(recipient)[28..32] == BigEndian(|recipient| % UINT32, 4);
    assert HookData(recipient)[24..28] == BigEndian(0, 4) == [0, 0, 0, 0];
    assert forall i :: 24 <= i < 28 ==> HookData(recipient)[i] == HookData(recipient)[24..28][i - 24];
  }

  /** A 32-byte hash of any byte string. */
  type Hash = bytes -> bytes

  predicate Digest(h: bytes) {
    |h| == 32
  }

  /** Two inputs on which a hash collides. */
  predicate Collides(hash: Hash, x: bytes, y: bytes) {
    x != y && hash(x) == hash(y)
  }

  /** Strings that agree, cut at the same place, agree on both sides of the cut. */
  lemma Cut(a: bytes, b: bytes, c: bytes, d: bytes)
    requires a + b == c + d && |a| == |c|
    ensures a == c && b == d
  {
    assert (a + b)[..|a|] == a && (c + d)[..|a|] == c;
    assert (a + b)[|a|..] == b && (c + d)[|a|..] == d;
  }

  /** The XDR of a contract's `ScAddress`. */
  function ContractXdr(id: bytes): bytes {
    BigEndian(1, 4) + id
  }

  /** The XDR of `HashIdPreimage::ContractId { network_id, ContractIdPreimage::Address { address, salt } }`, given the
      address in XDR. */
  function ContractIdPreimage(networkId: bytes, address: bytes, salt: bytes): bytes {
    BigEndian(8, 4) + networkId + BigEndian(0, 4) + address + salt
  }

  /** The preimage determines network, deployer and salt. */
  lemma ContractIdPreimageInjective(n1: bytes, a1: bytes, s1: bytes, n2: bytes, a2: bytes, s2: bytes)
    requires |n1| == |n2| && |s1| == |s2|
    requires ContractIdPreimage(n1, a1, s1) == ContractIdPreimage(n2, a2, s2)
    ensures n1 == n2 && a1 == a2 && s1 == s2
  {
    hide BigEndian;
    var head, mid := BigEndian(8, 4), BigEndian(0, 4);
    assert ContractIdPreimage(n1, a1, s1) == head + (n1 + (mid + (a1 + s1)));
    assert ContractIdPreimage(n2, a2, s2) == head + (n2 + (mid + (a2 + s2)));
    Cut(head, n1 + (mid + (a1 + s1)), head, n2 + (mid + (a2 + s2)));
    Cut(n1, mid + (a1 + s1), n2, mid + (a2 + s2));
    Cut(mid, a1 + s1, mid, a2 + s2);
    Cut(a1, s1, a2, s2);
  }

  /** The preimage in bytes: envelope type 8, the network, preimage type 0, the address (type 1 and the id, for a contract),
      and the salt. */
  lemma ContractIdPreimageIs(networkId: bytes, address: bytes, salt: bytes, id: bytes)
    ensures ContractIdPreimage(networkId, address, salt) == [0, 0, 0, 8] + networkId + [0, 0, 0, 0] + address + salt
    ensures ContractXdr(id) == [0, 0, 0, 1] + id
  {
    FourBytes(8);
    FourBytes(0);
    FourBytes(1);
    hide BigEndian;
  }
}
