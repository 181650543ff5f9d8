/** Deposit-address derivation: the byte strings that are hashed, as the contracts define them (EIP-1014 CREATE2 over
    OpenZeppelin's clone-with-immutable-args code, Solidity ABI encoding), and the SDK's buffer-building code proved to
    produce exactly those. Hash functions are parameters. */
module Derivation {
  import opened Basics
  import opened Layout

  const MAX_ARGS: nat := 0x5fd3

  /** The proxy's code before and after the address it delegates to. */
  const BEFORE_HEX := "3d81600a3d39f3363d3d373d3d3d363d73"
  const AFTER_HEX := "5af43d82803e903d91602b57fd5bf3"

  function CodeBefore(): bytes {
    assert IsHex(BEFORE_HEX);
    FromHex(BEFORE_HEX)
  }

  function CodeAfter(): bytes {
    assert IsHex(AFTER_HEX);
    FromHex(AFTER_HEX)
  }

  function PadTo32(n: nat): nat {
    CeilDiv(n, 32) * 32 - n
  }

  /** `abi.encode(bytes data, uint256 value)`. */
  function AbiEncode(data: bytes, value: nat): bytes {
    BigEndian(0x40, 32) + BigEndian(value, 32) + BigEndian(|data|, 32) + data + Zeros(PadTo32(|data|))
  }

  function InitCode(implementation: bytes, args: bytes): bytes {
    [0x61] + BigEndian(|args| + 0x2d, 2) + CodeBefore() + implementation + CodeAfter() + args
  }

  function Create2Preimage(factory: bytes, salt: bytes, codeHash: bytes): bytes {
    [0xff] + factory + salt + codeHash
  }

  /** The last 20 bytes of a digest. */
  function Truncated(digest: bytes): bytes {
    if |digest| >= 12 then digest[12..] else []
  }

  /** `DepositFactory.computeAddress`; `None` where the arguments are too long for the clone library. */
  function DepositAddress(keccak: Hash, factory: bytes, implementation: bytes, recipient: bytes, index: nat, fast: bool): Option<bytes> {
    var args := Args(recipient, fast);
    if |args| > MAX_ARGS then None
    else Some(Truncated(keccak(Create2Preimage(factory, keccak(AbiEncode(recipient, index)), keccak(InitCode(implementation, args))))))
  }

  // --- The preimages determine what they commit to ---

  lemma {:induction false} BigEndianInjective(v: nat, w: nat, width: nat)
    requires v < Pow256(width) && w < Pow256(width)
    requires BigEndian(v, width) == BigEndian(w, width)
    ensures v == w
  {
    BigEndianRoundTrip(v, width);
    BigEndianRoundTrip(w, width);
  }

  /** The ABI encoding of (bytes, uint256) is injective. */
  lemma AbiEncodeInjective(d1: bytes, v1: nat, d2: bytes, v2: nat)
    requires |d1| < Pow256(32) && |d2| < Pow256(32) && v1 < Pow256(32) && v2 < Pow256(32)
    requires AbiEncode(d1, v1) == AbiEncode(d2, v2)
    ensures d1 == d2 && v1 == v2
  {
    hide Pow256;
    hide BigEndian;
    var t1, t2 := d1 + Zeros(PadTo32(|d1|)), d2 + Zeros(PadTo32(|d2|));
    var l1, l2 := BigEndian(|d1|, 32) + t1, BigEndian(|d2|, 32) + t2;
    var m1, m2 := BigEndian(v1, 32) + l1, BigEndian(v2, 32) + l2;
    assert AbiEncode(d1, v1) == BigEndian(0x40, 32) + m1 && AbiEncode(d2, v2) == BigEndian(0x40, 32) + m2;
    Cut(BigEndian(0x40, 32), m1, BigEndian(0x40, 32), m2);
    Cut(BigEndian(v1, 32), l1, BigEndian(v2, 32), l2);
    Cut(BigEndian(|d1|, 32), t1, BigEndian(|d2|, 32), t2);
    BigEndianInjective(v1, v2, 32);
    BigEndianInjective(|d1|, |d2|, 32);
    Cut(d1, Zeros(PadTo32(|d1|)), d2, Zeros(PadTo32(|d2|)));
  }

  /** The clone's creation code determines its immutable arguments. */
  lemma InitCodeInjective(implementation: bytes, args1: bytes, args2: bytes)
    requires InitCode(implementation, args1) == InitCode(implementation, args2)
    ensures args1 == args2
  {
    hide CodeBefore;
    hide CodeAfter;
    var c := CodeBefore() + implementation + CodeAfter();
    var a1, a2 := [0x61] + BigEndian(|args1| + 0x2d, 2), [0x61] + BigEndian(|args2| + 0x2d, 2);
    assert InitCode(implementation, args1) == a1 + (c + args1) && InitCode(implementation, args2) == a2 + (c + args2);
    Cut(a1, c + args1, a2, c + args2);
    Cut(c, args1, c, args2);
  }

  /** The two-byte length field holds the exact length for every argument string the clone library accepts. */
  lemma LengthFieldExact(args: bytes)
    ensures FromBigEndian(BigEndian(|args| + 0x2d, 2)) == |args| + 0x2d <==> |args| + 0x2d < 0x1_0000
    ensures |args| <= MAX_ARGS ==> |args| + 0x2d < 0x1_0000
  {
    assert Pow256(1) == 256 && Pow256(2) == 0x1_0000;
    if |args| + 0x2d < 0x1_0000 {
      BigEndianRoundTrip(|args| + 0x2d, 2);
    } else {
      TwoBytesAreSmall(BigEndian(|args| + 0x2d, 2));
    }
  }

  lemma TwoBytesAreSmall(s: bytes)
    requires |s| == 2
    ensures FromBigEndian(s) < 0x1_0000
  {
    assert s[..1][..0] == [];
    assert FromBigEndian(s[..1]) == s[0];
  }

  /** The hash cut to the 20 bytes an address keeps. */
  function Address20(keccak: Hash): Hash {
    x => Truncated(keccak(x))
  }

  /** Two commitments with one deposit address are the same commitment, or exhibit a hash collision: no reliance on an
      idealised hash. */
  lemma AddressCommits(keccak: Hash, factory: bytes, implementation: bytes,
                       r1: bytes, i1: nat, f1: bool, r2: bytes, i2: nat, f2: bool)
    requires forall x :: Digest(keccak(x))
    requires i1 < Pow256(32) && i2 < Pow256(32)
    requires DepositAddress(keccak, factory, implementation, r1, i1, f1).Some?
    requires DepositAddress(keccak, factory, implementation, r1, i1, f1) == DepositAddress(keccak, factory, implementation, r2, i2, f2)
    ensures || (r1 == r2 && i1 == i2 && f1 == f2)
            || Collides(keccak, AbiEncode(r1, i1), AbiEncode(r2, i2))
            || Collides(keccak, InitCode(implementation, Args(r1, f1)), InitCode(implementation, Args(r2, f2)))
            || Collides(Address20(keccak),
                        Create2Preimage(factory, keccak(AbiEncode(r1, i1)), keccak(InitCode(implementation, Args(r1, f1)))),
                        Create2Preimage(factory, keccak(AbiEncode(r2, i2)), keccak(InitCode(implementation, Args(r2, f2)))))
  {
    hide Pow256;
    hide AbiEncode;
    hide InitCode;
    var s1, s2 := keccak(AbiEncode(r1, i1)), keccak(AbiEncode(r2, i2));
    var c1, c2 := keccak(InitCode(implementation, Args(r1, f1))), keccak(InitCode(implementation, Args(r2, f2)));
    var p1, p2 := Create2Preimage(factory, s1, c1), Create2Preimage(factory, s2, c2);
    if p1 == p2 {
      assert p1 == ([0xff] + factory) + (s1 + c1) && p2 == ([0xff] + factory) + (s2 + c2);
      Cut([0xff] + factory, s1 + c1, [0xff] + factory, s2 + c2);
      Cut(s1, c1, s2, c2);
      if AbiEncode(r1, i1) == AbiEncode(r2, i2) && InitCode(implementation, Args(r1, f1)) == InitCode(implementation, Args(r2, f2)) {
        RecipientLengthFits(r1);
        RecipientLengthFits(r2);
        AbiEncodeInjective(r1, i1, r2, i2);
        InitCodeInjective(implementation, Args(r1, f1), Args(r2, f2));
        ArgsReadBack(r1, f1);
        ArgsReadBack(r2, f2);
      }
    }
  }

  lemma RecipientLengthFits(r: bytes)
    requires |r| < MAX_ARGS
    ensures |r| < Pow256(32)
  {
    Pow256Mono(2, 32);
  }

  lemma {:induction false} Pow256Mono(m: nat, n: nat)
    requires m <= n
    ensures Pow256(m) <= Pow256(n)
    ensures m >= 2 ==> Pow256(m) >= 0x1_0000
    decreases n
  {
    if m < n {
      Pow256Mono(m, n - 1);
    } else if m > 2 {
      Pow256Mono(m - 1, n - 1);
    } else {
      assert Pow256(1) == 256;
    }
  }

  // --- The preimages, read by others ---

  /** Reading `(bytes, uint256)` by the ABI rules: the head holds the byte offset of the dynamic part and the value; at
      that offset stand its length, its bytes, and zeros up to a whole word. */
  function AbiDecode(e: bytes): Option<(bytes, nat)> {
    if |e| < 64 then None
    else
      var at := FromBigEndian(e[..32]);
      if at != 64 || |e| < at + 32 then None
      else
        var n := FromBigEndian(e[at..at + 32]);
        var from := at + 32;
        if |e| < from + n || |e| % 32 != 0 || |e| >= from + n + 32 || e[from + n..] != Zeros(|e| - from - n) then None
        else Some((e[from..from + n], FromBigEndian(e[32..64])))
  }

  /** What is hashed for the salt is what any ABI decoder reads as the recipient and the index. */
  lemma AbiDecodes(data: bytes, value: nat)
    requires |data| < Pow256(32) && value < Pow256(32)
    ensures AbiDecode(AbiEncode(data, value)) == Some((data, value))
  {
    assert 0x40 < Pow256(32) by {
      Pow256Mono(2, 32);
    }
    hide Pow256;
    hide BigEndian;
    hide FromBigEndian;
    hide AbiEncode;
    hide PadTo32;
    BigEndianRoundTrip(0x40, 32);
    BigEndianRoundTrip(value, 32);
    BigEndianRoundTrip(|data|, 32);
    AbiSlices(data, value);
    hide Zeros;
    var e := AbiEncode(data, value);
    assert FromBigEndian(e[..32]) == 64 && FromBigEndian(e[64..96]) == |data| && FromBigEndian(e[32..64]) == value;
  }

  lemma AbiSlices(data: bytes, value: nat)
    ensures var e, n := AbiEncode(data, value), |data|;
            && |e| == 96 + n + PadTo32(n) && |e| % 32 == 0 && |e| < 96 + n + 32
            && e[..32] == BigEndian(0x40, 32) && e[32..64] == BigEndian(value, 32) && e[64..96] == BigEndian(n, 32)
            && e[96..96 + n] == data && e[96 + n..] == Zeros(|e| - 96 - n)
  {
    hide BigEndian;
    hide PadTo32;
    hide Zeros;
    PaddingIsLessThanAWord(|data|);
    SlicesOfFive(BigEndian(0x40, 32), BigEndian(value, 32), BigEndian(|data|, 32), data, Zeros(PadTo32(|data|)));
  }

  lemma PaddingIsLessThanAWord(n: nat)
    ensures PadTo32(n) < 32 && (96 + n + PadTo32(n)) % 32 == 0
  {
  }

  /** What the creation code does when run, in the layout of the clone library: the first ten bytes return everything after
      them, as many bytes as the two-byte operand says, as the clone's code. */
  predicate Returns(initCode: bytes, runtime: bytes) {
    && |initCode| == 10 + |runtime|
    && initCode[0] == 0x61 && initCode[1] as int * 256 + initCode[2] as int == |runtime|
    && initCode[3] == 0x3d && initCode[4] == 0x81 && initCode[5] == 0x60 && initCode[6] == 0x0a
    && initCode[7] == 0x3d && initCode[8] == 0x39 && initCode[9] == 0xf3
    && initCode[10..] == runtime
  }

  /** A proxy that delegates to `implementation`, with its arguments from byte 45 on, where the library reads them. */
  predicate IsClone(runtime: bytes, implementation: bytes, args: bytes) {
    && |runtime| >= 45
    && runtime[0] == 0x36 && runtime[1] == 0x3d && runtime[2] == 0x3d && runtime[3] == 0x37 && runtime[4] == 0x3d
    && runtime[5] == 0x3d && runtime[6] == 0x3d && runtime[7] == 0x36 && runtime[8] == 0x3d && runtime[9] == 0x73
    && runtime[10..30] == implementation
    && runtime[30] == 0x5a && runtime[31] == 0xf4 && runtime[32] == 0x3d && runtime[33] == 0x82 && runtime[34] == 0x80
    && runtime[35] == 0x3e && runtime[36] == 0x90 && runtime[37] == 0x3d && runtime[38] == 0x91 && runtime[39] == 0x60
    && runtime[40] == 0x2b && runtime[41] == 0x57 && runtime[42] == 0xfd && runtime[43] == 0x5b && runtime[44] == 0xf3
    && runtime[45..] == args
  }

  /** The creation code deploys the clone of `implementation` with these arguments. */
  lemma InitCodeDeploys(implementation: bytes, args: bytes)
    requires |implementation| == 20 && |args| <= 0x5fd3
    ensures Returns(InitCode(implementation, args), InitCode(implementation, args)[10..])
    ensures IsClone(InitCode(implementation, args)[10..], implementation, args)
  {
    InitCodeSlices(implementation, args);
    hide InitCode;
    hide CodeBefore;
    hide CodeAfter;
    CodeLengths();
    Before1();
    Before2();
    Before3();
    Before4();
    After1();
    After2();
    After3();
    var code, b, a := InitCode(implementation, args), CodeBefore(), CodeAfter();
    assert forall k :: 0 <= k < 17 ==> code[3 + k] == b[k];
    assert forall k :: 0 <= k < 15 ==> code[40 + k] == a[k];
  }

  lemma InitCodeSlices(implementation: bytes, args: bytes)
    requires |implementation| == 20 && |args| <= 0x5fd3
    ensures var code := InitCode(implementation, args);
            && |code| == 55 + |args|
            && code[0] == 0x61 && code[1] == (|args| + 45) / 256 && code[2] == (|args| + 45) % 256
            && code[3..20] == CodeBefore() && code[20..40] == implementation && code[40..55] == CodeAfter() && code[55..] == args
            && code[10..][10..30] == implementation && code[10..][45..] == args
  {
    LengthBytes(|args| + 0x2d);
    CodeLengths();
    hide BigEndian;
    hide CodeBefore;
    hide CodeAfter;
    var head: bytes := [0x61, (|args| + 45) / 256, (|args| + 45) % 256];
    assert InitCode(implementation, args) == head + CodeBefore() + implementation + CodeAfter() + args by {
      assert [0x61] + [(|args| + 45) / 256, (|args| + 45) % 256] == head;
    }
    hide InitCode;
    SlicesOfFive(head, CodeBefore(), implementation, CodeAfter(), args);
    var code := InitCode(implementation, args);
    assert code[10..][10..30] == code[20..40] && code[10..][45..] == code[55..];
  }

  lemma SlicesOfFive(p: bytes, q: bytes, r: bytes, s: bytes, t: bytes)
    ensures var w, i, j, k := p + q + r + s + t, |p| + |q|, |p| + |q| + |r|, |p| + |q| + |r| + |s|;
            && |w| == k + |t| && w[..|p|] == p && w[|p|..i] == q && w[i..j] == r && w[j..k] == s && w[k..] == t
            && forall n :: 0 <= n < |p| ==> w[n] == p[n]
  {
  }

  lemma CodeLengths()
    ensures |CodeBefore()| == 17 && |CodeAfter()| == 15
  {
  }

  lemma Before1()
    ensures var c := CodeBefore();
            && c[0] == 0x3d && c[1] == 0x81 && c[2] == 0x60 && c[3] == 0x0a
  {
  }

  lemma Before2()
    ensures var c := CodeBefore();
            && c[4] == 0x3d && c[5] == 0x39 && c[6] == 0xf3
  {
  }

  lemma Before3()
    ensures var c := CodeBefore();
            && c[7] == 0x36 && c[8] == 0x3d && c[9] == 0x3d && c[10] == 0x37 && c[11] == 0x3d
  {
  }

  lemma Before4()
    ensures var c := CodeBefore();
            && c[12] == 0x3d && c[13] == 0x3d && c[14] == 0x36 && c[15] == 0x3d && c[16] == 0x73
  {
  }

  lemma After1()
    ensures var c := CodeAfter();
            && c[0] == 0x5a && c[1] == 0xf4 && c[2] == 0x3d && c[3] == 0x82 && c[4] == 0x80
  {
  }

  lemma After2()
    ensures var c := CodeAfter();
            && c[5] == 0x3e && c[6] == 0x90 && c[7] == 0x3d && c[8] == 0x91 && c[9] == 0x60
  {
  }

  lemma After3()
    ensures var c := CodeAfter();
            && c[10] == 0x2b && c[11] == 0x57 && c[12] == 0xfd && c[13] == 0x5b && c[14] == 0xf3
  {
  }

  /** EIP-1014: 0xff, the deployer, the salt, the hash of the creation code; the last twenty bytes of its hash. */
  predicate IsCreate2(p: bytes, factory: bytes, salt: bytes, codeHash: bytes) {
    |p| == 85 && p[0] == 0xff && p[1..21] == factory && p[21..53] == salt && p[53..] == codeHash
  }

  lemma Create2Is(factory: bytes, salt: bytes, codeHash: bytes)
    requires |factory| == 20 && Digest(salt) && Digest(codeHash)
    ensures IsCreate2(Create2Preimage(factory, salt, codeHash), factory, salt, codeHash)
  {
  }

  /** The deposit address is the EIP-1014 address, from this factory, of the clone that any reader takes to commit
      `recipient` and `fast`, under a salt that any ABI decoder takes for `(recipient, index)`; and is refused exactly for
      recipients longer than the clone library takes. */
  lemma DepositAddressIs(keccak: Hash, factory: bytes, implementation: bytes, recipient: bytes, index: nat, fast: bool)
    returns (p: bytes, e: bytes, initCode: bytes, runtime: bytes)
    requires forall x :: Digest(keccak(x))
    requires |factory| == 20 && |implementation| == 20 && index < Pow256(32)
    ensures var a := DepositAddress(keccak, factory, implementation, recipient, index, fast);
            && (a.None? <==> |recipient| >= 24_531)
            && (a.Some? ==>
                  && IsCreate2(p, factory, keccak(e), keccak(initCode)) && Digest(keccak(p)) && a.value == keccak(p)[12..]
                  && AbiDecode(e) == Some((recipient, index))
                  && Returns(initCode, runtime) && IsClone(runtime, implementation, recipient + (if fast then [1] else [0])))
  {
    e, initCode := AbiEncode(recipient, index), InitCode(implementation, Args(recipient, fast));
    p, runtime := Create2Preimage(factory, keccak(e), keccak(initCode)), [];
    assert Digest(keccak(e)) && Digest(keccak(initCode)) && Digest(keccak(p));
    if DepositAddress(keccak, factory, implementation, recipient, index, fast).Some? {
      runtime := initCode[10..];
      RecipientLengthFits(recipient);
      Create2Is(factory, keccak(e), keccak(initCode));
      AbiDecodes(recipient, index);
      InitCodeDeploys(implementation, Args(recipient, fast));
      hide AbiEncode;
      hide AbiDecode;
      hide InitCode;
      hide Create2Preimage;
      hide IsCreate2;
      hide Returns;
      hide IsClone;
    }
  }

  // --- bytes.ts ---

  function Flatten(parts: seq<bytes>): bytes {
    if parts == [] then [] else Flatten(parts[..|parts| - 1]) + parts[|parts| - 1]
  }

  /** `concat`: one buffer of the total length, each part copied at its offset. */
  method Concat(parts: seq<bytes>) returns (out: array<byte>)
    ensures fresh(out)
    ensures out[..] == Flatten(parts)
  {
    var n := 0;
    for i := 0 to |parts|
      invariant n == |Flatten(parts[..i])|
    {
      assert parts[..i + 1][..i] == parts[..i];
      n := n + |parts[i]|;
    }
    assert parts[..|parts|] == parts;
    out := new byte[n](_ => 0);
    var offset := 0;
    for i := 0 to |parts|
      invariant offset == |Flatten(parts[..i])| <= n
      invariant out[..offset] == Flatten(parts[..i])
    {
      assert parts[..i + 1][..i] == parts[..i];
      FlattenFits(parts, i + 1);
      var part := parts[i];
      forall k | 0 <= k < |part| {
        out[offset + k] := part[k];
      }
      assert out[..offset + |part|] == out[..offset] + part;
      offset := offset + |part|;
    }
  }

  lemma {:induction false} FlattenFits(parts: seq<bytes>, i: nat)
    requires i <= |parts|
    ensures |Flatten(parts[..i])| <= |Flatten(parts)|
    decreases |parts|
  {
    if i < |parts| {
      FlattenFits(parts[..|parts| - 1], i);
      assert parts[..|parts| - 1][..i] == parts[..i];
    } else {
      assert parts[..i] == parts;
    }
  }

  type hexdigit = x: int | 0 <= x < 16

  const LOWER: string := "0123456789abcdef"

  predicate IsHexChar(c: char) {
    '0' <= c <= '9' || 'a' <= c <= 'f' || 'A' <= c <= 'F'
  }

  predicate IsHex(s: string) {
    forall i :: 0 <= i < |s| ==> IsHexChar(s[i])
  }

  /** The value of a hex digit, either case: `parseInt(c, 16)`. */
  function DigitOf(c: char): (d: hexdigit)
    requires IsHexChar(c)
  {
    if c <= '9' then (c - '0') as int else if c <= 'F' then (c - 'A') as int + 10 else (c - 'a') as int + 10
  }

  function CharOf(d: hexdigit): (c: char)
    ensures IsHexChar(c) && DigitOf(c) == d && c == LowerChar(c)
  {
    LOWER[d]
  }

  function LowerChar(c: char): char {
    if 'A' <= c <= 'Z' then c - 'A' + 'a' else c
  }

  function UpperChar(c: char): char {
    if 'a' <= c <= 'z' then c - 'a' + 'A' else c
  }

  function Lower(s: string): (t: string)
    ensures |t| == |s|
  {
    seq(|s|, i requires 0 <= i < |s| => LowerChar(s[i]))
  }

  function FromHex(s: string): (b: bytes)
    requires IsHex(s)
    ensures |b| == |s| / 2
  {
    seq(|s| / 2, i requires 0 <= i < |s| / 2 => DigitOf(s[2 * i]) * 16 + DigitOf(s[2 * i + 1]))
  }

  function ToHex(b: bytes): (s: string)
    ensures |s| == 2 * |b|
    ensures forall i :: 0 <= i < |b| ==> s[2 * i] == CharOf(b[i] / 16) && s[2 * i + 1] == CharOf(b[i] % 16)
  {
    if b == [] then ""
    else ToHex(b[..|b| - 1]) + [CharOf(b[|b| - 1] / 16), CharOf(b[|b| - 1] % 16)]
  }

  /** White space and line terminators, as ECMAScript counts them. */
  predicate IsSpace(c: char) {
    var n := c as int;
    || 9 <= n <= 13 || n == 0x20 || n == 0xa0 || n == 0x1680 || 0x2000 <= n <= 0x200a || n == 0x2028 || n == 0x2029
    || n == 0x202f || n == 0x205f || n == 0x3000 || n == 0xfeff
  }

  /** `parseInt` of two characters in base 16, stored in a byte: leading space and a sign are skipped, digits stop at the
      first character that is none, and no digits at all (`NaN`) store as 0. */
  function ParsedByte(a: char, b: char): byte {
    if IsHexChar(a) then
      if IsHexChar(b) then DigitOf(a) * 16 + DigitOf(b) else DigitOf(a)
    else if (IsSpace(a) || a == '+') && IsHexChar(b) then DigitOf(b)
    else if a == '-' && IsHexChar(b) then (256 - DigitOf(b)) % 256
    else 0
  }

  /** `hexToBytes`: any string, pair by pair, an odd last character dropped. */
  method HexToBytes(hex: string) returns (out: array<byte>)
    ensures fresh(out)
    ensures out.Length == |hex| / 2 && forall i :: 0 <= i < out.Length ==> out[i] == ParsedByte(hex[2 * i], hex[2 * i + 1])
    ensures IsHex(hex) ==> out[..] == FromHex(hex)
  {
    out := new byte[|hex| / 2](_ => 0);
    for i := 0 to out.Length
      invariant forall k :: 0 <= k < i ==> out[k] == ParsedByte(hex[2 * k], hex[2 * k + 1])
    {
      var pair := hex[2 * i..2 * i + 2];
      out[i] := ParsedByte(pair[0], pair[1]);
    }
  }

  /** `bytesToHex`. */
  method BytesToHex(b: bytes) returns (hex: string)
    ensures hex == ToHex(b)
  {
    hex := "";
    for i := 0 to |b|
      invariant hex == ToHex(b[..i])
    {
      assert b[..i + 1][..i] == b[..i];
      hex := hex + [CharOf(b[i] / 16), CharOf(b[i] % 16)];
    }
    assert b[..|b|] == b;
  }

  lemma ToHexIsHex(b: bytes)
    ensures IsHex(ToHex(b)) && Lower(ToHex(b)) == ToHex(b)
  {
    forall i | 0 <= i < |ToHex(b)| ensures IsHexChar(ToHex(b)[i]) && LowerChar(ToHex(b)[i]) == ToHex(b)[i] {
      assert i == 2 * (i / 2) || i == 2 * (i / 2) + 1;
    }
  }

  /** Writing bytes as hex and reading them back is the identity. */
  lemma HexRoundTrip(b: bytes)
    ensures IsHex(ToHex(b)) && FromHex(ToHex(b)) == b
  {
    ToHexIsHex(b);
    var s := ToHex(b);
    forall i | 0 <= i < |b| ensures FromHex(s)[i] == b[i] {
      assert s[2 * i] == CharOf(b[i] / 16) && s[2 * i + 1] == CharOf(b[i] % 16);
    }
    hide ToHex;
  }

  lemma FromHexAppend(s: string, hi: char, lo: char)
    requires IsHex(s) && |s| % 2 == 0 && IsHexChar(hi) && IsHexChar(lo)
    ensures IsHex(s + [hi, lo])
    ensures FromHex(s + [hi, lo]) == FromHex(s) + [DigitOf(hi) * 16 + DigitOf(lo)]
  {
  }

  // --- address.ts ---

  /** `value.toString(16)`. */
  function ToString16(v: nat): (s: string)
    ensures |s| >= 1
  {
    if v < 16 then [CharOf(v)] else ToString16(v / 16) + [CharOf(v % 16)]
  }

  function Repeat(c: char, n: nat): (s: string)
    ensures |s| == n && forall i :: 0 <= i < n ==> s[i] == c
  {
    seq(n, _ => c)
  }

  /** `s.padStart(n, c)`. */
  function PadStart(s: string, n: nat, c: char): string {
    if |s| >= n then s else Repeat(c, n - |s|) + s
  }

  /** Exactly `n` hex digits of `v`. */
  function HexDigits(v: nat, n: nat): (s: string)
    ensures |s| == n && IsHex(s)
  {
    if n == 0 then "" else HexDigits(v / 16, n - 1) + [CharOf(v % 16)]
  }

  function Pow16(n: nat): (p: nat)
    ensures p >= 1
  {
    if n == 0 then 1 else 16 * Pow16(n - 1)
  }

  lemma {:induction false} ZeroDigits(n: nat)
    ensures HexDigits(0, n) == Repeat('0', n)
  {
    if n > 0 {
      ZeroDigits(n - 1);
      assert CharOf(0) == '0';
    }
  }

  lemma {:induction false} PaddedIsFixedWidth(v: nat, n: nat)
    requires n >= 1 && v < Pow16(n)
    ensures PadStart(ToString16(v), n, '0') == HexDigits(v, n)
  {
    if v < 16 {
      ZeroDigits(n - 1);
      assert v / 16 == 0 && v % 16 == v;
    } else {
      assert n >= 2 by {
        assert Pow16(1) == 16;
      }
      PaddedIsFixedWidth(v / 16, n - 1);
    }
  }

  lemma {:induction false} DigitsAreBytes(v: nat, k: nat)
    ensures FromHex(HexDigits(v, 2 * k)) == BigEndian(v, k)
  {
    if k == 0 {
      assert HexDigits(v, 0) == "";
    } else {
      hide *;
      DigitsAreBytes(v / 256, k - 1);
      LastByte(v, k);
      LastTwoDigits(v, k);
      Glue(HexDigits(v / 256, 2 * (k - 1)), CharOf(v / 16 % 16), CharOf(v % 16), v % 256, HexDigits(v, 2 * k));
    }
  }

  lemma Glue(s: string, hi: char, lo: char, x: byte, whole: string)
    requires IsHex(s) && |s| % 2 == 0 && IsHexChar(hi) && IsHexChar(lo) && IsHex(whole)
    requires DigitOf(hi) * 16 + DigitOf(lo) == x
    requires whole == s + [hi, lo]
    ensures FromHex(whole) == FromHex(s) + [x]
  {
    FromHexAppend(s, hi, lo);
  }

  lemma LastByte(v: nat, k: nat)
    requires k > 0
    ensures BigEndian(v, k) == BigEndian(v / 256, k - 1) + [v % 256]
  {
  }

  lemma LastTwoDigits(v: nat, k: nat)
    requires k > 0
    ensures HexDigits(v, 2 * k) == HexDigits(v / 256, 2 * (k - 1)) + [CharOf(v / 16 % 16), CharOf(v % 16)]
    ensures DigitOf(CharOf(v / 16 % 16)) * 16 + DigitOf(CharOf(v % 16)) == v % 256
  {
    assert v / 16 / 16 == v / 256;
    assert HexDigits(v / 16, 2 * k - 1) == HexDigits(v / 256, 2 * k - 2) + [CharOf(v / 16 % 16)];
    assert HexDigits(v, 2 * k) == HexDigits(v / 16, 2 * k - 1) + [CharOf(v % 16)];
  }

  lemma {:induction false} PowersAgree(k: nat)
    ensures Pow16(2 * k) == Pow256(k)
  {
    if k > 0 {
      PowersAgree(k - 1);
      assert Pow16(2 * k) == 16 * Pow16(2 * k - 1) == 256 * Pow16(2 * k - 2);
    }
  }

  /** `uint256`: formatting in hex, padding and parsing yields the 32-byte big-endian word. */
  method Uint256(value: nat) returns (out: array<byte>)
    requires value < Pow256(32)
    ensures fresh(out)
    ensures out[..] == BigEndian(value, 32)
  {
    PowersAgree(32);
    PaddedIsFixedWidth(value, 64);
    DigitsAreBytes(value, 32);
    out := HexToBytes(PadStart(ToString16(value), 64, '0'));
  }

  /** `abiEncodeBytesUint256`: a zeroed buffer rounded up to words, the data copied in, three words in front. */
  method AbiEncodeBytesUint256(data: bytes, value: nat) returns (out: array<byte>)
    requires value < Pow256(32) && |data| < Pow256(32)
    ensures fresh(out)
    ensures out[..] == AbiEncode(data, value)
  {
    assert 0x40 < Pow256(32) by {
      Pow256Mono(2, 32);
    }
    hide Pow256;
    hide BigEndian;
    hide Flatten;
    var padded := Padded(data);
    var offset := Uint256(0x40);
    var word := Uint256(value);
    var length := Uint256(|data|);
    out := Concat([offset[..], word[..], length[..], padded[..]]);
    Flatten4(offset[..], word[..], length[..], padded[..]);
    assert out[..] == AbiEncode(data, value);
  }

  /** `new Uint8Array(Math.ceil(data.length / 32) * 32)` with the data set into it. */
  method Padded(data: bytes) returns (padded: array<byte>)
    ensures fresh(padded)
    ensures padded[..] == data + Zeros(PadTo32(|data|))
  {
    padded := new byte[CeilDiv(|data|, 32) * 32](_ => 0);
    forall k | 0 <= k < |data| {
      padded[k] := data[k];
    }
  }

  lemma Flatten4(a: bytes, b: bytes, c: bytes, d: bytes)
    ensures Flatten([a, b, c, d]) == a + b + c + d
  {
    assert [a, b, c, d][..3] == [a, b, c] && [a, b, c][..2] == [a, b] && [a, b][..1] == [a] && [a][..0] == [];
    assert Flatten([a]) == a && Flatten([a, b]) == a + b && Flatten([a, b, c]) == a + b + c;
  }

  lemma Flatten5(a: bytes, b: bytes, c: bytes, d: bytes, e: bytes)
    ensures Flatten([a, b, c, d, e]) == a + b + c + d + e
  {
    Flatten4(a, b, c, d);
    assert [a, b, c, d, e][..4] == [a, b, c, d];
  }

  /** EIP-55: letters go upper case where the digest's nibble is 8 or more. */
  function Checksummed(hex: string, hash: string): (s: string)
    requires |hex| <= |hash| && IsHex(hash)
    ensures |s| == |hex| + 2
  {
    "0x" + seq(|hex|, i requires 0 <= i < |hex| => if DigitOf(hash[i]) >= 8 then UpperChar(hex[i]) else hex[i])
  }

  /** The `i`th half-byte of a digest, high half first. */
  function Nibble(digest: bytes, i: nat): nat
    requires i < 2 * |digest|
  {
    if i % 2 == 0 then digest[i / 2] / 16 else digest[i / 2] % 16
  }

  /** EIP-55, read off the digest itself: the letters a to f stand in upper case exactly where the digest's half-byte is
      more than seven; digits as they were. */
  lemma ChecksummedIs(hex: string, digest: bytes, i: nat)
    requires |hex| <= 2 * |digest| && IsHex(ToHex(digest)) && i < |hex| && ('0' <= hex[i] <= '9' || 'a' <= hex[i] <= 'f')
    ensures var s := Checksummed(hex, ToHex(digest));
            && s[0] == '0' && s[1] == 'x'
            && s[2 + i] ==
               if hex[i] >= 'a' && Nibble(digest, i) > 7 then (hex[i] as int - 32) as char else hex[i]
  {
    hide *;
    NibbleOfDigit(digest, i);
    LetterIs(hex, ToHex(digest), i, Nibble(digest, i));
  }

  lemma LetterIs(hex: string, hash: string, i: nat, n: nat)
    requires |hex| <= |hash| && IsHex(hash) && i < |hex| && ('0' <= hex[i] <= '9' || 'a' <= hex[i] <= 'f')
    requires DigitOf(hash[i]) == n
    ensures var s := Checksummed(hex, hash);
            s[0] == '0' && s[1] == 'x' && s[2 + i] == if hex[i] >= 'a' && n > 7 then (hex[i] as int - 32) as char else hex[i]
  {
    hide *;
    ChecksummedAt(hex, hash, i);
    UpperIs(hex[i]);
  }

  lemma NibbleOfDigit(b: bytes, i: nat)
    requires i < 2 * |b| && IsHex(ToHex(b))
    ensures DigitOf(ToHex(b)[i]) == Nibble(b, i)
  {
    ToHexAt(b, i);
    hide ToHex;
    hide Nibble;
  }

  lemma ChecksummedAt(hex: string, hash: string, i: nat)
    requires |hex| <= |hash| && IsHex(hash) && i < |hex|
    ensures Checksummed(hex, hash)[0] == '0' && Checksummed(hex, hash)[1] == 'x'
    ensures Checksummed(hex, hash)[2 + i] == if DigitOf(hash[i]) >= 8 then UpperChar(hex[i]) else hex[i]
  {
    hide DigitOf;
    hide UpperChar;
  }

  lemma ToHexAt(b: bytes, i: nat)
    requires i < 2 * |b|
    ensures ToHex(b)[i] == CharOf(Nibble(b, i))
  {
    assert i == 2 * (i / 2) || i == 2 * (i / 2) + 1;
    hide CharOf;
  }

  lemma UpperIs(c: char)
    requires '0' <= c <= '9' || 'a' <= c <= 'f'
    ensures UpperChar(c) == if c >= 'a' then (c as int - 32) as char else c
  {
  }

  /** The digits, one by one. */
  lemma DigitsAre(k: nat)
    requires k < 16
    ensures DigitOf("0123456789abcdef"[k]) == k && DigitOf("0123456789ABCDEF"[k]) == k && CharOf(k) == "0123456789abcdef"[k]
  {
  }

  /** What `parseInt` makes of a pair, by its first character: two digits are their number, a digit before anything else
      is itself, leading white space or a plus sign is skipped, a minus sign negates (stored modulo 256), and what is no
      number stores 0. */
  lemma PairIs(a: char, b: char)
    ensures IsHexChar(a) && IsHexChar(b) ==> ParsedByte(a, b) == 16 * DigitOf(a) + DigitOf(b)
    ensures IsHexChar(a) && !IsHexChar(b) ==> ParsedByte(a, b) == DigitOf(a)
    ensures a in " \t\n\r+" && IsHexChar(b) ==> ParsedByte(a, b) == DigitOf(b)
    ensures a == '-' && IsHexChar(b) ==> ParsedByte(a, b) == if DigitOf(b) == 0 then 0 else 256 - DigitOf(b)
    ensures !IsHexChar(a) && !IsHexChar(b) ==> ParsedByte(a, b) == 0
    ensures !IsHexChar(a) && a != '-' && a != '+' && !IsSpace(a) ==> ParsedByte(a, b) == 0
  {
  }

  /** `toChecksumAddress`. */
  method ToChecksumAddress(keccak: Hash, hex: string) returns (out: string)
    requires |hex| == 40 && IsHex(hex)
    requires forall x :: Digest(keccak(x))
    ensures |ToHex(keccak(Ascii(hex)))| == 64 && IsHex(ToHex(keccak(Ascii(hex))))
    ensures out == Checksummed(hex, ToHex(keccak(Ascii(hex))))
  {
    var hash := BytesToHex(keccak(Ascii(hex)));
    ToHexIsHex(keccak(Ascii(hex)));
    assert |hash| == 64;
    out := "0x";
    for i := 0 to 40
      invariant out == Checksummed(hex[..i], hash)
    {
      out := out + (if DigitOf(hash[i]) >= 8 then [UpperChar(hex[i])] else [hex[i]]);
    }
    assert hex[..40] == hex;
  }

  /** `ascii`, on the ASCII strings it is given. */
  function Ascii(s: string): (b: bytes)
    ensures |b| == |s|
  {
    seq(|s|, i requires 0 <= i < |s| => (s[i] as int) % 256)
  }

  /** Characters below 256 are their own bytes. */
  lemma AsciiIs(s: string, i: nat)
    requires i < |s| && s[i] as int < 256
    ensures Ascii(s)[i] == s[i] as int
  {
  }

  /** Checksumming changes case only. */
  lemma ChecksumKeepsTheAddress(hex: string, hash: string)
    requires |hex| <= |hash| && IsHex(hash) && IsHex(hex) && Lower(hex) == hex
    ensures Lower(Checksummed(hex, hash)) == "0x" + hex
  {
    var s := Checksummed(hex, hash);
    forall i | 0 <= i < |s| ensures Lower(s)[i] == ("0x" + hex)[i] {
      if i >= 2 {
        assert LowerChar(hex[i - 2]) == Lower(hex)[i - 2];
      }
    }
  }

  /** `deriveAddress`: the SDK's buffers hash to the factory's address; `None` is its "recipient too long" error. */
  method DeriveAddress(keccak: Hash, factory: bytes, implementation: bytes, recipient: bytes, index: nat, fast: bool)
    returns (r: Option<string>)
    requires forall x :: Digest(keccak(x))
    requires index < Pow256(32)
    ensures var a := DepositAddress(keccak, factory, implementation, recipient, index, fast);
            && r.Some? == a.Some?
            && (r.Some? ==> Lower(r.value) == "0x" + ToHex(a.value))
  {
    hide Pow256;
    hide Flatten;
    hide AbiEncode;
    hide InitCode;
    hide ToHex;
    hide Checksummed;
    var args := Concat([recipient, [if fast then 1 else 0]]);
    Flatten2(recipient, [if fast then 1 else 0]);
    assert args[..] == Args(recipient, fast);
    if args.Length > MAX_ARGS { return None; }
    RecipientLengthFits(recipient);
    var encoded := AbiEncodeBytesUint256(recipient, index);
    var salt := keccak(encoded[..]);
    var initCode := BuildInitCode(implementation, args[..]);
    var preimage := Concat([[0xff], factory, salt, keccak(initCode[..])]);
    Flatten4([0xff], factory, salt, keccak(initCode[..]));
    var hash := keccak(preimage[..]);
    var hex := BytesToHex(hash[12..]);
    ToHexIsHex(hash[12..]);
    var checksummed := ToChecksumAddress(keccak, hex);
    ChecksumKeepsTheAddress(hex, ToHex(keccak(Ascii(hex))));
    return Some(checksummed);
  }

  /** The clone's creation code: length bytes split by hand, code fragments parsed from their hex literals. */
  method BuildInitCode(implementation: bytes, args: bytes) returns (out: array<byte>)
    requires |args| <= MAX_ARGS
    ensures fresh(out)
    ensures out[..] == InitCode(implementation, args)
  {
    var n := |args| + 0x2d;
    assert n < 0x1_0000;
    hide *;
    LiteralsAreHex();
    InitCodeParts(implementation, args);
    var head := [0x61, n / 256, n % 256];
    var before := HexToBytes(BEFORE_HEX);
    var after := HexToBytes(AFTER_HEX);
    out := Concat([head, before[..], implementation, after[..], args]);
    Flatten5(head, before[..], implementation, after[..], args);
  }

  lemma LiteralsAreHex()
    ensures IsHex(BEFORE_HEX) && IsHex(AFTER_HEX)
  {
  }

  lemma InitCodeParts(implementation: bytes, args: bytes)
    requires |args| + 0x2d < 0x1_0000
    requires IsHex(BEFORE_HEX) && IsHex(AFTER_HEX)
    ensures InitCode(implementation, args) ==
            [0x61, (|args| + 0x2d) / 256, (|args| + 0x2d) % 256] + FromHex(BEFORE_HEX) + implementation + FromHex(AFTER_HEX) + args
  {
    LengthBytes(|args| + 0x2d);
    hide BigEndian;
    hide IsHex;
    hide FromHex;
    assert [0x61] + [(|args| + 0x2d) / 256, (|args| + 0x2d) % 256] == [0x61, (|args| + 0x2d) / 256, (|args| + 0x2d) % 256];
  }

  lemma Flatten2(a: bytes, b: bytes)
    ensures Flatten([a, b]) == a + b
  {
    assert [a, b][..1] == [a] && [a][..0] == [];
    assert Flatten([a]) == a;
  }

  lemma LengthBytes(n: nat)
    requires n < 0x1_0000
    ensures BigEndian(n, 2) == [n / 256, n % 256]
  {
    assert BigEndian(n / 256, 1) == BigEndian(n / 256 / 256, 0) + [n / 256 % 256];
  }

  /** The shape the SDK accepts: `0x` and forty hex digits in any case. */
  predicate IsAddress(s: string) {
    |s| == 42 && s[0] == '0' && s[1] == 'x' && IsHex(s[2..])
  }

  /** Forty-two characters: a zero, an x, and digits or letters a to f of either case. */
  predicate HasAddressShape(s: string) {
    && |s| == 42 && s[..2] == "0x"
    && forall i :: 2 <= i < 42 ==> '0' <= s[i] <= '9' || 'a' <= s[i] <= 'f' || 'A' <= s[i] <= 'F'
  }

  lemma AddressShape(s: string)
    ensures IsAddress(s) <==> HasAddressShape(s)
  {
    if IsAddress(s) {
      forall i | 2 <= i < 42 ensures IsHexChar(s[i]) {
        assert s[2..][i - 2] == s[i];
      }
    }
  }

  /** The pattern `^0x[0-9a-fA-F]{40}$`. */
  method MatchesPattern(deposit: string) returns (ok: bool)
    ensures ok <==> IsAddress(deposit)
  {
    if !(|deposit| == 42 && deposit[0] == '0' && deposit[1] == 'x') { return false; }
    for i := 2 to 42
      invariant forall k :: 2 <= k < i ==> IsHexChar(deposit[k])
    {
      if !IsHexChar(deposit[i]) {
        assert !IsHexChar(deposit[2..][i - 2]);
        return false;
      }
    }
    return true;
  }

  /** `verifyDepositAddress`, its other parameters already validated: true exactly for a well-formed spelling, in any
      case, of the twenty bytes the factory computes. */
  method VerifyDepositAddress(keccak: Hash, factory: bytes, implementation: bytes, recipient: bytes, index: nat, fast: bool,
                              deposit: string)
    returns (ok: bool)
    requires forall x :: Digest(keccak(x))
    requires index < Pow256(32)
    ensures ok <==>
            var a := DepositAddress(keccak, factory, implementation, recipient, index, fast);
            IsAddress(deposit) && a.Some? && FromHex(deposit[2..]) == a.value
    ensures ok ==> HasAddressShape(deposit)
  {
    AddressShape(deposit);
    hide Lower;
    hide FromHex;
    hide ToHex;
    hide IsAddress;
    hide IsHex;
    hide IsHexChar;
    DepositAddressIsTwentyBytes(keccak, factory, implementation, recipient, index, fast);
    hide DepositAddress;
    var matches := MatchesPattern(deposit);
    if !matches { return false; }
    var computed := DeriveAddress(keccak, factory, implementation, recipient, index, fast);
    if computed.None? { return false; }
    ghost var address := DepositAddress(keccak, factory, implementation, recipient, index, fast).value;
    VerifiedIffSameBytes(deposit, computed.value, address);
    return Lower(deposit) == Lower(computed.value);
  }

  lemma DepositAddressIsTwentyBytes(keccak: Hash, factory: bytes, implementation: bytes, recipient: bytes, index: nat, fast: bool)
    requires forall x :: Digest(keccak(x))
    ensures var a := DepositAddress(keccak, factory, implementation, recipient, index, fast); a.Some? ==> |a.value| == 20
  {
    var preimage := Create2Preimage(factory, keccak(AbiEncode(recipient, index)), keccak(InitCode(implementation, Args(recipient, fast))));
    assert Digest(keccak(preimage));
  }

  /** Equality but for case is equality of the twenty bytes. */
  lemma VerifiedIffSameBytes(deposit: string, computed: string, address: bytes)
    requires |address| == 20 && Lower(computed) == "0x" + ToHex(address)
    ensures IsAddress(deposit) && Lower(deposit) == Lower(computed) <==> IsAddress(deposit) && FromHex(deposit[2..]) == address
  {
    hide ToHex;
    if IsAddress(deposit) {
      var body := deposit[2..];
      assert Lower(deposit) == "0x" + Lower(body);
      assert Lower(deposit) == Lower(computed) <==> Lower(body) == ToHex(address) by {
        assert Lower(deposit)[2..] == Lower(body) && Lower(computed)[2..] == ToHex(address);
      }
      SameDigits(body, address);
    }
  }

  lemma SameDigits(body: string, address: bytes)
    requires IsHex(body) && |body| == 2 * |address|
    ensures Lower(body) == ToHex(address) <==> FromHex(body) == address
  {
    LowerKeepsDigits(body);
    ToHexIsHex(address);
    HexRoundTrip(address);
    hide ToHex;
    hide FromHex;
    hide Lower;
    if FromHex(body) == address {
      HexDetermines(Lower(body), ToHex(address));
    }
  }

  lemma LowerKeepsDigits(s: string)
    requires IsHex(s)
    ensures IsHex(Lower(s)) && FromHex(Lower(s)) == FromHex(s) && Lower(Lower(s)) == Lower(s)
  {
    forall i | 0 <= i < |s| ensures IsHexChar(Lower(s)[i]) && DigitOf(Lower(s)[i]) == DigitOf(s[i]) && LowerChar(Lower(s)[i]) == Lower(s)[i] {
    }
  }

  lemma LowerDigitDetermined(c: char, d: char)
    requires IsHexChar(c) && IsHexChar(d) && LowerChar(c) == c && LowerChar(d) == d
    requires DigitOf(c) == DigitOf(d)
    ensures c == d
  {
  }

  /** Lower-case hex strings of equal bytes are equal. */
  lemma HexDetermines(s: string, t: string)
    requires IsHex(s) && IsHex(t) && |s| == |t| && |s| % 2 == 0
    requires Lower(s) == s && Lower(t) == t
    requires FromHex(s) == FromHex(t)
    ensures s == t
  {
    forall i | 0 <= i < |s| ensures s[i] == t[i] {
      var k := i / 2;
      assert FromHex(s)[k] == FromHex(t)[k];
      assert DigitOf(s[2 * k]) == DigitOf(t[2 * k]) && DigitOf(s[2 * k + 1]) == DigitOf(t[2 * k + 1]);
      assert i == 2 * k || i == 2 * k + 1;
      assert Lower(s)[i] == s[i] && Lower(t)[i] == t[i];
      LowerDigitDetermined(s[i], t[i]);
    }
  }

  // --- soroban.ts ---

  /** `be32`, shift by shift. */
  function Be32(value: nat): (s: bytes)
    requires value < UINT32
    ensures s == BigEndian(value, 4)
  {
    assert BigEndian(value, 4) == BigEndian(value / 256 / 256 / 256 / 256, 0)
        + [value / 256 / 256 / 256 % 256] + [value / 256 / 256 % 256] + [value / 256 % 256] + [value % 256] by {
      assert BigEndian(value, 4) == BigEndian(value / 256, 3) + [value % 256];
      assert BigEndian(value / 256, 3) == BigEndian(value / 256 / 256, 2) + [value / 256 % 256];
      assert BigEndian(value / 256 / 256, 2) == BigEndian(value / 256 / 256 / 256, 1) + [value / 256 / 256 % 256];
    }
    [value / 0x100_0000 % 256, value / 0x1_0000 % 256, value / 0x100 % 256, value % 256]
  }

  /** `deriveContractAddress` up to its strkey encoding: the contract id. */
  method DeriveContractId(sha256: Hash, passphrase: string, deployer: bytes, salt: bytes) returns (id: bytes)
    ensures id == sha256(ContractIdPreimage(sha256(Ascii(passphrase)), ContractXdr(deployer), salt))
  {
    var networkId := sha256(Ascii(passphrase));
    var parts := [Be32(8), networkId, Be32(0), Be32(1), deployer];
    var preimage := Concat(parts + [salt]);
    Flatten5(parts[0], parts[1], parts[2], parts[3], parts[4]);
    assert (parts + [salt])[..5] == parts;
    assert preimage[..] == ContractIdPreimage(networkId, ContractXdr(deployer), salt);
    id := sha256(preimage[..]);
  }
}
