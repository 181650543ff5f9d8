/** The CRC16-XMODEM loop of `encodeContract` in `verify-sdk/src/soroban.ts`, and what it detects. Bit facts are proved
    on single words; everything longer is proved from those alone. */
module Crc16 {

  /** Addition of registers: XOR. */
  function Mix(x: bv16, y: bv16): bv16 {
    x ^ y
  }

  predicate TopSet(c: bv16) {
    c & 0x8000 != 0
  }

  /** The polynomial enters when the top bit leaves. */
  function Feedback(c: bv16): bv16 {
    if TopSet(c) then 0x1021 else 0
  }

  function Double(c: bv16): bv16 {
    c << 1
  }

  /** One bit of the inner loop. */
  function Shift(c: bv16): bv16 {
    Mix(Double(c), Feedback(c))
  }

  function Shift4(c: bv16): bv16 {
    Shift(Shift(Shift(Shift(c))))
  }

  /** The inner loop: eight bits. */
  function Shift8(c: bv16): bv16 {
    Shift4(Shift4(c))
  }

  function High(b: bv8): bv16 {
    (b as bv16) << 8
  }

  /** The register after `body`, started from `c`. */
  function Crc(c: bv16, body: seq<bv8>): bv16 {
    if body == [] then c else Shift8(Mix(Crc(c, body[..|body| - 1]), High(body[|body| - 1])))
  }

  // --- The loop ---

  method ComputeCrc(body: seq<bv8>) returns (crc: bv16)
    ensures crc == Crc(0, body)
  {
    hide Shift8;
    hide High;
    hide Mix;
    crc := 0;
    for k := 0 to |body|
      invariant crc == Crc(0, body[..k])
    {
      assert body[..k + 1][..k] == body[..k];
      crc := FeedByte(crc, body[k]);
    }
    assert body[..|body|] == body;
  }

  /** The body of the outer loop: the byte goes in at the top, then eight conditional shifts. */
  method FeedByte(c: bv16, b: bv8) returns (crc: bv16)
    ensures crc == Shift8(Mix(c, High(b)))
  {
    hide Mix;
    hide Shift;
    hide Shift8;
    hide High;
    crc := EnterByte(c, b);
    ghost var start := crc;
    for i := 0 to 8
      invariant crc == Shifts(start, i)
    {
      crc := ShiftOnce(crc);
    }
    EightShifts(start);
  }

  method EnterByte(c: bv16, b: bv8) returns (crc: bv16)
    ensures crc == Mix(c, High(b))
  {
    hide High;
    crc := c ^ High(b);
  }

  /** One pass of the inner loop. */
  method ShiftOnce(c: bv16) returns (crc: bv16)
    ensures crc == Shift(c)
  {
    MixZero(c << 1);
    crc := if c & 0x8000 != 0 then (c << 1) ^ 0x1021 else c << 1;
  }

  function Shifts(c: bv16, n: nat): bv16 {
    if n == 0 then c else Shift(Shifts(c, n - 1))
  }

  lemma EightShifts(c: bv16)
    ensures Shifts(c, 8) == Shift8(c)
  {
    hide Shift;
    var c2 := Shift(Shift(c));
    assert Shifts(c, 1) == Shift(c);
    assert Shifts(c, 2) == c2;
    assert Shifts(c, 3) == Shift(c2);
    assert Shifts(c, 4) == Shift4(c);
    assert Shifts(c, 5) == Shift(Shift4(c));
    assert Shifts(c, 6) == Shift(Shift(Shift4(c)));
    assert Shifts(c, 7) == Shift(Shift(Shift(Shift4(c))));
  }

  // --- Registers under XOR ---

  lemma MixZero(x: bv16)
    ensures Mix(x, 0) == x
  {
  }

  lemma MixAssociates(p: bv16, q: bv16, r: bv16)
    ensures Mix(Mix(p, q), r) == Mix(p, Mix(q, r))
  {
  }

  lemma MixCommutes(p: bv16, q: bv16)
    ensures Mix(p, q) == Mix(q, p)
  {
  }

  lemma MixRearranges(p: bv16, q: bv16, r: bv16, s: bv16)
    ensures Mix(Mix(p, q), Mix(r, s)) == Mix(Mix(p, r), Mix(q, s))
  {
    hide Mix;
    MixAssociates(p, q, Mix(r, s));
    MixAssociates(q, r, s);
    MixCommutes(q, r);
    MixAssociates(r, q, s);
    MixAssociates(p, r, Mix(q, s));
  }

  lemma MixCancels(x: bv16, y: bv16, h: bv16)
    requires Mix(x, h) == Mix(y, h) || Mix(h, x) == Mix(h, y)
    ensures x == y
  {
  }

  // --- One bit ---

  lemma TopBit(x: bv16)
    ensures x & 0x8000 == if TopSet(x) then 0x8000 else 0
  {
  }

  lemma TopBitLinear(x: bv16, y: bv16)
    ensures (x ^ y) & 0x8000 == (x & 0x8000) ^ (y & 0x8000)
  {
  }

  lemma TopSetLinear(x: bv16, y: bv16)
    ensures TopSet(Mix(x, y)) <==> TopSet(x) != TopSet(y)
  {
    TopBit(x);
    TopBit(y);
    TopBit(Mix(x, y));
    TopBitLinear(x, y);
    hide TopSet;
  }

  lemma PolynomialMixes()
    ensures Mix(0x1021, 0x1021) == 0 == Mix(0, 0)
    ensures Mix(0x1021, 0) == 0x1021 == Mix(0, 0x1021)
  {
  }

  lemma FeedbackLinear(x: bv16, y: bv16)
    ensures Feedback(Mix(x, y)) == Mix(Feedback(x), Feedback(y))
  {
    TopSetLinear(x, y);
    PolynomialMixes();
    hide TopSet;
    hide Mix;
  }

  lemma DoubleLinear(x: bv16, y: bv16)
    ensures Double(Mix(x, y)) == Mix(Double(x), Double(y))
  {
  }

  lemma ShiftLinear(x: bv16, y: bv16)
    ensures Shift(Mix(x, y)) == Mix(Shift(x), Shift(y))
  {
    hide Feedback;
    hide Mix;
    hide Double;
    DoubleLinear(x, y);
    FeedbackLinear(x, y);
    MixRearranges(Double(x), Double(y), Feedback(x), Feedback(y));
  }

  lemma DoubleIsEven(x: bv16)
    ensures Double(x) & 1 == 0
    ensures Mix(Double(x), 0x1021) & 1 == 1
    ensures Mix(Double(x), 0) & 1 == 0
  {
  }

  lemma LowBitIsFeedback(x: bv16)
    ensures Shift(x) & 1 == if TopSet(x) then 1 else 0
  {
    DoubleIsEven(x);
    hide TopSet;
    hide Mix;
    hide Double;
  }

  lemma SameFeedback(x: bv16, y: bv16)
    requires Shift(x) == Shift(y)
    ensures TopSet(x) == TopSet(y) && Feedback(x) == Feedback(y)
  {
    LowBitIsFeedback(x);
    LowBitIsFeedback(y);
    hide Shift;
    hide TopSet;
  }

  lemma DoubleInjective(x: bv16, y: bv16)
    requires Double(x) == Double(y)
    requires TopSet(x) == TopSet(y)
    ensures x == y
  {
    TopBit(x);
    TopBit(y);
    hide TopSet;
  }

  lemma ShiftInjective(x: bv16, y: bv16)
    requires Shift(x) == Shift(y)
    ensures x == y
  {
    SameFeedback(x, y);
    hide Feedback;
    hide Mix;
    hide Double;
    MixCancels(Double(x), Double(y), Feedback(x));
    DoubleInjective(x, y);
  }

  /** The bit step run backwards: the low bit says whether the polynomial was added. */
  function Unshift(y: bv16): bv16 {
    if y & 1 != 0 then ((y ^ 0x1021) >> 1) | 0x8000 else y >> 1
  }

  lemma UnshiftOdd(y: bv16)
    requires y & 1 != 0
    ensures TopSet(((y ^ 0x1021) >> 1) | 0x8000)
    ensures Double(((y ^ 0x1021) >> 1) | 0x8000) == Mix(y, 0x1021)
  {
  }

  lemma UnshiftEven(y: bv16)
    requires y & 1 == 0
    ensures !TopSet(y >> 1)
    ensures Double(y >> 1) == y
  {
  }

  lemma ShiftOnto(y: bv16)
    ensures Shift(Unshift(y)) == y
  {
    if y & 1 != 0 {
      UnshiftOdd(y);
      MixAssociates(y, 0x1021, 0x1021);
      PolynomialMixes();
    } else {
      UnshiftEven(y);
    }
    MixZero(y);
    hide Mix;
    hide Double;
    hide TopSet;
  }

  function Unshift8(y: bv16): bv16 {
    Unshift(Unshift(Unshift(Unshift(Unshift(Unshift(Unshift(Unshift(y))))))))
  }

  // --- One byte ---

  lemma Shift4Linear(x: bv16, y: bv16)
    ensures Shift4(Mix(x, y)) == Mix(Shift4(x), Shift4(y))
  {
    hide Shift;
    hide Mix;
    ShiftLinear(x, y);
    ShiftLinear(Shift(x), Shift(y));
    ShiftLinear(Shift(Shift(x)), Shift(Shift(y)));
    ShiftLinear(Shift(Shift(Shift(x))), Shift(Shift(Shift(y))));
  }

  lemma Shift8Linear(x: bv16, y: bv16)
    ensures Shift8(Mix(x, y)) == Mix(Shift8(x), Shift8(y))
  {
    hide Shift4;
    hide Mix;
    Shift4Linear(x, y);
    Shift4Linear(Shift4(x), Shift4(y));
  }

  lemma Shift4Injective(x: bv16, y: bv16)
    requires Shift4(x) == Shift4(y)
    ensures x == y
  {
    hide Shift;
    ShiftInjective(Shift(Shift(Shift(x))), Shift(Shift(Shift(y))));
    ShiftInjective(Shift(Shift(x)), Shift(Shift(y)));
    ShiftInjective(Shift(x), Shift(y));
    ShiftInjective(x, y);
  }

  /** The byte step reaches every register, so with `Shift8Injective` it is a bijection. */
  lemma Shift8Onto(y: bv16)
    ensures Shift8(Unshift8(y)) == y
  {
    hide Shift;
    hide Unshift;
    var y1 := Unshift(y);
    var y2 := Unshift(y1);
    var y3 := Unshift(y2);
    var y4 := Unshift(y3);
    var y5 := Unshift(y4);
    var y6 := Unshift(y5);
    var y7 := Unshift(y6);
    ShiftOnto(y);
    ShiftOnto(y1);
    ShiftOnto(y2);
    ShiftOnto(y3);
    ShiftOnto(y4);
    ShiftOnto(y5);
    ShiftOnto(y6);
    ShiftOnto(y7);
  }

  lemma Shift8Injective(x: bv16, y: bv16)
    requires Shift8(x) == Shift8(y)
    ensures x == y
  {
    hide Shift4;
    Shift4Injective(Shift4(x), Shift4(y));
    Shift4Injective(x, y);
  }

  /** A register whose high byte is clear moves up unchanged: no feedback in eight bits. */
  lemma LowByteMovesUp(b: bv8)
    ensures Shift8(b as bv16) == High(b)
  {
    var c := b as bv16;
    assert c < 256;
    assert Shift4(c) == c << 4;
    assert Shift4(c << 4) == c << 8;
  }

  // --- Bodies ---

  function Xor(a: seq<bv8>, b: seq<bv8>): (s: seq<bv8>)
    requires |a| == |b|
    ensures |s| == |a|
  {
    seq(|a|, i requires 0 <= i < |a| => a[i] ^ b[i])
  }

  /** The checksum is XOR-linear in register and body together. */
  lemma {:induction false} CrcLinear(c: bv16, d: bv16, a: seq<bv8>, b: seq<bv8>)
    requires |a| == |b|
    ensures Crc(Mix(c, d), Xor(a, b)) == Mix(Crc(c, a), Crc(d, b))
  {
    hide Shift8;
    hide High;
    hide Mix;
    if a != [] {
      var k := |a| - 1;
      CrcLinear(c, d, a[..k], b[..k]);
      assert Xor(a, b)[..k] == Xor(a[..k], b[..k]);
      HighLinear(a[k], b[k]);
      MixRearranges(Crc(c, a[..k]), Crc(d, b[..k]), High(a[k]), High(b[k]));
      Shift8Linear(Mix(Crc(c, a[..k]), High(a[k])), Mix(Crc(d, b[..k]), High(b[k])));
    }
  }

  lemma HighLinear(a: bv8, b: bv8)
    ensures High(a ^ b) == Mix(High(a), High(b))
  {
  }

  lemma {:induction false} CrcConcat(c: bv16, a: seq<bv8>, b: seq<bv8>)
    ensures Crc(c, a + b) == Crc(Crc(c, a), b)
  {
    hide Shift8;
    hide High;
    hide Mix;
    if b == [] {
      assert a + b == a;
    } else {
      var k := |b| - 1;
      CrcConcat(c, a, b[..k]);
      assert (a + b)[..|a + b| - 1] == a + b[..k];
    }
  }

  /** Registers that differ stay different through any common tail. */
  lemma {:induction false} CrcInjective(c: bv16, d: bv16, tail: seq<bv8>)
    requires Crc(c, tail) == Crc(d, tail)
    ensures c == d
  {
    hide Shift8;
    hide High;
    hide Mix;
    if tail != [] {
      var k := |tail| - 1;
      var h := High(tail[k]);
      Shift8Injective(Mix(Crc(c, tail[..k]), h), Mix(Crc(d, tail[..k]), h));
      MixCancels(Crc(c, tail[..k]), Crc(d, tail[..k]), h);
      CrcInjective(c, d, tail[..k]);
    }
  }

  /** Two bytes as one 16-bit word. */
  function Word(a: bv8, b: bv8): bv16 {
    Mix(High(a), b as bv16)
  }

  /** Two adjacent bytes enter the register as one word, then pass the bijection twice. */
  lemma TwoBytes(c: bv16, a: bv8, b: bv8)
    ensures Crc(c, [a, b]) == Shift8(Shift8(Mix(c, Word(a, b))))
  {
    hide Shift8;
    hide High;
    hide Mix;
    assert [a, b][..1] == [a] && [a][..0] == [];
    assert Crc(c, [a]) == Shift8(Mix(c, High(a)));
    var low := b as bv16;
    LowByteMovesUp(b);
    Shift8Linear(Mix(c, High(a)), low);
    MixAssociates(c, High(a), low);
  }

  lemma WordDeterminesBytes(a1: bv8, b1: bv8, a2: bv8, b2: bv8)
    requires Word(a1, b1) == Word(a2, b2)
    ensures a1 == a2 && b1 == b2
  {
    assert Word(a1, b1) >> 8 == a1 as bv16;
    assert Word(a2, b2) >> 8 == a2 as bv16;
    assert Word(a1, b1) & 0xff == b1 as bv16;
    assert Word(a2, b2) & 0xff == b2 as bv16;
  }

  /** Bodies of equal length that differ only within two adjacent bytes have different checksums. */
  lemma TwoByteErrorsChangeTheChecksum(prefix: seq<bv8>, a1: bv8, b1: bv8, a2: bv8, b2: bv8, tail: seq<bv8>)
    requires a1 != a2 || b1 != b2
    ensures Crc(0, prefix + [a1, b1] + tail) != Crc(0, prefix + [a2, b2] + tail)
  {
    hide Shift8;
    hide Word;
    hide Mix;
    if Crc(0, prefix + [a1, b1] + tail) == Crc(0, prefix + [a2, b2] + tail) {
      var c := Crc(0, prefix);
      CrcConcat(0, prefix + [a1, b1], tail);
      CrcConcat(0, prefix + [a2, b2], tail);
      CrcConcat(0, prefix, [a1, b1]);
      CrcConcat(0, prefix, [a2, b2]);
      hide Crc;
      CrcInjective(Crc(c, [a1, b1]), Crc(c, [a2, b2]), tail);
      TwoBytes(c, a1, b1);
      TwoBytes(c, a2, b2);
      Shift8Injective(Shift8(Mix(c, Word(a1, b1))), Shift8(Mix(c, Word(a2, b2))));
      Shift8Injective(Mix(c, Word(a1, b1)), Mix(c, Word(a2, b2)));
      MixCancels(Word(a1, b1), Word(a2, b2), c);
      WordDeterminesBytes(a1, b1, a2, b2);
    }
  }

  // --- The encoded string ---

  function LowByte(c: bv16): bv8 {
    (c & 0xff) as bv8
  }

  function HighByte(c: bv16): bv8 {
    (c >> 8) as bv8
  }

  /** What `encodeContract` hands to base32: the body, then the checksum, low byte first. */
  function WithChecksum(body: seq<bv8>): seq<bv8> {
    var crc := Crc(0, body);
    body + [LowByte(crc), HighByte(crc)]
  }

  predicate ChecksumHolds(s: seq<bv8>) {
    |s| >= 2 && s == WithChecksum(s[..|s| - 2])
  }

  /** A checksummed string corrupted within two adjacent body bytes no longer checks. */
  lemma CorruptionIsDetected(prefix: seq<bv8>, a1: bv8, b1: bv8, a2: bv8, b2: bv8, tail: seq<bv8>, check: seq<bv8>)
    requires |check| == 2 && (a1 != a2 || b1 != b2)
    requires ChecksumHolds(prefix + [a1, b1] + tail + check)
    ensures !ChecksumHolds(prefix + [a2, b2] + tail + check)
  {
    var s1, s2 := prefix + [a1, b1] + tail, prefix + [a2, b2] + tail;
    TwoByteErrorsChangeTheChecksum(prefix, a1, b1, a2, b2, tail);
    assert (s1 + check)[..|s1|] == s1 && (s2 + check)[..|s2|] == s2;
    assert (s1 + check)[|s1|..] == check && (s2 + check)[|s2|..] == check;
    hide Crc;
    BytesDetermineCrc(Crc(0, s1), Crc(0, s2));
  }

  lemma BytesDetermineCrc(c: bv16, d: bv16)
    ensures LowByte(c) == LowByte(d) && HighByte(c) == HighByte(d) ==> c == d
  {
    assert c == ((c >> 8) << 8) | (c & 0xff);
    assert d == ((d >> 8) << 8) | (d & 0xff);
    assert ((c & 0xff) as bv8) as bv16 == c & 0xff;
    assert ((d & 0xff) as bv8) as bv16 == d & 0xff;
    assert ((c >> 8) as bv8) as bv16 == c >> 8;
    assert ((d >> 8) as bv8) as bv16 == d >> 8;
  }

  // --- The published check value ---

  /** The nine steps, half a byte at a time. */
  lemma FirstSteps()
    ensures Shift4(Mix(0x0000, High(0x31))) == 0x2063 && Shift4(0x2063) == 0x2672
    ensures Shift4(Mix(0x2672, High(0x32))) == 0x5701 && Shift4(0x5701) == 0x20b5
    ensures Shift4(Mix(0x20b5, High(0x33))) == 0x2b71 && Shift4(0x2b71) == 0x9752
    ensures Shift4(Mix(0x9752, High(0x34))) == 0x946a && Shift4(0x946a) == 0xd789
    ensures Shift4(Mix(0xd789, High(0x35))) == 0xc95e && Shift4(0xc95e) == 0x546c
  {
  }

  lemma LastSteps()
    ensures Shift4(Mix(0x546c, High(0x36))) == 0x4606 && Shift4(0x4606) == 0x20e4
    ensures Shift4(Mix(0x20e4, High(0x37))) == 0x6e61 && Shift4(0x6e61) == 0x86d6
    ensures Shift4(Mix(0x86d6, High(0x38))) == 0x5c0b && Shift4(0x5c0b) == 0x9015
    ensures Shift4(Mix(0x9015, High(0x39))) == 0x301a && Shift4(0x301a) == 0x31c3
  {
  }

  lemma FeedsNext(body: seq<bv8>, k: nat, c: bv16, half: bv16, d: bv16)
    requires k < |body| && Crc(0, body[..k]) == c
    requires Shift4(Mix(c, High(body[k]))) == half && Shift4(half) == d
    ensures Crc(0, body[..k + 1]) == d
  {
    hide Shift4;
    hide Mix;
    hide High;
    assert body[..k + 1][..k] == body[..k];
  }

  /** CRC-16/XMODEM: polynomial 0x1021, nothing reflected, register 0 at the start. "123456789" gives 0x31c3, of which
      the low byte is appended first. */
  lemma CheckValue()
    ensures var digits := [0x31, 0x32, 0x33, 0x34, 0x35, 0x36, 0x37, 0x38, 0x39];
            Crc(0, digits) == 0x31c3 && WithChecksum(digits) == digits + [0xc3, 0x31]
  {
    FirstSteps();
    LastSteps();
    hide Shift4;
    hide Mix;
    hide High;
    var digits: seq<bv8> := [0x31, 0x32, 0x33, 0x34, 0x35, 0x36, 0x37, 0x38, 0x39];
    assert Crc(0, digits[..0]) == 0;
    hide Crc;
    FeedsNext(digits, 0, 0x0000, 0x2063, 0x2672);
    FeedsNext(digits, 1, 0x2672, 0x5701, 0x20b5);
    FeedsNext(digits, 2, 0x20b5, 0x2b71, 0x9752);
    FeedsNext(digits, 3, 0x9752, 0x946a, 0xd789);
    FeedsNext(digits, 4, 0xd789, 0xc95e, 0x546c);
    FeedsNext(digits, 5, 0x546c, 0x4606, 0x20e4);
    FeedsNext(digits, 6, 0x20e4, 0x6e61, 0x86d6);
    FeedsNext(digits, 7, 0x86d6, 0x5c0b, 0x9015);
    FeedsNext(digits, 8, 0x9015, 0x301a, 0x31c3);
    assert digits[..9] == digits;
  }

  /** `encodeContract` up to base32: version byte, contract id, checksum. */
  method EncodeContract(contractId: seq<bv8>) returns (s: seq<bv8>)
    ensures |s| == |contractId| + 3 && s[0] == 0x10 && s[1..|s| - 2] == contractId
    ensures s == WithChecksum([0x10] + contractId) && ChecksumHolds(s)
  {
    hide Crc;
    var body := [2 << 3] + contractId;
    var crc := ComputeCrc(body);
    s := body + [LowByte(crc), HighByte(crc)];
    hide LowByte;
    hide HighByte;
    assert s[..|s| - 2] == body;
  }
}
