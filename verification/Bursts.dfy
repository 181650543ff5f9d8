/** What the checksum detects, bit by bit: any burst of at most 16 wrong bits in the body, at any offset; and any single
    wrong character of the base32 string, wherever its five bits fall. */
module Bursts {
  import opened Crc16

  /** A message bit, where it enters the register. */
  function Top(b: bool): bv16 {
    if b then 0x8000 else 0
  }

  /** A bit as a number. */
  function Unit(b: bool): bv16 {
    if b then 1 else 0
  }

  /** The register after `bits`, fed one by one. */
  function Feed(c: bv16, bits: seq<bool>): bv16 {
    if bits == [] then c else Shift(Mix(Feed(c, bits[..|bits| - 1]), Top(bits[|bits| - 1])))
  }

  /** The number that up to sixteen bits spell, most significant first. */
  function Value(bits: seq<bool>): bv16 {
    if bits == [] then 0 else Mix(Double(Value(bits[..|bits| - 1])), Unit(bits[|bits| - 1]))
  }

  function BitsOf(b: bv8): (bits: seq<bool>)
    ensures |bits| == 8
  {
    [b & 0x80 != 0, b & 0x40 != 0, b & 0x20 != 0, b & 0x10 != 0, b & 8 != 0, b & 4 != 0, b & 2 != 0, b & 1 != 0]
  }

  function Bits(body: seq<bv8>): (bits: seq<bool>)
    ensures |bits| == 8 * |body|
  {
    if body == [] then [] else Bits(body[..|body| - 1]) + BitsOf(body[|body| - 1])
  }

  // --- Repeated shifts ---

  lemma {:induction false} ShiftsLinear(x: bv16, y: bv16, n: nat)
    ensures Shifts(Mix(x, y), n) == Mix(Shifts(x, n), Shifts(y, n))
  {
    hide Shift;
    hide Mix;
    if n > 0 {
      ShiftsLinear(x, y, n - 1);
      ShiftLinear(Shifts(x, n - 1), Shifts(y, n - 1));
    }
  }

  lemma {:induction false} ShiftsAdd(c: bv16, m: nat, n: nat)
    ensures Shifts(c, m + n) == Shifts(Shifts(c, m), n)
  {
    hide Shift;
    if n > 0 {
      ShiftsAdd(c, m, n - 1);
    }
  }

  lemma ShiftsOfShift(c: bv16, n: nat)
    ensures Shifts(Shift(c), n) == Shift(Shifts(c, n))
  {
    hide Shift;
    assert Shifts(c, 0) == c && Shifts(c, 1) == Shift(Shifts(c, 0));
    ShiftsAdd(c, 1, n);
    assert Shifts(c, n + 1) == Shift(Shifts(c, n));
  }

  lemma SixteenShifts(c: bv16)
    ensures Shifts(c, 16) == Shift8(Shift8(c))
  {
    hide Shift8;
    hide Shifts;
    ShiftsAdd(c, 8, 8);
    EightShifts(c);
    EightShifts(Shift8(c));
  }

  lemma ShiftsZero(n: nat)
    ensures Shifts(0, n) == 0
  {
    if n > 0 {
      ShiftsZero(n - 1);
      assert Shift(0) == 0;
    }
  }

  // --- Small numbers shift without feedback ---

  /** Two to the `n`, below sixteen. */
  function Low(n: nat): bv16 {
    if n == 0 then 1 else Double(Low(n - 1))
  }

  lemma LowIs(n: nat)
    requires n <= 15
    ensures Low(15) == 0x8000
    ensures n <= 14 ==> !TopSet(Low(n))
  {
    assert Low(1) == 2;
    assert Low(2) == 4;
    assert Low(3) == 8;
    assert Low(4) == 0x10;
    assert Low(5) == 0x20;
    assert Low(6) == 0x40;
    assert Low(7) == 0x80;
    assert Low(8) == 0x100;
    assert Low(9) == 0x200;
    assert Low(10) == 0x400;
    assert Low(11) == 0x800;
    assert Low(12) == 0x1000;
    assert Low(13) == 0x2000;
    assert Low(14) == 0x4000;
  }

  lemma SmallShift(c: bv16)
    requires !TopSet(c)
    ensures Shift(c) == Double(c)
  {
  }

  lemma {:induction false} OneTravels(n: nat)
    requires n <= 15
    ensures Shifts(1, n) == Low(n)
  {
    hide Shift;
    hide Double;
    hide TopSet;
    if n > 0 {
      OneTravels(n - 1);
      LowIs(n - 1);
      SmallShift(Low(n - 1));
    }
  }

  lemma OneEnters(b: bool)
    ensures Shifts(Unit(b), 16) == Shift(Top(b))
  {
    hide Shift;
    hide Shifts;
    if b {
      OneTravels(15);
      LowIs(15);
      ShiftsAdd(1, 15, 1);
      OneMore(0x8000);
    } else {
      ShiftsZero(16);
      ShiftsZero(1);
      OneMore(0);
    }
  }

  lemma OneMore(c: bv16)
    ensures Shifts(c, 1) == Shift(c)
  {
    hide Shift;
    assert Shifts(c, 0) == c;
  }

  /** The bits from the `n`th up. */
  function From(n: nat): bv16 {
    if n == 0 then 0xffff else Double(From(n - 1))
  }

  lemma FromIs(n: nat)
    requires n <= 15
    ensures From(n) & 0x8000 == 0x8000
    ensures n <= 4 ==> From(n) & 0xfff0 == 0xfff0
  {
    assert From(1) == 0xfffe;
    assert From(2) == 0xfffc;
    assert From(3) == 0xfff8;
    assert From(4) == 0xfff0;
    assert From(5) == 0xffe0;
    assert From(6) == 0xffc0;
    assert From(7) == 0xff80;
    assert From(8) == 0xff00;
    assert From(9) == 0xfe00;
    assert From(10) == 0xfc00;
    assert From(11) == 0xf800;
    assert From(12) == 0xf000;
    assert From(13) == 0xe000;
    assert From(14) == 0xc000;
    assert From(15) == 0x8000;
  }

  /** No bit of `v` is in the mask. */
  predicate Clear(v: bv16, mask: bv16) {
    v & mask == 0
  }

  lemma DoubleMeets(v: bv16, mask: bv16)
    requires v & mask == 0
    ensures Double(v) & Double(mask) == 0
  {
    assert (v << 1) & (mask << 1) == (v & mask) << 1;
  }

  lemma UnitMeets(mask: bv16, b: bool)
    ensures Unit(b) & Double(mask) == 0
  {
  }

  lemma MixMeets(x: bv16, y: bv16, mask: bv16)
    requires x & mask == 0 && y & mask == 0
    ensures Mix(x, y) & mask == 0
  {
    assert (x ^ y) & mask == (x & mask) ^ (y & mask);
  }

  lemma NextMeets(v: bv16, mask: bv16, b: bool)
    requires v & mask == 0
    ensures Mix(Double(v), Unit(b)) & Double(mask) == 0
  {
    hide *;
    DoubleMeets(v, mask);
    UnitMeets(mask, b);
    MixMeets(Double(v), Unit(b), Double(mask));
  }

  lemma NextClear(v: bv16, mask: bv16, b: bool)
    requires Clear(v, mask)
    ensures Clear(Mix(Double(v), Unit(b)), Double(mask))
  {
    hide Double;
    hide Unit;
    hide Mix;
    NextMeets(v, mask, b);
  }

  /** Bits up to the `n`th leave the rest of the register clear. */
  lemma {:induction false} ValueIsSmall(bits: seq<bool>)
    ensures Clear(Value(bits), From(|bits|))
  {
    if bits != [] {
      var k := |bits| - 1;
      ValueIsSmall(bits[..k]);
      NextClear(Value(bits[..k]), From(k), bits[k]);
      hide Mix;
      hide Double;
      hide Unit;
      hide Clear;
    }
  }

  lemma ClearTop(v: bv16, mask: bv16)
    requires Clear(v, mask) && mask & 0x8000 == 0x8000
    ensures !TopSet(v)
  {
  }

  lemma TopIsClear(bits: seq<bool>)
    requires |bits| <= 15
    ensures !TopSet(Value(bits))
  {
    hide *;
    ValueIsSmall(bits);
    FromIs(|bits|);
    ClearTop(Value(bits), From(|bits|));
  }

  // --- Feeding bits ---

  /** What the register held before adds to what the bits alone leave. */
  lemma {:induction false} FeedSplits(c: bv16, bits: seq<bool>)
    ensures Feed(c, bits) == Mix(Shifts(c, |bits|), Feed(0, bits))
  {
    hide Shift;
    hide Mix;
    hide Top;
    if bits == [] {
      MixZero(c);
    } else {
      var k := |bits| - 1;
      FeedSplits(c, bits[..k]);
      var p, q, t := Shifts(c, k), Feed(0, bits[..k]), Top(bits[k]);
      MixAssociates(p, q, t);
      ShiftLinear(p, Mix(q, t));
    }
  }

  /** Up to sixteen bits enter a clear register as their number, shifted through. */
  lemma {:induction false} FeedIsValue(bits: seq<bool>)
    requires |bits| <= 16
    ensures Feed(0, bits) == Shifts(Value(bits), 16)
  {
    hide Shift;
    hide Shifts;
    hide Mix;
    hide Top;
    hide TopSet;
    hide Unit;
    hide Double;
    if bits == [] {
      ShiftsZero(16);
    } else {
      var k := |bits| - 1;
      var v := Value(bits[..k]);
      FeedIsValue(bits[..k]);
      TopIsClear(bits[..k]);
      SmallShift(v);
      ShiftsLinear(Shift(v), Unit(bits[k]), 16);
      ShiftsOfShift(v, 16);
      OneEnters(bits[k]);
      ShiftLinear(Feed(0, bits[..k]), Top(bits[k]));
    }
  }

  lemma LowBit(p: bv16, b: bool)
    ensures Mix(Double(p), Unit(b)) & 1 == Unit(b)
  {
  }

  lemma UnitInjective(b: bool, d: bool)
    requires Unit(b) == Unit(d)
    ensures b == d
  {
  }

  lemma LastBit(p: bv16, q: bv16, b: bool, d: bool)
    requires !TopSet(p) && !TopSet(q) && Mix(Double(p), Unit(b)) == Mix(Double(q), Unit(d))
    ensures b == d && p == q
  {
    hide *;
    LowBit(p, b);
    LowBit(q, d);
    UnitInjective(b, d);
    MixCancels(Double(p), Double(q), Unit(b));
    DoubleInjective(p, q);
  }

  lemma {:induction false} ValueInjective(x: seq<bool>, y: seq<bool>)
    requires |x| == |y| <= 16 && Value(x) == Value(y)
    ensures x == y
  {
    hide Mix;
    hide Double;
    hide Unit;
    hide TopSet;
    if x != [] {
      var k := |x| - 1;
      TopIsClear(x[..k]);
      TopIsClear(y[..k]);
      LastBit(Value(x[..k]), Value(y[..k]), x[k], y[k]);
      ValueInjective(x[..k], y[..k]);
      assert x == x[..k] + [x[k]] && y == y[..k] + [y[k]];
    }
  }

  lemma {:induction false} FeedConcat(c: bv16, x: seq<bool>, y: seq<bool>)
    ensures Feed(c, x + y) == Feed(Feed(c, x), y)
  {
    hide Shift;
    hide Mix;
    hide Top;
    if y == [] {
      assert x + y == x;
    } else {
      FeedConcat(c, x, y[..|y| - 1]);
      assert (x + y)[..|x + y| - 1] == x + y[..|y| - 1];
    }
  }

  lemma {:induction false} FeedInjective(c: bv16, d: bv16, bits: seq<bool>)
    requires Feed(c, bits) == Feed(d, bits)
    ensures c == d
  {
    hide Shift;
    hide Mix;
    hide Top;
    if bits != [] {
      var k := |bits| - 1;
      var t := Top(bits[k]);
      ShiftInjective(Mix(Feed(c, bits[..k]), t), Mix(Feed(d, bits[..k]), t));
      MixCancels(Feed(c, bits[..k]), Feed(d, bits[..k]), t);
      FeedInjective(c, d, bits[..k]);
    }
  }

  /** Up to sixteen bits are determined by what they do to a register. */
  lemma FeedDetermines(c: bv16, x: seq<bool>, y: seq<bool>)
    requires |x| == |y| <= 16 && Feed(c, x) == Feed(c, y)
    ensures x == y
  {
    FeedSplits(c, x);
    FeedSplits(c, y);
    FeedIsValue(x);
    FeedIsValue(y);
    hide Feed;
    hide Mix;
    hide Shifts;
    hide Shift8;
    MixCancels(Feed(0, x), Feed(0, y), Shifts(c, |x|));
    SixteenShifts(Value(x));
    SixteenShifts(Value(y));
    Shift8Injective(Shift8(Value(x)), Shift8(Value(y)));
    Shift8Injective(Value(x), Value(y));
    ValueInjective(x, y);
  }

  // --- Bytes are eight bits ---

  lemma NibbleValue(a: bool, b: bool, c: bool, d: bool)
    ensures Value([a, b, c, d]) == (if a then 8 else 0) | (if b then 4 else 0) | (if c then 2 else 0) | Unit(d)
  {
    assert [a, b, c, d][..3] == [a, b, c] && [a, b, c][..2] == [a, b] && [a, b][..1] == [a] && [a][..0] == [];
    assert Value([a]) == Unit(a);
    assert Value([a, b]) == (if a then 2 else 0) | Unit(b);
    assert Value([a, b, c]) == (if a then 4 else 0) | (if b then 2 else 0) | Unit(c);
  }

  lemma HighNibble(b: bv8)
    ensures Value(BitsOf(b)[..4]) == (b >> 4) as bv16
  {
    NibbleValue(b & 0x80 != 0, b & 0x40 != 0, b & 0x20 != 0, b & 0x10 != 0);
    assert BitsOf(b)[..4] == [b & 0x80 != 0, b & 0x40 != 0, b & 0x20 != 0, b & 0x10 != 0];
    hide Value;
  }

  lemma NextBit(b: bv8)
    ensures Mix(Double((b >> 4) as bv16), Unit(b & 8 != 0)) == (b >> 3) as bv16
    ensures Mix(Double((b >> 3) as bv16), Unit(b & 4 != 0)) == (b >> 2) as bv16
    ensures Mix(Double((b >> 2) as bv16), Unit(b & 2 != 0)) == (b >> 1) as bv16
    ensures Mix(Double((b >> 1) as bv16), Unit(b & 1 != 0)) == b as bv16
  {
  }

  lemma ByteValue(b: bv8)
    ensures Value(BitsOf(b)) == b as bv16
  {
    var s := BitsOf(b);
    HighNibble(b);
    NextBit(b);
    assert s[4] == (b & 8 != 0) && s[5] == (b & 4 != 0) && s[6] == (b & 2 != 0) && s[7] == (b & 1 != 0);
    hide Mix;
    hide Double;
    hide Unit;
    hide BitsOf;
    assert s[..5][..4] == s[..4] && s[..6][..5] == s[..5] && s[..7][..6] == s[..6] && s[..8][..7] == s[..7] && s[..8] == s;
    assert Value(s[..5]) == Mix(Double(Value(s[..4])), Unit(s[4]));
    assert Value(s[..6]) == Mix(Double(Value(s[..5])), Unit(s[5]));
    assert Value(s[..7]) == Mix(Double(Value(s[..6])), Unit(s[6]));
  }

  lemma ByteFeeds(c: bv16, b: bv8)
    ensures Feed(c, BitsOf(b)) == Shift8(Mix(c, High(b)))
  {
    FeedSplits(c, BitsOf(b));
    FeedIsValue(BitsOf(b));
    ByteValue(b);
    SixteenShifts(b as bv16);
    LowByteMovesUp(b);
    EightShifts(c);
    Shift8Linear(c, High(b));
    hide *;
  }

  /** The byte loop feeds the body's bits. */
  lemma {:induction false} CrcFeedsBits(c: bv16, body: seq<bv8>)
    ensures Crc(c, body) == Feed(c, Bits(body))
  {
    hide Shift8;
    hide Mix;
    hide High;
    hide BitsOf;
    hide Feed;
    if body == [] {
      assert Feed(c, []) == c by {
        NoBits(c);
      }
    } else {
      var k := |body| - 1;
      CrcFeedsBits(c, body[..k]);
      FeedConcat(c, Bits(body[..k]), BitsOf(body[k]));
      ByteFeeds(Feed(c, Bits(body[..k])), body[k]);
    }
  }

  lemma NoBits(c: bv16)
    ensures Feed(c, []) == c
  {
  }

  lemma {:induction false} BitsConcat(a: seq<bv8>, b: seq<bv8>)
    ensures Bits(a + b) == Bits(a) + Bits(b)
  {
    hide BitsOf;
    if b == [] {
      assert a + b == a;
    } else {
      BitsConcat(a, b[..|b| - 1]);
      assert (a + b)[..|a + b| - 1] == a + b[..|b| - 1];
    }
  }

  lemma BitsOfInjective(a: bv8, b: bv8)
    requires BitsOf(a) == BitsOf(b)
    ensures a == b
  {
    ByteValue(a);
    ByteValue(b);
    hide BitsOf;
    hide Value;
    assert a as bv16 == b as bv16;
  }

  lemma {:induction false} BitsInjective(a: seq<bv8>, b: seq<bv8>)
    requires |a| == |b| && Bits(a) == Bits(b)
    ensures a == b
  {
    hide BitsOf;
    if a != [] {
      var k := |a| - 1;
      assert Bits(a)[..8 * k] == Bits(a[..k]) && Bits(b)[..8 * k] == Bits(b[..k]);
      assert Bits(a)[8 * k..] == BitsOf(a[k]) && Bits(b)[8 * k..] == BitsOf(b[k]);
      BitsInjective(a[..k], b[..k]);
      BitsOfInjective(a[k], b[k]);
      assert a == a[..k] + [a[k]] && b == b[..k] + [b[k]];
    }
  }

  // --- Bursts ---

  /** The two bit strings agree outside `n` bits from `i`. */
  predicate AgreeOutside(x: seq<bool>, y: seq<bool>, i: nat, n: nat)
    requires |x| == |y|
  {
    forall k :: 0 <= k < |x| && !(i <= k < i + n) ==> x[k] == y[k]
  }

  /** Bit strings that agree outside a burst of at most sixteen bits, yet leave the same register, are the same. */
  lemma BurstDetermines(x: seq<bool>, y: seq<bool>, i: nat, n: nat)
    requires |x| == |y| && n <= 16 && AgreeOutside(x, y, i, n)
    requires Feed(0, x) == Feed(0, y)
    ensures x == y
  {
    hide Feed;
    if i < |x| {
      var e := if i + n < |x| then i + n else |x|;
      assert x == (x[..i] + x[i..e]) + x[e..] && y == (y[..i] + y[i..e]) + y[e..];
      assert x[..i] == y[..i] && x[e..] == y[e..];
      FeedConcat(0, x[..i] + x[i..e], x[e..]);
      FeedConcat(0, y[..i] + y[i..e], y[e..]);
      FeedInjective(Feed(0, x[..i] + x[i..e]), Feed(0, y[..i] + y[i..e]), x[e..]);
      FeedConcat(0, x[..i], x[i..e]);
      FeedConcat(0, y[..i], y[i..e]);
      FeedDetermines(Feed(0, x[..i]), x[i..e], y[i..e]);
    } else {
      assert x == y;
    }
  }

  /** Different bodies of one length whose bits agree outside sixteen adjacent ones have different checksums. */
  lemma BurstChangesTheChecksum(a: seq<bv8>, b: seq<bv8>, i: nat, n: nat)
    requires |a| == |b| && a != b && n <= 16 && AgreeOutside(Bits(a), Bits(b), i, n)
    ensures Crc(0, a) != Crc(0, b)
  {
    CrcFeedsBits(0, a);
    CrcFeedsBits(0, b);
    hide *;
    if Crc(0, a) == Crc(0, b) {
      BurstDetermines(Bits(a), Bits(b), i, n);
      BitsInjective(a, b);
    }
  }

  // --- One character ---

  /** Four low bits pass sixteen shifts onto the low nibble unchanged. */
  lemma LowNibbleSurvives(v: bv16)
    requires v & 0xfff0 == 0
    ensures Shifts(v, 16) & 0xf == v
  {
    ShiftsAdd(v, 8, 8);
    EightShifts(v);
    EightShifts(Shift8(v));
    SmallByte(v);
    hide Shifts;
    assert Shift4(v << 8) == v << 12;
    assert Shift4(v << 12) == (v << 12) ^ (v << 5) ^ v;
  }

  lemma SmallByte(v: bv16)
    requires v & 0xfff0 == 0
    ensures Shift8(v) == v << 8
  {
    var b := v as bv8;
    assert b as bv16 == v;
    LowByteMovesUp(b);
  }

  lemma ClearHigh(v: bv16, mask: bv16)
    requires Clear(v, mask) && mask & 0xfff0 == 0xfff0
    ensures v & 0xfff0 == 0
  {
  }

  lemma FourBitsAreSmall(bits: seq<bool>)
    requires |bits| <= 4
    ensures Value(bits) & 0xfff0 == 0
  {
    hide *;
    ValueIsSmall(bits);
    FromIs(|bits|);
    ClearHigh(Value(bits), From(|bits|));
  }

  /** Different endings of at most four bits change the checksum's low nibble. */
  lemma EndingShowsInTheNibble(c: bv16, x: seq<bool>, y: seq<bool>)
    requires |x| == |y| <= 4
    requires Mix(Feed(c, x), Feed(c, y)) & 0xf == 0
    ensures x == y
  {
    var p, v, w := Shifts(c, |x|), Value(x), Value(y);
    FeedSplits(c, x);
    FeedSplits(c, y);
    FeedIsValue(x);
    FeedIsValue(y);
    FourBitsAreSmall(x);
    FourBitsAreSmall(y);
    hide Feed;
    hide Shifts;
    MixOfSums(p, Shifts(v, 16), Shifts(w, 16));
    ShiftsLinear(v, w, 16);
    NibblesMix(v, w);
    LowNibbleSurvives(Mix(v, w));
    hide Value;
    MixIsZero(v, w);
    ValueInjective(x, y);
  }

  lemma MixOfSums(p: bv16, q: bv16, r: bv16)
    ensures Mix(Mix(p, q), Mix(p, r)) == Mix(q, r)
  {
    hide Mix;
    MixRearranges(p, q, p, r);
    MixSelf(p);
    MixCommutes(0, Mix(q, r));
    MixZero(Mix(q, r));
  }

  lemma MixSelf(p: bv16)
    ensures Mix(p, p) == 0
  {
  }

  lemma NibblesMix(v: bv16, w: bv16)
    requires v & 0xfff0 == 0 && w & 0xfff0 == 0
    ensures Mix(v, w) & 0xfff0 == 0
  {
  }

  lemma MixIsZero(v: bv16, w: bv16)
    ensures Mix(v, w) == 0 ==> v == w
  {
  }

  /** The low nibbles of two checksums, from the last four bits of the byte that carries them. */
  lemma NibbleBits(c: bv16, d: bv16)
    requires BitsOf(LowByte(c))[4..] == BitsOf(LowByte(d))[4..]
    ensures Mix(c, d) & 0xf == 0
  {
    var b, e := LowByte(c), LowByte(d);
    var s, t := BitsOf(b), BitsOf(e);
    assert s[4..][0] == t[4..][0] && s[4..][1] == t[4..][1] && s[4..][2] == t[4..][2] && s[4..][3] == t[4..][3];
    assert b & 8 == e & 8 && b & 4 == e & 4 && b & 2 == e & 2 && b & 1 == e & 1;
    hide BitsOf;
    assert b & 0xf == e & 0xf;
    assert b as bv16 == c & 0xff && e as bv16 == d & 0xff;
  }

  /** What is handed to base32: a body and its two check bytes, low byte first. */
  lemma EncodedBits(body: seq<bv8>)
    ensures var crc := Crc(0, body);
            Bits(WithChecksum(body)) == Bits(body) + (BitsOf(LowByte(crc)) + BitsOf(HighByte(crc)))
  {
    hide Crc;
    hide LowByte;
    hide HighByte;
    hide BitsOf;
    var low, high := LowByte(Crc(0, body)), HighByte(Crc(0, body));
    BitsConcat(body, [low, high]);
    assert [low, high][..1] == [low] && [low][..0] == [];
    assert Bits([low]) == BitsOf(low);
    assert Bits([low, high]) == BitsOf(low) + BitsOf(high);
  }

  lemma SplitAgreement(x: seq<bool>, p: seq<bool>, y: seq<bool>, q: seq<bool>, i: nat, n: nat)
    requires |x| == |y| && |p| == |q| && AgreeOutside(x + p, y + q, i, n)
    ensures AgreeOutside(x, y, i, n)
    ensures i < |x| ==> x[..i] == y[..i]
    ensures i >= |x| ==> x == y
    ensures forall k :: 0 <= k < |p| && i + n <= |x| + k ==> p[k] == q[k]
  {
    forall k | 0 <= k < |x| && !(i <= k < i + n) ensures x[k] == y[k] {
      assert (x + p)[k] == (y + q)[k];
    }
    forall k | 0 <= k < |p| && i + n <= |x| + k ensures p[k] == q[k] {
      assert (x + p)[|x| + k] == (y + q)[|x| + k];
    }
  }

  lemma SameParts(p: seq<bool>, q: seq<bool>, r: seq<bool>, t: seq<bool>)
    requires |p| == |r| && |q| == |t|
    requires forall k :: 0 <= k < |p + q| ==> (p + q)[k] == (r + t)[k]
    ensures p == r && q == t
  {
    assert (p + q)[..|p|] == p && (r + t)[..|p|] == r;
    assert (p + q)[|p|..] == q && (r + t)[|p|..] == t;
    assert p + q == r + t;
  }

  /** Bodies that differ in their last four bits at most, under check bytes whose low nibbles agree, are the same. */
  lemma EndingIsDetected(a: seq<bv8>, b: seq<bv8>, i: nat)
    requires |a| == |b| && i <= 8 * |a| <= i + 4 && Bits(a)[..i] == Bits(b)[..i]
    requires forall k :: 4 <= k < 8 ==> BitsOf(LowByte(Crc(0, a)))[k] == BitsOf(LowByte(Crc(0, b)))[k]
    ensures a == b
  {
    hide *;
    var x, y := Bits(a), Bits(b);
    NibbleBits(Crc(0, a), Crc(0, b));
    CrcFeedsBits(0, a);
    CrcFeedsBits(0, b);
    assert x == x[..i] + x[i..] && y == y[..i] + y[i..];
    FeedConcat(0, x[..i], x[i..]);
    FeedConcat(0, y[..i], y[i..]);
    EndingShowsInTheNibble(Feed(0, x[..i]), x[i..], y[i..]);
    BitsInjective(a, b);
  }

  /** Two checksummed strings of one length whose bits agree outside one base32 character, at any offset, even across the
      border between body and check bytes, are the same string. */
  lemma OneCharacterIsDetected(a: seq<bv8>, b: seq<bv8>, i: nat)
    requires |a| == |b| && AgreeOutside(Bits(WithChecksum(a)), Bits(WithChecksum(b)), i, 5)
    ensures a == b
  {
    EncodedBits(a);
    EncodedBits(b);
    hide *;
    var n := 8 * |a|;
    var c, d := Crc(0, a), Crc(0, b);
    var x, y := Bits(a), Bits(b);
    var low, high := BitsOf(LowByte(c)), BitsOf(HighByte(c));
    var low', high' := BitsOf(LowByte(d)), BitsOf(HighByte(d));
    SplitAgreement(x, low + high, y, low' + high', i, 5);
    if a != b && i + 5 <= n {
      SameParts(low, high, low', high');
      BitsOfInjective(LowByte(c), LowByte(d));
      BitsOfInjective(HighByte(c), HighByte(d));
      BytesDetermineCrc(c, d);
      BurstChangesTheChecksum(a, b, i, 5);
    } else if a != b && i < n {
      forall k | 4 <= k < 8 ensures low[k] == low'[k] {
        assert (low + high)[k] == (low' + high')[k];
      }
      EndingIsDetected(a, b, i);
    } else if a != b {
      assert x == y;
      BitsInjective(a, b);
    }
  }
}
