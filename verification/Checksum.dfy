/**
 * The migration checksum: CRC-32 (section 8 of RFC 1952) over newline-normalized text, with a
 * 256-entry table. Words are `bv32`; the signed column value of the source has the same bits.
 */
module Checksum {
  import opened Iteration

  type Word = bv32
  type Octet = bv8

  const POLYNOMIAL: Word := 0xedb8_8320
  const ALL_ONES: Word := 0xffff_ffff

  function Xor(x: Word, y: Word): Word { x ^ y }

  function Half(x: Word): Word { x >> 1 }

  predicate Odd(x: Word) { x & 1 != 0 }

  // ---- Bit-at-a-time reference ----

  /** Mix the polynomial in when a one is shifted out. */
  function Reduce(one: bool, x: Word): Word {
    if one then Xor(POLYNOMIAL, x) else x
  }

  /** Feed one message bit into the reflected register. */
  function FeedBit(c: Word, bit: bool): Word {
    Reduce(Odd(c) != bit, Half(c))
  }

  /** The bits of an octet in transmission order, least significant first. */
  function Bits(b: Octet): seq<bool> {
    Unfold(Odd, Half, b as Word, 8)
  }

  function FeedOctet(c: Word, b: Octet): Word {
    Fold(FeedBit, c, Bits(b))
  }

  function Crc32(bytes: seq<Octet>): Word {
    Xor(Fold(FeedOctet, ALL_ONES, bytes), ALL_ONES)
  }

  // ---- The register with the message already mixed in ----

  /** One round of the inner loop that fills the table. */
  function Step(c: Word): Word {
    Reduce(Odd(c), Half(c))
  }

  function Steps(c: Word, n: nat): Word {
    Iterate(Step, c, n)
  }

  lemma HalfOfXor(x: Word, y: Word)
    ensures Half(Xor(x, y)) == Xor(Half(x), Half(y)) && (Odd(Xor(x, y)) <==> Odd(x) != Odd(y))
  {}

  lemma XorRegroups(c: Word, x: Word, y: Word)
    ensures Xor(Xor(c, x), y) == Xor(c, Xor(x, y))
    ensures Xor(c, x) == Xor(x, c)
  {}

  lemma XorCancels(p: Word, x: Word, y: Word)
    ensures Xor(Xor(p, x), Xor(p, y)) == Xor(x, y)
  {}

  lemma XorSwaps(p: Word, x: Word, y: Word)
    ensures Xor(x, Xor(p, y)) == Xor(p, Xor(x, y))
  {
    XorRegroups(x, p, y);
    XorRegroups(p, x, y);
  }

  lemma ReduceIsLinear(a: bool, b: bool, x: Word, y: Word)
    ensures Reduce(a != b, Xor(x, y)) == Xor(Reduce(a, x), Reduce(b, y))
  {
    if a && b {
      XorCancels(POLYNOMIAL, x, y);
    } else if a {
      XorRegroups(POLYNOMIAL, x, y);
    } else if b {
      XorSwaps(POLYNOMIAL, x, y);
    }
  }

  lemma StepIsLinear(x: Word, y: Word)
    ensures Step(Xor(x, y)) == Xor(Step(x), Step(y))
  {
    HalfOfXor(x, y);
    ReduceIsLinear(Odd(x), Odd(y), Half(x), Half(y));
  }

  lemma StepDistributes()
    ensures Distributes(Step, Xor)
  {
    forall a, b
      ensures Step(Xor(a, b)) == Xor(Step(a), Step(b))
    {
      StepIsLinear(a, b);
    }
  }

  lemma StepsAreLinear(x: Word, y: Word, n: nat)
    ensures Steps(Xor(x, y), n) == Xor(Steps(x, n), Steps(y, n))
  {
    StepDistributes();
    IterateDistributes(Step, Xor, x, y, n);
  }

  /** Mixing a bit in before the round is feeding it during the round. */
  lemma StepIsFeedBit(c: Word, x: Word)
    ensures Step(Xor(c, x)) == Xor(FeedBit(c, Odd(x)), Half(x))
  {
    HalfOfXor(c, x);
    ReduceIsLinear(Odd(c) != Odd(x), false, Half(c), Half(x));
  }

  lemma EightHalves(x: Word)
    ensures Half(Half(Half(Half(Half(Half(Half(Half(x)))))))) == x >> 8
    ensures x <= 0xff ==> x >> 8 == 0
  {}

  lemma OctetShiftsOut(b: Octet)
    ensures Iterate(Half, b as Word, 8) == 0
  {
    EightHalves(b as Word);
  }

  lemma XorZero(x: Word)
    ensures Xor(x, 0) == x
  {}

  lemma StepMixes()
    ensures Mixes(Step, Xor, FeedBit, Odd, Half)
  {
    forall a, y
      ensures Step(Xor(a, y)) == Xor(FeedBit(a, Odd(y)), Half(y))
    {
      StepIsFeedBit(a, y);
    }
  }

  lemma FeedBitsAreSteps(c: Word, x: Word, n: nat)
    ensures Steps(Xor(c, x), n) == Xor(Fold(FeedBit, c, Unfold(Odd, Half, x, n)), Iterate(Half, x, n))
  {
    StepMixes();
    MixedInFirst(Step, Xor, FeedBit, Odd, Half, c, x, n);
  }

  lemma FeedOctetIsSteps(c: Word, b: Octet)
    ensures FeedOctet(c, b) == Steps(Xor(c, b as Word), 8)
  {
    FeedBitsAreSteps(c, b as Word, 8);
    OctetShiftsOut(b);
    XorZero(FeedOctet(c, b));
  }

  // ---- The table ----

  lemma EvenStep(x: Word)
    requires !Odd(x)
    ensures Step(x) == Half(x)
  {}

  /** How many low zero bits a word has, at least. */
  ghost predicate LowZeros(x: Word, n: nat)
    decreases n
  {
    n == 0 || (!Odd(x) && LowZeros(Half(x), n - 1))
  }

  lemma {:induction false} EvenSteps(x: Word, n: nat)
    requires LowZeros(x, n)
    ensures AgreeAlong(Step, Half, x, n)
    decreases n
  {
    if n > 0 {
      EvenStep(x);
      EvenSteps(Half(x), n - 1);
    }
  }

  lemma HighBytesShift(x: Word)
    requires x & 0xff == 0
    ensures Steps(x, 8) == x >> 8
  {
    assert LowZeros(x, 8);
    HighBytesShiftBy(x, 8);
    EightHalves(x);
  }

  lemma HighBytesShiftBy(x: Word, n: nat)
    requires LowZeros(x, n)
    ensures Steps(x, n) == Iterate(Half, x, n)
  {
    EvenSteps(x, n);
    IterateAgrees(Step, Half, x, n);
  }

  lemma SplitWord(x: Word)
    ensures Xor(x & 0xffff_ff00, x & 0xff) == x
    ensures (x & 0xffff_ff00) & 0xff == 0
  {}

  lemma HighBytes(c: Word, b: Octet)
    ensures (Xor(c, b as Word) & 0xffff_ff00) >> 8 == c >> 8
  {}

  /** A table lookup does the work of eight rounds. */
  lemma TableRound(c: Word, b: Octet, entry: Word)
    requires entry == Steps(Xor(c, b as Word) & 0xff, 8)
    ensures Xor(c >> 8, entry) == FeedOctet(c, b)
  {
    var x := Xor(c, b as Word);
    SplitWord(x);
    HighBytesShift(x & 0xffff_ff00);
    HighBytes(c, b);
    FeedOctetIsSteps(c, b);
    RoundByParts(x & 0xffff_ff00, x & 0xff, x, c >> 8, entry, 8);
  }

  lemma RoundByParts(high: Word, low: Word, x: Word, shifted: Word, entry: Word, n: nat)
    requires Xor(high, low) == x && Steps(high, n) == shifted && entry == Steps(low, n)
    ensures Xor(shifted, entry) == Steps(x, n)
  {
    StepsAreLinear(high, low, n);
  }

  lemma IndexRoundTrip(index: Word)
    ensures (index as int) as Word == index
    ensures (index & 0xff) as int < 256
  {}

  ghost predicate IsTable(table: seq<Word>) {
    |table| == 256 && forall n :: 0 <= n < 256 ==> table[n] == Steps(n as Word, 8)
  }

  method Lookup(table: array<Word>, index: Word) returns (entry: Word)
    requires IsTable(table[..]) && index <= 0xff
    ensures entry == Steps(index, 8)
  {
    IndexRoundTrip(index);
    entry := table[index as int];
    assert entry == table[..][index as int];
  }

  lemma NextRound(c: Word, n: nat)
    ensures Steps(c, n + 1) == Steps(Reduce(Odd(c), Half(c)), n)
  {}

  method TableEntry(n: Word, rounds: nat) returns (c: Word)
    ensures c == Steps(n, rounds)
  {
    c := n;
    for k := 0 to rounds
      invariant Steps(c, rounds - k) == Steps(n, rounds)
    {
      NextRound(c, rounds - k - 1);
      c := Reduce(Odd(c), Half(c));
    }
  }

  method FillTable(rounds: nat) returns (table: array<Word>)
    ensures fresh(table) && table.Length == 256
    ensures forall n :: 0 <= n < 256 ==> table[n] == Steps(n as Word, rounds)
  {
    table := new Word[256];
    for n := 0 to 256
      invariant forall m :: 0 <= m < n ==> table[m] == Steps(m as Word, rounds)
    {
      table[n] := TableEntry(n as Word, rounds);
    }
  }

  method BuildTable() returns (table: array<Word>)
    ensures fresh(table) && IsTable(table[..])
  {
    table := FillTable(8);
  }

  method ComputeCrc(table: array<Word>, bytes: seq<Octet>) returns (checksum: Word)
    requires IsTable(table[..])
    ensures checksum == Crc32(bytes)
  {
    var crc := ALL_ONES;
    assert bytes[0..] == bytes;
    for i := 0 to |bytes|
      invariant Fold(FeedOctet, crc, bytes[i..]) == Fold(FeedOctet, ALL_ONES, bytes)
    {
      var entry := Lookup(table, Xor(crc, bytes[i] as Word) & 0xff);
      TableRound(crc, bytes[i], entry);
      FoldNext(FeedOctet, crc, bytes, i);
      crc := Xor(crc >> 8, entry);
    }
    checksum := Xor(crc, ALL_ONES);
  }

  // ---- What the checksum detects ----

  lemma StepInjective(x: Word, y: Word)
    requires Step(x) == Step(y)
    ensures x == y
  {}

  lemma StepsInjective(x: Word, y: Word, n: nat)
    requires Steps(x, n) == Steps(y, n)
    ensures x == y
  {
    forall a, b | Step(a) == Step(b)
      ensures a == b
    {
      StepInjective(a, b);
    }
    assert Injective(Step);
    IterateInjective(Step, x, y, n);
  }

  lemma XorInjective(c: Word, x: Word, y: Word)
    requires Xor(c, x) == Xor(c, y)
    ensures x == y
  {}

  lemma FeedOctetKeepsApart()
    ensures KeepsApart(FeedOctet)
  {
    forall a, b, s | FeedOctet(a, s) == FeedOctet(b, s)
      ensures a == b
    {
      FeedOctetInjective(a, b, s);
    }
  }

  lemma FeedOctetInjective(a: Word, b: Word, s: Octet)
    requires FeedOctet(a, s) == FeedOctet(b, s)
    ensures a == b
  {
    var x := s as Word;
    FeedOctetIsSteps(a, s);
    FeedOctetIsSteps(b, s);
    StepsInjective(Xor(a, x), Xor(b, x), 8);
    XorRegroups(a, x, 0);
    XorRegroups(b, x, 0);
    XorInjective(x, a, b);
  }

  /** Make room below `w` and put an octet there. */
  function Push(b: Octet, w: Word): Word {
    Xor(b as Word, w << 8)
  }

  /** Up to four octets as one word, the first in the low byte. */
  function LittleEndian(bytes: seq<Octet>): Word
    decreases |bytes|
  {
    if bytes == [] then 0 else Push(bytes[0], LittleEndian(bytes[1..]))
  }

  /** The words that `n` octets can spell, for `n` up to three. */
  ghost predicate Fits(w: Word, n: nat) {
    && (n == 0 ==> w == 0)
    && (n <= 1 ==> w <= 0xff)
    && (n <= 2 ==> w <= 0xffff)
    && w <= 0xff_ffff
  }

  lemma PushFits(b: Octet, w: Word, n: nat)
    requires n <= 2 && Fits(w, n)
    ensures Fits(Push(b, w), n + 1)
  {
    if n == 0 {
      PushZero(b as Word);
    } else if n == 1 {
      PushOne(b as Word, w);
    } else {
      PushTwo(b as Word, w);
    }
  }

  lemma PushZero(x: Word)
    requires x <= 0xff
    ensures Xor(x, 0 << 8) <= 0xff
  {}

  lemma PushOne(x: Word, w: Word)
    requires x <= 0xff && w <= 0xff
    ensures Xor(x, w << 8) <= 0xffff
  {}

  lemma PushTwo(x: Word, w: Word)
    requires x <= 0xff && w <= 0xffff
    ensures Xor(x, w << 8) <= 0xff_ffff
  {}

  lemma {:induction false} LittleEndianFits(bytes: seq<Octet>)
    requires |bytes| <= 3
    ensures Fits(LittleEndian(bytes), |bytes|)
    decreases |bytes|
  {
    if bytes != [] {
      LittleEndianFits(bytes[1..]);
      PushFits(bytes[0], LittleEndian(bytes[1..]), |bytes| - 1);
    }
  }

  lemma ShiftBack(w: Word)
    requires w <= 0xff_ffff
    ensures (w << 8) & 0xff == 0 && (w << 8) >> 8 == w
  {}

  lemma PopLow(x: Word, w: Word)
    requires x <= 0xff
    ensures Xor(x, w << 8) & 0xff == x
  {}

  lemma PopHigh(x: Word, w: Word)
    requires x <= 0xff && w <= 0xff_ffff
    ensures Xor(x, w << 8) >> 8 == w
  {}

  lemma PushInjective(a: Octet, v: Word, b: Octet, w: Word)
    requires Fits(v, 3) && Fits(w, 3) && Push(a, v) == Push(b, w)
    ensures a == b && v == w
  {
    PopLow(a as Word, v);
    PopLow(b as Word, w);
    PopHigh(a as Word, v);
    PopHigh(b as Word, w);
    SameOctet(a, b);
  }

  lemma SameOctet(a: Octet, b: Octet)
    requires a as Word == b as Word
    ensures a == b
  {}

  lemma {:induction false} LittleEndianInjective(a: seq<Octet>, b: seq<Octet>)
    requires |a| == |b| <= 4 && LittleEndian(a) == LittleEndian(b)
    ensures a == b
    decreases |a|
  {
    if a != [] {
      LittleEndianFits(a[1..]);
      LittleEndianFits(b[1..]);
      PushInjective(a[0], LittleEndian(a[1..]), b[0], LittleEndian(b[1..]));
      LittleEndianInjective(a[1..], b[1..]);
      assert a == [a[0]] + a[1..] && b == [b[0]] + b[1..];
    }
  }

  /** Feeding up to four octets is mixing them all in and then running the rounds. */
  lemma {:induction false} FeedIsSteps(c: Word, bytes: seq<Octet>, width: nat)
    requires |bytes| <= 4 && width == 8
    ensures Fold(FeedOctet, c, bytes) == Steps(Xor(c, LittleEndian(bytes)), width * |bytes|)
    decreases |bytes|
  {
    if bytes == [] {
      XorZero(c);
    } else {
      var w := LittleEndian(bytes[1..]);
      var fed := FeedOctet(c, bytes[0]);
      FeedIsSteps(fed, bytes[1..], width);
      LittleEndianFits(bytes[1..]);
      PushThenStep(c, bytes[0], w, fed, width);
      IterateSum(Step, Xor(c, LittleEndian(bytes)), width, width * |bytes[1..]|);
    }
  }

  lemma PushThenStep(c: Word, b: Octet, w: Word, fed: Word, width: nat)
    requires Fits(w, 3) && fed == FeedOctet(c, b) && width == 8
    ensures Steps(Xor(c, Push(b, w)), width) == Xor(fed, w)
  {
    FeedOctetIsSteps(c, b);
    ShiftBack(w);
    HighBytesShift(w << 8);
    MixWord(c, b as Word, w << 8, w, fed, width);
  }

  lemma MixWord(c: Word, x: Word, shifted: Word, w: Word, fed: Word, n: nat)
    requires Steps(Xor(c, x), n) == fed && Steps(shifted, n) == w
    ensures Steps(Xor(c, Xor(x, shifted)), n) == Xor(fed, w)
  {
    StepsAreLinear(Xor(c, x), shifted, n);
    XorRegroups(c, x, shifted);
  }

  /**
   * Two texts of bytes that differ, but only within four consecutive bytes, have different
   * checksums.
   */
  lemma BurstIsDetected(prefix: seq<Octet>, a: seq<Octet>, b: seq<Octet>, suffix: seq<Octet>)
    requires |a| == |b| <= 4 && a != b
    ensures Crc32(prefix + a + suffix) != Crc32(prefix + b + suffix)
  {
    var c := Fold(FeedOctet, ALL_ONES, prefix);
    var x, y := Fold(FeedOctet, c, a), Fold(FeedOctet, c, b);
    FoldConcat(FeedOctet, ALL_ONES, prefix + a, suffix);
    FoldConcat(FeedOctet, ALL_ONES, prefix + b, suffix);
    FoldConcat(FeedOctet, ALL_ONES, prefix, a);
    FoldConcat(FeedOctet, ALL_ONES, prefix, b);
    if Crc32(prefix + a + suffix) == Crc32(prefix + b + suffix) {
      CrcSeparates(x, y, suffix);
      FeedSeparates(c, a, b);
    }
  }

  lemma CrcSeparates(x: Word, y: Word, suffix: seq<Octet>)
    requires Xor(Fold(FeedOctet, x, suffix), ALL_ONES) == Xor(Fold(FeedOctet, y, suffix), ALL_ONES)
    ensures x == y
  {
    var u, v := Fold(FeedOctet, x, suffix), Fold(FeedOctet, y, suffix);
    XorRegroups(u, ALL_ONES, 0);
    XorRegroups(v, ALL_ONES, 0);
    XorInjective(ALL_ONES, u, v);
    FeedOctetKeepsApart();
    FoldInjective(FeedOctet, x, y, suffix);
  }

  lemma FeedSeparates(c: Word, a: seq<Octet>, b: seq<Octet>)
    requires |a| == |b| <= 4 && Fold(FeedOctet, c, a) == Fold(FeedOctet, c, b)
    ensures a == b
  {
    FeedIsSteps(c, a, 8);
    FeedIsSteps(c, b, 8);
    StepsInjective(Xor(c, LittleEndian(a)), Xor(c, LittleEndian(b)), 8 * |a|);
    XorInjective(c, LittleEndian(a), LittleEndian(b));
    LittleEndianInjective(a, b);
  }

  // ---- One line feed and two ----

  lemma LineFeedBits()
    ensures Bits(10) == [false, true, false, true, false, false, false, false]
  {}

  lemma FirstLineFeed()
    ensures FeedOctet(ALL_ONES, 10) == 0xcd28_f96c
  {
    LineFeedBits();
  }

  lemma SecondLineFeed()
    ensures FeedOctet(0xcd28_f96c, 10) == 0xa41c_ec94
  {
    LineFeedBits();
  }

  /** The values other implementations give: of nothing, of one line feed and of two. */
  lemma KnownChecksums()
    ensures Crc32([]) == 0 && Crc32([10]) == 0x32d7_0693 && Crc32([10, 10]) == 0x5be3_136b
  {
    FirstLineFeed();
    SecondLineFeed();
    FoldConcat(FeedOctet, ALL_ONES, [10], [10]);
    assert [10] + [10] == [10, 10];
    assert Fold(FeedOctet, ALL_ONES, [10]) == 0xcd28_f96c && Fold(FeedOctet, 0xcd28_f96c, [10]) == 0xa41c_ec94;
    assert Fold(FeedOctet, ALL_ONES, []) == ALL_ONES;
  }
}
