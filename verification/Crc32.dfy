/** CRC-32: the table-driven loop computes the checksum of section 8 of RFC 1952, which feeds the
    message bit by bit through a shift register, and it detects every burst of at most 32 bits. */
module Crc32 {
  // ---- the specification: one bit at a time, low bit of each byte first ----

  function FeedBit(crc: bv32, bit: bool): bv32 {
    if (crc & 1 != 0) != bit then (crc >> 1) ^ 0xEDB88320 else crc >> 1
  }

  function FeedBits(crc: bv32, bits: seq<bool>): bv32
    decreases |bits|
  {
    if bits == [] then crc else FeedBits(FeedBit(crc, bits[0]), bits[1..])
  }

  function Bits(b: bv8): seq<bool> {
    [b & 1 != 0, b & 2 != 0, b & 4 != 0, b & 8 != 0, b & 16 != 0, b & 32 != 0, b & 64 != 0, b & 128 != 0]
  }

  function MessageBits(bytes: seq<bv8>): (bits: seq<bool>)
    ensures |bits| == 8 * |bytes|
  {
    if bytes == [] then [] else Bits(bytes[0]) + MessageBits(bytes[1..])
  }

  function Inverted(crc: bv32): bv32 {
    crc ^ 0xFFFFFFFF
  }

  function Checksum(bytes: seq<bv8>): bv32 {
    Inverted(FeedBits(0xFFFFFFFF, MessageBits(bytes)))
  }

  // ---- one step of the register without input ----

  function Step(c: bv32): bv32 {
    if c & 1 != 0 then 0xEDB88320 ^ (c >> 1) else c >> 1
  }

  function Steps(c: bv32, n: nat): bv32
    decreases n
  {
    if n == 0 then c else Step(Steps(c, n - 1))
  }

  /** d is c one step later; the same relation read from either side. */
  ghost predicate Later(c: bv32, d: bv32) {
    d == if c & 1 != 0 then 0xEDB88320 ^ (c >> 1) else c >> 1
  }

  lemma StepLater(c: bv32, d: bv32)
    ensures Later(c, d) <==> d == Step(c)
  {}

  function Xor(x: bv32, y: bv32): bv32 {
    x ^ y
  }

  lemma LaterEven(x: bv32, y: bv32, a: bv32, b: bv32)
    requires Later(x, a) && Later(y, b) && x & 1 == 0 && y & 1 == 0
    ensures Later(x ^ y, a ^ b)
  {}

  lemma LaterMixed(x: bv32, y: bv32, a: bv32, b: bv32)
    requires Later(x, a) && Later(y, b) && x & 1 != 0 && y & 1 == 0
    ensures Later(x ^ y, a ^ b) && Later(y ^ x, b ^ a)
  {}

  lemma LaterOdd(x: bv32, y: bv32, a: bv32, b: bv32)
    requires Later(x, a) && Later(y, b) && x & 1 != 0 && y & 1 != 0
    ensures Later(x ^ y, a ^ b)
  {}

  lemma LaterLinear(x: bv32, y: bv32, a: bv32, b: bv32)
    requires Later(x, a) && Later(y, b)
    ensures Later(Xor(x, y), Xor(a, b))
  {
    hide Later;
    if x & 1 == 0 {
      if y & 1 == 0 { LaterEven(x, y, a, b); } else { LaterMixed(y, x, b, a); }
    } else {
      if y & 1 == 0 { LaterMixed(x, y, a, b); } else { LaterOdd(x, y, a, b); }
    }
  }

  lemma StepLinear(x: bv32, y: bv32)
    ensures Step(Xor(x, y)) == Xor(Step(x), Step(y))
  {
    hide Step, Xor, Later;
    StepLater(x, Step(x));
    StepLater(y, Step(y));
    LaterLinear(x, y, Step(x), Step(y));
    StepLater(Xor(x, y), Xor(Step(x), Step(y)));
  }

  lemma {:induction false} StepsLinear(x: bv32, y: bv32, n: nat)
    ensures Steps(Xor(x, y), n) == Xor(Steps(x, n), Steps(y, n))
  {
    hide Step, Xor;
    if n > 0 {
      StepsLinear(x, y, n - 1);
      StepLinear(Steps(x, n - 1), Steps(y, n - 1));
    }
  }

  /** The register one step earlier. */
  function Unstep(c: bv32): bv32 {
    if c & 0x80000000 != 0 then ((c ^ 0xEDB88320) << 1) | 1 else c << 1
  }

  ghost predicate Earlier(d: bv32, c: bv32) {
    c == if d & 0x80000000 != 0 then ((d ^ 0xEDB88320) << 1) | 1 else d << 1
  }

  lemma UnstepEarlier(d: bv32, c: bv32)
    ensures Earlier(d, c) <==> c == Unstep(d)
  {}

  lemma LaterEarlier(c: bv32, d: bv32)
    requires Later(c, d)
    ensures Earlier(d, c)
  {}

  lemma EarlierLaterHigh(c: bv32, d: bv32)
    requires Earlier(d, c) && d & 0x80000000 != 0
    ensures Later(c, d)
  {}

  lemma EarlierLaterLow(c: bv32, d: bv32)
    requires Earlier(d, c) && d & 0x80000000 == 0
    ensures Later(c, d)
  {}

  /** Steps lose nothing: the register before a step can be found again. */
  lemma StepBijective(c: bv32)
    ensures Unstep(Step(c)) == c && Step(Unstep(c)) == c
  {
    hide Step, Unstep, Later, Earlier;
    StepLater(c, Step(c));
    LaterEarlier(c, Step(c));
    UnstepEarlier(Step(c), c);
    UnstepEarlier(c, Unstep(c));
    if c & 0x80000000 == 0 { EarlierLaterLow(Unstep(c), c); } else { EarlierLaterHigh(Unstep(c), c); }
    StepLater(Unstep(c), c);
  }

  lemma {:induction false} StepsAdd(c: bv32, m: nat, n: nat)
    ensures Steps(c, m + n) == Steps(Steps(c, m), n)
    decreases n
  {
    if n > 0 {
      StepsAdd(c, m, n - 1);
    }
  }

  /** Zero bits are shifted out one after the other. */
  lemma ZeroBits(c: bv32)
    requires c & 0xFF == 0
    ensures c & 1 == 0 && (c >> 1) & 1 == 0 && (c >> 2) & 1 == 0 && (c >> 3) & 1 == 0
    ensures (c >> 4) & 1 == 0 && (c >> 5) & 1 == 0 && (c >> 6) & 1 == 0 && (c >> 7) & 1 == 0
    ensures (c >> 1) >> 1 == c >> 2 && (c >> 2) >> 1 == c >> 3 && (c >> 3) >> 1 == c >> 4 && (c >> 4) >> 1 == c >> 5
    ensures (c >> 5) >> 1 == c >> 6 && (c >> 6) >> 1 == c >> 7 && (c >> 7) >> 1 == c >> 8
  {}

  lemma ShiftedOut(c: bv32)
    requires c & 0xFF == 0
    ensures Steps(c, 8) == c >> 8
  {
    ZeroBits(c);
    assert Steps(c, 0) == c;
    assert Steps(c, 1) == c >> 1;
    assert Steps(c, 2) == c >> 2;
    assert Steps(c, 3) == c >> 3;
    assert Steps(c, 4) == c >> 4;
    assert Steps(c, 5) == c >> 5;
    assert Steps(c, 6) == c >> 6;
    assert Steps(c, 7) == c >> 7;
  }

  // ---- feeding a byte is eight steps of the register mixed with it ----

  function Feed(crc: bv32, b: bv8): bv32 {
    Steps(Xor(crc, b as bv32), 8)
  }

  function FeedAll(crc: bv32, bytes: seq<bv8>): bv32
    decreases |bytes|
  {
    if bytes == [] then crc else FeedAll(Feed(crc, bytes[0]), bytes[1..])
  }

  lemma MixOdd(crc: bv32)
    requires crc & 1 != 0
    ensures (crc ^ 1) & 1 == 0 && (crc ^ 1) >> 1 == crc >> 1 && (crc >> 1) ^ 0xEDB88320 == 0xEDB88320 ^ (crc >> 1)
  {}

  lemma MixEven(crc: bv32)
    requires crc & 1 == 0
    ensures (crc ^ 1) & 1 != 0 && (crc >> 1) ^ 0xEDB88320 == 0xEDB88320 ^ ((crc ^ 1) >> 1)
  {}

  lemma FeedBitIsStep(crc: bv32, bit: bool)
    ensures FeedBit(crc, bit) == if bit then Step(Xor(crc, 1)) else Step(crc)
  {
    if crc & 1 == 0 { MixEven(crc); } else { MixOdd(crc); }
  }

  lemma XorAssociative(x: bv32, y: bv32, z: bv32)
    ensures Xor(Xor(x, y), z) == Xor(x, Xor(y, z)) && Xor(x, 0) == x && Xor(0, x) == x
  {}

  lemma XorCommutes(x: bv32, y: bv32)
    ensures Xor(x, y) == Xor(y, x) && Xor(x, x) == 0
  {}

  function Half(x: bv32): bv32 {
    x >> 1
  }

  function LowBit(x: bv32): bool {
    x & 1 != 0
  }

  /** The low n bits, lowest first. */
  function LowBits(x: bv32, n: nat): seq<bool>
    decreases n
  {
    if n == 0 then [] else [LowBit(x)] + LowBits(Half(x), n - 1)
  }

  function Halved(x: bv32, n: nat): bv32
    decreases n
  {
    if n == 0 then x else Halved(Half(x), n - 1)
  }

  /** A register is its low bit, and the rest moved up one place. */
  lemma SplitBit(x: bv32)
    ensures var rest := x & 0xFFFFFFFE; x == (if LowBit(x) then 1 ^ rest else rest) && Step(rest) == Half(x)
  {}

  /** Mixing in a register and stepping is feeding its low bit, with the rest mixed in after it. */
  lemma PeelBit(c: bv32, x: bv32)
    ensures Step(Xor(c, x)) == Xor(FeedBit(c, LowBit(x)), Half(x))
  {
    var rest := x & 0xFFFFFFFE;
    SplitBit(x);
    FeedBitIsStep(c, LowBit(x));
    assert LowBit(x) ==> x == Xor(1, rest);
    hide Step, Xor, FeedBit, LowBit, Half;
    XorAssociative(c, 1, rest);
    StepLinear(Xor(c, 1), rest);
    StepLinear(c, rest);
  }

  lemma StepsFirst(c: bv32, n: nat)
    ensures Steps(c, n + 1) == Steps(Step(c), n)
  {
    hide Step;
    assert Steps(c, 1) == Step(Steps(c, 0));
    StepsAdd(c, 1, n);
  }

  lemma {:induction false} FeedLowBits(c: bv32, x: bv32, n: nat)
    ensures Steps(Xor(c, x), n) == Xor(FeedBits(c, LowBits(x, n)), Halved(x, n))
    decreases n
  {
    hide Step, Xor, FeedBit, LowBit, Half;
    if n > 0 {
      var bits := LowBits(x, n);
      assert bits[0] == LowBit(x) && bits[1..] == LowBits(Half(x), n - 1);
      StepsFirst(Xor(c, x), n - 1);
      PeelBit(c, x);
      FeedLowBits(FeedBit(c, LowBit(x)), Half(x), n - 1);
    }
  }

  lemma ByteBits(b: bv8, x: bv32, x1: bv32, x2: bv32, x3: bv32, x4: bv32, x5: bv32, x6: bv32, x7: bv32)
    requires x == b as bv32 && x1 == Half(x) && x2 == Half(x1) && x3 == Half(x2) && x4 == Half(x3)
    requires x5 == Half(x4) && x6 == Half(x5) && x7 == Half(x6)
    ensures LowBit(x) == (b & 1 != 0) && LowBit(x1) == (b & 2 != 0) && LowBit(x2) == (b & 4 != 0)
    ensures LowBit(x3) == (b & 8 != 0) && LowBit(x4) == (b & 16 != 0) && LowBit(x5) == (b & 32 != 0)
    ensures LowBit(x6) == (b & 64 != 0) && LowBit(x7) == (b & 128 != 0) && Half(x7) == 0
  {}

  lemma LowBitsOne(x: bv32, y: bv32, n: nat)
    requires y == Half(x)
    ensures LowBits(x, n + 1) == [LowBit(x)] + LowBits(y, n) && Halved(x, n + 1) == Halved(y, n)
  {
    hide Half, LowBit;
  }

  lemma LowBitsFour(x: bv32, x1: bv32, x2: bv32, x3: bv32, x4: bv32, n: nat)
    requires x1 == Half(x) && x2 == Half(x1) && x3 == Half(x2) && x4 == Half(x3)
    ensures LowBits(x, n + 4) == [LowBit(x), LowBit(x1), LowBit(x2), LowBit(x3)] + LowBits(x4, n)
    ensures Halved(x, n + 4) == Halved(x4, n)
  {
    hide LowBits, Halved, LowBit, Half;
    LowBitsOne(x, x1, n + 3);
    LowBitsOne(x1, x2, n + 2);
    LowBitsOne(x2, x3, n + 1);
    LowBitsOne(x3, x4, n);
  }

  lemma LowBitsEight(x: bv32, x1: bv32, x2: bv32, x3: bv32, x4: bv32, x5: bv32, x6: bv32, x7: bv32, x8: bv32)
    requires x1 == Half(x) && x2 == Half(x1) && x3 == Half(x2) && x4 == Half(x3)
    requires x5 == Half(x4) && x6 == Half(x5) && x7 == Half(x6) && x8 == Half(x7)
    ensures LowBits(x, 8) ==
      [LowBit(x), LowBit(x1), LowBit(x2), LowBit(x3), LowBit(x4), LowBit(x5), LowBit(x6), LowBit(x7)]
    ensures Halved(x, 8) == x8
  {
    hide LowBits, Halved, LowBit, Half;
    LowBitsFour(x, x1, x2, x3, x4, 4);
    LowBitsFour(x4, x5, x6, x7, x8, 0);
    LowBitsNone(x8);
    Joined(LowBit(x), LowBit(x1), LowBit(x2), LowBit(x3), LowBit(x4), LowBit(x5), LowBit(x6), LowBit(x7));
  }

  lemma Joined(b0: bool, b1: bool, b2: bool, b3: bool, b4: bool, b5: bool, b6: bool, b7: bool)
    ensures [b0, b1, b2, b3] + ([b4, b5, b6, b7] + []) == [b0, b1, b2, b3, b4, b5, b6, b7]
  {}

  lemma BitsAre(b: bv8, b0: bool, b1: bool, b2: bool, b3: bool, b4: bool, b5: bool, b6: bool, b7: bool)
    requires b0 == (b & 1 != 0) && b1 == (b & 2 != 0) && b2 == (b & 4 != 0) && b3 == (b & 8 != 0)
    requires b4 == (b & 16 != 0) && b5 == (b & 32 != 0) && b6 == (b & 64 != 0) && b7 == (b & 128 != 0)
    ensures Bits(b) == [b0, b1, b2, b3, b4, b5, b6, b7]
  {}

  lemma LowBitsByte(b: bv8, x: bv32)
    requires x == b as bv32
    ensures LowBits(x, 8) == Bits(b) && Halved(x, 8) == 0
  {
    hide LowBits, Halved, LowBit, Half, Bits;
    var x1 := Half(x);
    var x2 := Half(x1);
    var x3 := Half(x2);
    var x4 := Half(x3);
    var x5 := Half(x4);
    var x6 := Half(x5);
    var x7 := Half(x6);
    ByteBits(b, x, x1, x2, x3, x4, x5, x6, x7);
    LowBitsEight(x, x1, x2, x3, x4, x5, x6, x7, Half(x7));
    BitsAre(b, LowBit(x), LowBit(x1), LowBit(x2), LowBit(x3), LowBit(x4), LowBit(x5), LowBit(x6), LowBit(x7));
  }

  lemma LowBitsNone(x: bv32)
    ensures LowBits(x, 0) == [] && Halved(x, 0) == x
  {}

  /** Feeding the eight bits of a byte is mixing it in and stepping eight times. */
  lemma FeedByte(c: bv32, b: bv8)
    ensures FeedBits(c, Bits(b)) == Feed(c, b)
  {
    var x := b as bv32;
    LowBitsByte(b, x);
    hide Bits, Xor, Step, Steps, FeedBit, FeedBits, LowBits, Halved;
    FeedLowBits(c, x, 8);
    XorAssociative(FeedBits(c, Bits(b)), 0, 0);
  }

  lemma {:induction false} FeedBitsAppend(c: bv32, xs: seq<bool>, ys: seq<bool>)
    ensures FeedBits(c, xs + ys) == FeedBits(FeedBits(c, xs), ys)
    decreases |xs|
  {
    hide FeedBit;
    if xs == [] {
      assert xs + ys == ys;
    } else {
      assert (xs + ys)[1..] == xs[1..] + ys;
      FeedBitsAppend(FeedBit(c, xs[0]), xs[1..], ys);
    }
  }

  /** Byte by byte is the same as bit by bit, for messages of every length. */
  lemma {:induction false} FeedAllIsBits(c: bv32, bytes: seq<bv8>)
    ensures FeedAll(c, bytes) == FeedBits(c, MessageBits(bytes))
    decreases |bytes|
  {
    hide FeedBit, Bits, Feed;
    if bytes != [] {
      FeedBitsAppend(c, Bits(bytes[0]), MessageBits(bytes[1..]));
      FeedByte(c, bytes[0]);
      FeedAllIsBits(Feed(c, bytes[0]), bytes[1..]);
    }
  }

  // ---- the table ----

  lemma SplitLow(crc: bv32, b: bv8)
    ensures crc ^ (b as bv32) == (crc & 0xFFFFFF00) ^ ((crc & 0xFF) ^ (b as bv32))
    ensures (crc & 0xFFFFFF00) & 0xFF == 0 && (crc & 0xFFFFFF00) >> 8 == crc >> 8
  {}

  function High(crc: bv32): bv32 {
    crc & 0xFFFFFF00
  }

  function Low(crc: bv32, b: bv8): bv32 {
    (crc & 0xFF) ^ (b as bv32)
  }

  lemma SplitCrc(crc: bv32, b: bv8)
    ensures Xor(crc, b as bv32) == Xor(High(crc), Low(crc, b))
  {
    SplitLow(crc, b);
  }

  lemma HighShifted(crc: bv32, b: bv8)
    ensures Steps(High(crc), 8) == crc >> 8
  {
    SplitLow(crc, b);
    ShiftedOut(High(crc));
    hide Steps;
  }

  lemma LowSmall(crc: bv32, b: bv8)
    ensures Low(crc, b) < 256
  {}

  /** What the table holds for byte value i. */
  ghost predicate EntryOf(i: nat, entry: bv32)
    requires i < 256
  {
    entry == Steps(i as bv32, 8)
  }

  lemma EntryIs(i: nat, entry: bv32)
    requires i < 256 && entry == Steps(i as bv32, 8)
    ensures EntryOf(i, entry)
  {
    hide Steps;
  }

  lemma EntryAt(k: bv32, entry: bv32)
    requires k < 256 && 0 <= k as int < 256 && EntryOf(k as int, entry)
    ensures entry == Steps(k, 8)
  {
    ByteIndex(k);
    hide Steps;
  }

  lemma ByteIndex(k: bv32)
    requires k < 256
    ensures 0 <= k as int < 256 && (k as int) as bv32 == k
  {}

  function Combined(crc: bv32, entry: bv32): bv32 {
    (crc >> 8) ^ entry
  }

  lemma CombinedXor(crc: bv32, entry: bv32)
    ensures Combined(crc, entry) == Xor(crc >> 8, entry)
  {}

  /** One table lookup does eight steps. */
  lemma Lookup(crc: bv32, b: bv8)
    ensures Combined(crc, Steps(Low(crc, b), 8)) == Feed(crc, b)
  {
    hide Xor, Steps, Low, High, Combined;
    CombinedXor(crc, Steps(Low(crc, b), 8));
    SplitCrc(crc, b);
    StepsLinear(High(crc), Low(crc, b), 8);
    HighShifted(crc, b);
  }

  /** The inner loop of the table construction. */
  method EightSteps(start: bv32) returns (c: bv32)
    ensures c == Steps(start, 8)
  {
    hide Steps;
    c := start;
    var j := 0;
    StepsZero(start);
    while j < 8
      invariant 0 <= j <= 8 && c == Steps(start, j)
    {
      StepsOne(start, j);
      c := if c & 1 != 0 then 0xEDB88320 ^ (c >> 1) else c >> 1;
      j := j + 1;
    }
  }

  class Table {
    const entries: array<bv32>

    ghost predicate Valid()
      reads entries
    {
      entries.Length == 256 && forall i :: 0 <= i < 256 ==> EntryOf(i, entries[i])
    }

    /** Fills the table: eight steps for every byte value. */
    constructor ()
      ensures Valid() && fresh(entries)
    {
      entries := new bv32[256];
      new;
      hide Steps, EntryOf;
      var i := 0;
      while i < 256
        invariant 0 <= i <= 256 && fresh(entries) && forall k :: 0 <= k < i ==> EntryOf(k, entries[k])
        modifies entries
      {
        var c := EightSteps(i as bv32);
        EntryIs(i, c);
        entries[i] := c;
        i := i + 1;
      }
    }

    method Entry(k: bv32) returns (entry: bv32)
      requires Valid() && k < 256
      ensures entry == Steps(k, 8)
    {
      hide Steps, EntryOf;
      ByteIndex(k);
      entry := entries[k as int];
      EntryAt(k, entry);
    }

    method LookupByte(crc: bv32, b: bv8) returns (next: bv32)
      requires Valid()
      ensures next == Feed(crc, b)
    {
      hide *;
      LowSmall(crc, b);
      Lookup(crc, b);
      var entry := Entry(Low(crc, b));
      next := Combined(crc, entry);
    }

    /** The checksum of a message, one table lookup a byte. */
    method Crc32(bytes: seq<bv8>) returns (r: bv32)
      requires Valid()
      ensures r == Checksum(bytes)
    {
      hide Steps, FeedBit, Feed, FeedAll, FeedBits, MessageBits, Inverted;
      var crc, i := 0xFFFFFFFF as bv32, 0;
      FeedAllNone(crc, bytes);
      while i < |bytes|
        invariant 0 <= i <= |bytes| && FeedAll(crc, bytes[i..]) == FeedAll(0xFFFFFFFF, bytes)
      {
        FeedAllOne(crc, bytes, i);
        crc := LookupByte(crc, bytes[i]);
        i := i + 1;
      }
      FeedAllEnd(crc, bytes);
      FeedAllIsBits(0xFFFFFFFF, bytes);
      r := Inverted(crc);
    }
  }

  lemma StepsZero(c: bv32)
    ensures Steps(c, 0) == c
  {}

  lemma StepsNext(c: bv32, j: nat)
    ensures Steps(c, j + 1) == Step(Steps(c, j))
  {
    hide Step;
  }

  lemma StepsOne(c: bv32, j: nat)
    ensures Later(Steps(c, j), Steps(c, j + 1))
  {
    hide Step, Steps, Later;
    StepsNext(c, j);
    StepLater(Steps(c, j), Steps(c, j + 1));
  }

  lemma FeedAllNone(crc: bv32, bytes: seq<bv8>)
    ensures FeedAll(crc, bytes[0..]) == FeedAll(crc, bytes)
  {
    assert bytes[0..] == bytes;
  }

  lemma FeedAllOne(crc: bv32, bytes: seq<bv8>, i: nat)
    requires i < |bytes|
    ensures FeedAll(crc, bytes[i..]) == FeedAll(Feed(crc, bytes[i]), bytes[i + 1..])
  {
    assert bytes[i..][1..] == bytes[i + 1..];
  }

  lemma FeedAllEnd(crc: bv32, bytes: seq<bv8>)
    ensures FeedAll(crc, bytes[|bytes|..]) == crc
  {}

  // ---- error detection ----

  lemma FeedBitLinear(c: bv32, d: bv32, a: bool, b: bool)
    ensures FeedBit(Xor(c, d), a != b) == Xor(FeedBit(c, a), FeedBit(d, b))
  {
    FeedBitIsStep(c, a);
    FeedBitIsStep(d, b);
    FeedBitIsStep(Xor(c, d), a != b);
    hide Step, FeedBit;
    StepLinear(if a then Xor(c, 1) else c, if b then Xor(d, 1) else d);
    MixTwo(c, d);
  }

  lemma MixTwo(c: bv32, d: bv32)
    ensures Xor(Xor(c, 1), d) == Xor(Xor(c, d), 1) && Xor(c, Xor(d, 1)) == Xor(Xor(c, d), 1)
    ensures Xor(Xor(c, 1), Xor(d, 1)) == Xor(c, d)
  {
    hide Xor;
    XorAssociative(c, 1, d);
    XorCommutes(1, d);
    XorAssociative(c, d, 1);
    XorAssociative(Xor(c, 1), d, 1);
    XorAssociative(Xor(c, d), 1, 1);
    XorCommutes(1, 1);
    XorAssociative(Xor(c, d), 0, 0);
  }

  /** Where two sequences of bits differ. */
  function Differences(xs: seq<bool>, ys: seq<bool>): seq<bool>
    requires |xs| == |ys|
  {
    seq(|xs|, i requires 0 <= i < |xs| => xs[i] != ys[i])
  }

  lemma {:induction false} FeedBitsLinear(c: bv32, d: bv32, xs: seq<bool>, ys: seq<bool>)
    requires |xs| == |ys|
    ensures FeedBits(Xor(c, d), Differences(xs, ys)) == Xor(FeedBits(c, xs), FeedBits(d, ys))
    decreases |xs|
  {
    hide Xor, FeedBit;
    if xs != [] {
      FeedBitLinear(c, d, xs[0], ys[0]);
      assert Differences(xs, ys)[1..] == Differences(xs[1..], ys[1..]);
      FeedBitsLinear(FeedBit(c, xs[0]), FeedBit(d, ys[0]), xs[1..], ys[1..]);
    }
  }

  /** The register with the low n bits set. */
  function Ones(n: nat): bv32 {
    if n == 0 then 0 else AddOne(Ones(n - 1))
  }

  function AddOne(x: bv32): bv32 {
    (x << 1) | 1
  }

  /** Below every bit of x is another one. */
  predicate AllOnes(x: bv32) {
    x & ((x << 1) | 1) == x
  }

  /** All bits of x are bits of y. */
  predicate Within(x: bv32, y: bv32) {
    x & y == x
  }

  lemma WithinSelf(x: bv32)
    ensures Within(x, x)
  {}

  lemma WithinChain(x: bv32, y: bv32, z: bv32)
    requires Within(x, y) && Within(y, z)
    ensures Within(x, z)
  {}

  lemma OnesStep(x: bv32)
    requires AllOnes(x)
    ensures AllOnes(AddOne(x)) && Within(x, AddOne(x))
  {}

  lemma ZeroOnes()
    ensures AllOnes(0)
  {}

  lemma {:induction false} OnesAllOnes(n: nat)
    ensures AllOnes(Ones(n))
  {
    hide AllOnes, AddOne;
    if n == 0 {
      ZeroOnes();
    } else {
      OnesAllOnes(n - 1);
      OnesStep(Ones(n - 1));
    }
  }

  lemma {:induction false} OnesGrow(n: nat, m: nat)
    requires n <= m
    ensures Within(Ones(n), Ones(m))
    decreases m
  {
    hide AllOnes, AddOne, Within;
    WithinSelf(Ones(n));
    if n < m {
      OnesGrow(n, m - 1);
      OnesAllOnes(m - 1);
      OnesStep(Ones(m - 1));
      WithinChain(Ones(n), Ones(m - 1), Ones(m));
    }
  }

  lemma AddEight(x: bv32)
    ensures AddOne(AddOne(AddOne(AddOne(AddOne(AddOne(AddOne(AddOne(x)))))))) == (x << 8) | 0xFF
  {}

  lemma OnesEight(n: nat)
    ensures Ones(n + 8) == (Ones(n) << 8) | 0xFF
  {
    AddEight(Ones(n));
    hide AddOne;
    assert Ones(n + 2) == AddOne(AddOne(Ones(n)));
    assert Ones(n + 4) == AddOne(AddOne(Ones(n + 2)));
    assert Ones(n + 6) == AddOne(AddOne(Ones(n + 4)));
  }

  lemma OnesSeven()
    ensures Ones(7) == 0x7F
  {
    assert Ones(2) == 3;
    assert Ones(4) == 15;
    assert Ones(6) == 63;
  }

  lemma OnesBounded(n: nat)
    requires n <= 31
    ensures Within(Ones(n), 0x7FFFFFFF)
  {
    OnesSeven();
    OnesEight(7);
    OnesEight(15);
    OnesEight(23);
    OnesGrow(n, 31);
    hide Ones;
  }

  /** A register with a bit that is not among the low ones keeps such a bit one place lower. */
  lemma KeepsBit(c: bv32, low: bv32, bit: bool)
    requires !Within(c, AddOne(low)) && Within(low, 0x7FFFFFFF)
    ensures !Within(FeedBit(c, bit), low)
  {}

  /** A bit that has entered the register does not leave it within 31 more. */
  lemma {:induction false} BitStays(c: bv32, bits: seq<bool>)
    requires |bits| <= 31 && !Within(c, Ones(|bits|))
    ensures FeedBits(c, bits) != 0
    decreases |bits|
  {
    WithinSelf(0);
    hide AddOne, FeedBit, Within;
    if bits == [] {
      assert Ones(0) == 0;
    } else {
      OnesBounded(|bits| - 1);
      KeepsBit(c, Ones(|bits| - 1), bits[0]);
      BitStays(FeedBit(c, bits[0]), bits[1..]);
    }
  }

  lemma FirstBit()
    ensures FeedBit(0, false) == 0 && !Within(FeedBit(0, true), 0x7FFFFFFF)
  {}

  /** An empty register that is empty again after at most 32 bits has got only zeros. */
  lemma {:induction false} OnlyZeros(bits: seq<bool>)
    requires |bits| <= 32 && FeedBits(0, bits) == 0
    ensures true !in bits
    decreases |bits|
  {
    FirstBit();
    hide FeedBit, Ones, Within;
    if bits != [] {
      if bits[0] {
        OnesBounded(|bits| - 1);
        if Within(FeedBit(0, true), Ones(|bits| - 1)) {
          WithinChain(FeedBit(0, true), Ones(|bits| - 1), 0x7FFFFFFF);
        }
        BitStays(FeedBit(0, true), bits[1..]);
      } else {
        OnlyZeros(bits[1..]);
        assert bits == [bits[0]] + bits[1..];
      }
    }
  }

  lemma XorSame(x: bv32, y: bv32)
    ensures Xor(x, y) == 0 <==> x == y
  {}

  /** Different windows of at most 32 bits lead from one register to different ones. */
  lemma WindowDiffers(c: bv32, xs: seq<bool>, ys: seq<bool>)
    requires |xs| == |ys| <= 32 && FeedBits(c, xs) == FeedBits(c, ys)
    ensures xs == ys
  {
    hide Xor, FeedBits;
    XorSame(c, c);
    XorSame(FeedBits(c, xs), FeedBits(c, ys));
    FeedBitsLinear(c, c, xs, ys);
    OnlyZeros(Differences(xs, ys));
    forall i | 0 <= i < |xs| ensures xs[i] == ys[i] {
      assert Differences(xs, ys)[i] in Differences(xs, ys);
    }
  }

  /** From different registers the same bits lead to different registers. */
  lemma {:induction false} FeedBitsInjective(c: bv32, d: bv32, bits: seq<bool>)
    requires FeedBits(c, bits) == FeedBits(d, bits)
    ensures c == d
    decreases |bits|
  {
    hide FeedBit;
    if bits != [] {
      FeedBitsInjective(FeedBit(c, bits[0]), FeedBit(d, bits[0]), bits[1..]);
      FeedBitInjective(c, d, bits[0]);
    }
  }

  lemma FeedBitInjective(c: bv32, d: bv32, bit: bool)
    requires FeedBit(c, bit) == FeedBit(d, bit)
    ensures c == d
  {
    FeedBitIsStep(c, bit);
    FeedBitIsStep(d, bit);
    hide FeedBit, Step, Unstep, Xor;
    StepBijective(if bit then Xor(c, 1) else c);
    StepBijective(if bit then Xor(d, 1) else d);
    XorCommutes(1, 1);
    XorAssociative(c, 1, 1);
    XorAssociative(d, 1, 1);
    XorAssociative(c, 0, 0);
    XorAssociative(d, 0, 0);
  }

  lemma EqualMiddle(c: bv32, head: seq<bool>, xm: seq<bool>, ym: seq<bool>, tail: seq<bool>)
    requires |xm| == |ym| <= 32
    requires FeedBits(c, (head + xm) + tail) == FeedBits(c, (head + ym) + tail)
    ensures xm == ym
  {
    hide FeedBits;
    FeedBitsAppend(c, head + xm, tail);
    FeedBitsAppend(c, head + ym, tail);
    FeedBitsInjective(FeedBits(c, head + xm), FeedBits(c, head + ym), tail);
    FeedBitsAppend(c, head, xm);
    FeedBitsAppend(c, head, ym);
    WindowDiffers(FeedBits(c, head), xm, ym);
  }

  lemma BitsInjective(a: bv8, b: bv8)
    requires Bits(a) == Bits(b)
    ensures a == b
  {
    var x, y := Bits(a), Bits(b);
    assert x[0] == y[0] && x[1] == y[1] && x[2] == y[2] && x[3] == y[3];
    assert x[4] == y[4] && x[5] == y[5] && x[6] == y[6] && x[7] == y[7];
    SameBits(a, b);
  }

  lemma SameBits(a: bv8, b: bv8)
    requires (a & 1 != 0 <==> b & 1 != 0) && (a & 2 != 0 <==> b & 2 != 0) && (a & 4 != 0 <==> b & 4 != 0)
    requires (a & 8 != 0 <==> b & 8 != 0) && (a & 16 != 0 <==> b & 16 != 0) && (a & 32 != 0 <==> b & 32 != 0)
    requires (a & 64 != 0 <==> b & 64 != 0) && (a & 128 != 0 <==> b & 128 != 0)
    ensures a == b
  {}

  lemma {:induction false} MessageBitsInjective(xs: seq<bv8>, ys: seq<bv8>)
    requires |xs| == |ys| && MessageBits(xs) == MessageBits(ys)
    ensures xs == ys
  {
    if xs != [] {
      assert |Bits(xs[0])| == |Bits(ys[0])| == 8;
      assert MessageBits(xs)[..8] == Bits(xs[0]) && MessageBits(xs)[8..] == MessageBits(xs[1..]);
      assert MessageBits(ys)[..8] == Bits(ys[0]) && MessageBits(ys)[8..] == MessageBits(ys[1..]);
      hide Bits, MessageBits;
      BitsInjective(xs[0], ys[0]);
      MessageBitsInjective(xs[1..], ys[1..]);
      assert xs == [xs[0]] + xs[1..] && ys == [ys[0]] + ys[1..];
    }
  }

  lemma CancelFinal(x: bv32, y: bv32)
    requires Inverted(x) == Inverted(y)
    ensures x == y
  {}

  lemma ThreeParts(bits: seq<bool>, a: nat, z: nat)
    requires a <= z <= |bits|
    ensures bits == (bits[..a] + bits[a..z]) + bits[z..]
  {}

  lemma BurstEqual(c: bv32, xs: seq<bool>, ys: seq<bool>, p: nat)
    requires |xs| == |ys| && FeedBits(c, xs) == FeedBits(c, ys)
    requires forall i :: 0 <= i < |xs| && !(p <= i < p + 32) ==> xs[i] == ys[i]
    ensures xs == ys
  {
    hide FeedBits;
    var a := if p < |xs| then p else |xs|;
    var z := if p + 32 < |xs| then p + 32 else |xs|;
    assert xs[..a] == ys[..a];
    assert xs[z..] == ys[z..];
    ThreeParts(xs, a, z);
    ThreeParts(ys, a, z);
    EqualMiddle(c, xs[..a], xs[a..z], ys[a..z], xs[z..]);
  }

  /** Two messages of equal length that differ, and only within 32 consecutive bits, wherever these
      lie, always have different checksums. */
  lemma BurstDetected(xs: seq<bv8>, ys: seq<bv8>, p: nat)
    requires |xs| == |ys| && xs != ys
    requires forall i :: 0 <= i < |MessageBits(xs)| && !(p <= i < p + 32) ==> MessageBits(xs)[i] == MessageBits(ys)[i]
    ensures Checksum(xs) != Checksum(ys)
  {
    hide FeedBits, Inverted, MessageBits;
    if Checksum(xs) == Checksum(ys) {
      CancelFinal(FeedBits(0xFFFFFFFF, MessageBits(xs)), FeedBits(0xFFFFFFFF, MessageBits(ys)));
      BurstEqual(0xFFFFFFFF, MessageBits(xs), MessageBits(ys), p);
      MessageBitsInjective(xs, ys);
    }
  }

  lemma {:induction false} MessageBitsSum(a: seq<bv8>, b: seq<bv8>)
    ensures MessageBits(a + b) == MessageBits(a) + MessageBits(b)
  {
    hide Bits;
    if a == [] {
      assert a + b == b;
    } else {
      assert (a + b)[1..] == a[1..] + b;
      MessageBitsSum(a[1..], b);
    }
  }

  /** In particular messages that differ only within four consecutive bytes. */
  lemma BytesDetected(head: seq<bv8>, xm: seq<bv8>, ym: seq<bv8>, tail: seq<bv8>)
    requires |xm| == |ym| <= 4 && xm != ym
    ensures Checksum(head + xm + tail) != Checksum(head + ym + tail)
  {
    hide Bits, MessageBits, Checksum;
    var xs, ys := head + xm + tail, head + ym + tail;
    MessageBitsSum(head + xm, tail);
    MessageBitsSum(head, xm);
    MessageBitsSum(head + ym, tail);
    MessageBitsSum(head, ym);
    assert xs[|head|..|head| + |xm|] == xm && ys[|head|..|head| + |ym|] == ym;
    BurstDetected(xs, ys, 8 * |head|);
  }
}
