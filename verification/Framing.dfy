/** Bytes as numbers. */
module Octets {
  lemma ByteRoundTrip(n: nat)
    requires n < 256
    ensures (n as bv8) as nat == n
  {}

  lemma OctetRoundTrip(b: bv8)
    ensures b as nat < 256 && (b as nat) as bv8 == b
  {}
}

/** Packets in a byte stream: a 16-byte header with magic number, total length and checksum, then
    the body. The receive loop cuts the stream back into packets however it arrives. */
module Framing {
  import opened Crc32
  import opened Lists
  import opened Octets

  const HEADER_SIZE: nat := 16
  const MAX_TOTAL: nat := 0x1_0000_0000

  const MAGIC: nat := 0x0A1B2C3D4E5F6A7B

  // ---- integers in network order ----

  function Power(k: nat): nat {
    if k == 0 then 1 else 256 * Power(k - 1)
  }

  /** The k low bytes of n, highest first. */
  function Bytes(n: nat, k: nat): (b: seq<bv8>)
    ensures |b| == k
    decreases k
  {
    if k == 0 then [] else Bytes(n / 256, k - 1) + [(n % 256) as bv8]
  }

  function Number(b: seq<bv8>): nat {
    if b == [] then 0 else 256 * Number(b[..|b| - 1]) + b[|b| - 1] as nat
  }

  lemma Smaller(n: nat, p: nat)
    requires n < 256 * p
    ensures n / 256 < p && 256 * (n / 256) + n % 256 == n
  {}

  lemma {:induction false} NumberRoundTrip(n: nat, k: nat)
    requires n < Power(k)
    ensures Number(Bytes(n, k)) == n
    decreases k
  {
    if k > 0 {
      Smaller(n, Power(k - 1));
      ByteRoundTrip(n % 256);
      NumberRoundTrip(n / 256, k - 1);
      assert Bytes(n, k)[..k - 1] == Bytes(n / 256, k - 1);
    }
  }

  /** A checksum in network order. */
  function Word(x: bv32): (b: seq<bv8>)
    ensures |b| == 4
  {
    [((x >> 24) & 0xFF) as bv8, ((x >> 16) & 0xFF) as bv8, ((x >> 8) & 0xFF) as bv8, (x & 0xFF) as bv8]
  }

  function FromWord(b: seq<bv8>): bv32
    requires |b| == 4
  {
    ((b[0] as bv32) << 24) | ((b[1] as bv32) << 16) | ((b[2] as bv32) << 8) | (b[3] as bv32)
  }

  lemma WordRoundTrip(x: bv32)
    ensures FromWord(Word(x)) == x
  {}

  // ---- headers ----

  /** The checksum covers magic number and total length as they lie in a little-endian host. */
  function HeaderChecksum(magic: nat, total: nat): bv32 {
    Checksum(Reverse(Bytes(magic, 8)) + Reverse(Bytes(total, 4)))
  }

  function Header(total: nat): (h: seq<bv8>)
    ensures |h| == HEADER_SIZE
  {
    Bytes(MAGIC, 8) + Bytes(total, 4) + Word(HeaderChecksum(MAGIC, total))
  }

  predicate MagicMatches(b: seq<bv8>)
    requires |b| >= HEADER_SIZE
  {
    Number(b[0..8]) == MAGIC
  }

  predicate ChecksumMatches(b: seq<bv8>)
    requires |b| >= HEADER_SIZE
  {
    HeaderChecksum(Number(b[0..8]), Number(b[8..12])) == FromWord(b[12..16])
  }

  function TotalLength(b: seq<bv8>): nat
    requires |b| >= HEADER_SIZE
  {
    Number(b[8..12])
  }

  predicate Sendable(body: seq<bv8>) {
    HEADER_SIZE + |body| < MAX_TOTAL
  }

  /** A packet as it is sent. */
  function Encode(body: seq<bv8>): (r: seq<bv8>)
    requires Sendable(body)
    ensures |r| == HEADER_SIZE + |body|
  {
    Header(HEADER_SIZE + |body|) + body
  }

  lemma PowerValues()
    ensures Power(4) == MAX_TOTAL && MAGIC < Power(8)
  {
    assert Power(2) == 65536;
    assert Power(4) == MAX_TOTAL;
    assert Power(6) == MAX_TOTAL * 65536;
  }

  lemma HeaderFields(total: nat, b: seq<bv8>)
    requires |b| >= HEADER_SIZE && b[..HEADER_SIZE] == Header(total) && total < MAX_TOTAL
    ensures Number(b[0..8]) == MAGIC && Number(b[8..12]) == total
    ensures FromWord(b[12..16]) == HeaderChecksum(MAGIC, total)
  {
    var crc := HeaderChecksum(MAGIC, total);
    PowerValues();
    NumberRoundTrip(MAGIC, 8);
    NumberRoundTrip(total, 4);
    WordRoundTrip(crc);
    hide HeaderChecksum, Bytes, Number, Word, FromWord, Power;
    var h := Header(total);
    assert b[0..8] == h[0..8] == Bytes(MAGIC, 8);
    assert b[8..12] == h[8..12] == Bytes(total, 4);
    assert b[12..16] == h[12..16] == Word(crc);
  }

  /** Anything that begins with an encoded packet's header is recognised as such. */
  lemma HeaderRecognised(body: seq<bv8>, b: seq<bv8>)
    requires Sendable(body) && |b| >= HEADER_SIZE && b[..HEADER_SIZE] == Encode(body)[..HEADER_SIZE]
    ensures MagicMatches(b) && ChecksumMatches(b) && TotalLength(b) == HEADER_SIZE + |body|
  {
    hide Header, HeaderChecksum, Number, FromWord;
    assert Encode(body)[..HEADER_SIZE] == Header(HEADER_SIZE + |body|);
    HeaderFields(HEADER_SIZE + |body|, b);
  }

  // ---- the receive loop ----

  /** What one call delivers and what stays in the buffer. A header whose length is less than the
      header's own size stops the program. */
  datatype Received = Received(packets: seq<seq<bv8>>, rest: seq<bv8>, aborted: bool)

  /** accepts: a packet names a registered method and its payload can be parsed. */
  function Receive(b: seq<bv8>, accepts: seq<bv8> -> bool): Received
    decreases |b|
  {
    if |b| < HEADER_SIZE then Received([], b, false)
    else if !MagicMatches(b) then Received([], [], false)
    else if !ChecksumMatches(b) then Received([], b[HEADER_SIZE..], false)
    else if |b| < TotalLength(b) then Received([], b, false)
    else if TotalLength(b) < HEADER_SIZE then Received([], b[HEADER_SIZE..], true)
    else
      var packet, rest := b[HEADER_SIZE..TotalLength(b)], b[TotalLength(b)..];
      if !accepts(packet) then Received([], rest, false)
      else
        var more := Receive(rest, accepts);
        more.(packets := [packet] + more.packets)
  }

  // ---- damaged headers ----

  lemma SplitNumber(m: nat, l: nat)
    requires l < 256
    ensures (256 * m + l) / 256 == m && (256 * m + l) % 256 == l
  {}

  lemma {:induction false} BytesRoundTrip(b: seq<bv8>)
    ensures Bytes(Number(b), |b|) == b
  {
    if b != [] {
      var front, last := b[..|b| - 1], b[|b| - 1];
      OctetRoundTrip(last);
      SplitNumber(Number(front), last as nat);
      BytesRoundTrip(front);
      assert b == front + [last];
    }
  }

  /** The bytes that the checksum covers, in the order of the host. */
  function Covered(b: seq<bv8>): seq<bv8>
    requires |b| >= HEADER_SIZE
  {
    Reverse(b[0..8]) + Reverse(b[8..12])
  }

  lemma ChecksumOfCovered(b: seq<bv8>)
    requires |b| >= HEADER_SIZE
    ensures ChecksumMatches(b) <==> Checksum(Covered(b)) == FromWord(b[12..16])
    ensures MagicMatches(b) <==> b[0..8] == Bytes(MAGIC, 8)
  {
    BytesRoundTrip(b[0..8]);
    BytesRoundTrip(b[8..12]);
    PowerValues();
    NumberRoundTrip(MAGIC, 8);
    hide Bytes, Number, Reverse, Checksum, FromWord, Power;
  }

  lemma WordInjective(a: seq<bv8>, b: seq<bv8>)
    requires |a| == |b| == 4 && FromWord(a) == FromWord(b)
    ensures a == b
  {
    SameWord(a[0], a[1], a[2], a[3], b[0], b[1], b[2], b[3]);
  }

  lemma SameWord(a0: bv8, a1: bv8, a2: bv8, a3: bv8, b0: bv8, b1: bv8, b2: bv8, b3: bv8)
    requires ((a0 as bv32) << 24) | ((a1 as bv32) << 16) | ((a2 as bv32) << 8) | (a3 as bv32)
          == ((b0 as bv32) << 24) | ((b1 as bv32) << 16) | ((b2 as bv32) << 8) | (b3 as bv32)
    ensures a0 == b0 && a1 == b1 && a2 == b2 && a3 == b3
  {}

  /** The two byte sequences differ, and only in the four bytes from w on. */
  ghost predicate DiffersAt(b: seq<bv8>, c: seq<bv8>, w: nat)
    requires |b| >= HEADER_SIZE && |c| >= HEADER_SIZE && w <= 12
  {
    b[w..w + 4] != c[w..w + 4] && forall i :: 0 <= i < HEADER_SIZE && !(w <= i < w + 4) ==> b[i] == c[i]
  }

  lemma CoveredWords(b: seq<bv8>)
    requires |b| >= HEADER_SIZE
    ensures Covered(b) == Reverse(b[4..8]) + Reverse(b[0..4]) + Reverse(b[8..12])
  {
    assert b[0..8] == b[0..4] + b[4..8];
    ReverseSum(b[0..4], b[4..8]);
  }

  lemma SamePart(b: seq<bv8>, c: seq<bv8>, w: nat, v: nat, n: nat)
    requires |b| >= HEADER_SIZE && |c| >= HEADER_SIZE && w <= 12 && DiffersAt(b, c, w)
    requires v + n <= HEADER_SIZE && (v + n <= w || w + 4 <= v)
    ensures b[v..v + n] == c[v..v + n]
  {}

  /** Damage to one of the three words that the checksum covers changes the checksum. */
  lemma DamageChangesChecksum(b: seq<bv8>, c: seq<bv8>, w: nat)
    requires |b| >= HEADER_SIZE && |c| >= HEADER_SIZE && (w == 0 || w == 4 || w == 8) && DiffersAt(b, c, w)
    ensures Checksum(Covered(b)) != Checksum(Covered(c))
  {
    CoveredWords(b);
    CoveredWords(c);
    ReverseTwice(b[w..w + 4]);
    ReverseTwice(c[w..w + 4]);
    if w != 0 { SamePart(b, c, w, 0, 4); }
    if w != 4 { SamePart(b, c, w, 4, 4); }
    if w != 8 { SamePart(b, c, w, 8, 4); }
    hide Checksum, Reverse, Covered, DiffersAt;
    var r0, r1, r2 := Reverse(b[0..4]), Reverse(b[4..8]), Reverse(b[8..12]);
    var s0, s1, s2 := Reverse(c[0..4]), Reverse(c[4..8]), Reverse(c[8..12]);
    if w == 0 {
      BytesDetected(r1, r0, s0, r2);
    } else if w == 4 {
      BytesDetected([], r1, s1, r0 + r2);
      assert [] + r1 + (r0 + r2) == r1 + r0 + r2 && [] + s1 + (r0 + r2) == s1 + r0 + r2;
    } else {
      BytesDetected(r1 + r0, r2, s2, []);
      assert r1 + r0 + r2 + [] == r1 + r0 + r2 && r1 + r0 + s2 + [] == r1 + r0 + s2;
    }
  }

  /** The words of an encoded header fit together. */
  lemma HeaderMatches(total: nat)
    requires total < MAX_TOTAL
    ensures MagicMatches(Header(total)) && ChecksumMatches(Header(total))
  {
    assert Header(total)[..HEADER_SIZE] == Header(total);
    HeaderFields(total, Header(total));
    hide Header, HeaderChecksum, Number, FromWord;
  }

  lemma Damaged(b: seq<bv8>, c: seq<bv8>, w: nat)
    requires |b| >= HEADER_SIZE && |c| >= HEADER_SIZE && w <= 12 && DiffersAt(b, c, w)
    ensures b[w..w + 4] != c[w..w + 4]
  {}

  lemma InnerPart(b: seq<bv8>, c: seq<bv8>, w: nat)
    requires |b| >= HEADER_SIZE && |c| >= HEADER_SIZE && w <= 4 && b[0..8] == c[0..8]
    ensures b[w..w + 4] == c[w..w + 4]
  {
    assert b[w..w + 4] == b[0..8][w..w + 4];
    assert c[w..w + 4] == c[0..8][w..w + 4];
  }

  lemma MagicDamaged(h: seq<bv8>, b: seq<bv8>, w: nat)
    requires |h| >= HEADER_SIZE && |b| >= HEADER_SIZE && (w == 0 || w == 4) && DiffersAt(h, b, w) && MagicMatches(h)
    ensures !MagicMatches(b)
  {
    hide MagicMatches, ChecksumMatches, Bytes, Checksum, Covered, FromWord, DiffersAt;
    ChecksumOfCovered(h);
    ChecksumOfCovered(b);
    Damaged(h, b, w);
    if h[0..8] == b[0..8] {
      InnerPart(h, b, w);
    }
  }

  lemma LengthWordDamaged(h: seq<bv8>, b: seq<bv8>)
    requires |h| >= HEADER_SIZE && |b| >= HEADER_SIZE && DiffersAt(h, b, 8) && MagicMatches(h) && ChecksumMatches(h)
    ensures MagicMatches(b) && !ChecksumMatches(b)
  {
    ChecksumOfCovered(h);
    ChecksumOfCovered(b);
    DamageChangesChecksum(h, b, 8);
    SamePart(h, b, 8, 0, 8);
    SamePart(h, b, 8, 12, 4);
    hide MagicMatches, ChecksumMatches, Bytes, Checksum, Covered, FromWord, DiffersAt;
  }

  lemma ChecksumWordDamaged(h: seq<bv8>, b: seq<bv8>)
    requires |h| >= HEADER_SIZE && |b| >= HEADER_SIZE && DiffersAt(h, b, 12) && MagicMatches(h) && ChecksumMatches(h)
    ensures MagicMatches(b) && !ChecksumMatches(b)
  {
    hide MagicMatches, ChecksumMatches, Bytes, Checksum, FromWord, DiffersAt, Reverse;
    ChecksumOfCovered(h);
    ChecksumOfCovered(b);
    SamePart(h, b, 12, 0, 8);
    SamePart(h, b, 12, 8, 4);
    Damaged(h, b, 12);
    if FromWord(h[12..16]) == FromWord(b[12..16]) {
      WordInjective(h[12..16], b[12..16]);
    }
  }

  lemma NotRecognised(b: seq<bv8>, accepts: seq<bv8> -> bool)
    requires |b| >= HEADER_SIZE && !(MagicMatches(b) && ChecksumMatches(b))
    ensures Receive(b, accepts) == Received([], if MagicMatches(b) then b[HEADER_SIZE..] else [], false)
  {
    hide MagicMatches, ChecksumMatches;
  }

  /** A header with damage to one of its four words is never taken for a packet. If the magic number
      is damaged all that has arrived is lost, else exactly the header. */
  lemma HeaderDamaged(total: nat, b: seq<bv8>, w: nat, accepts: seq<bv8> -> bool)
    requires total < MAX_TOTAL && |b| >= HEADER_SIZE && w % 4 == 0 && w <= 12 && DiffersAt(Header(total), b, w)
    ensures Receive(b, accepts) == Received([], if w < 8 then [] else b[HEADER_SIZE..], false)
  {
    hide Header, ChecksumMatches, MagicMatches, Receive, DiffersAt;
    HeaderMatches(total);
    if w < 8 {
      MagicDamaged(Header(total), b, w);
    } else if w == 8 {
      LengthWordDamaged(Header(total), b);
    } else {
      ChecksumWordDamaged(Header(total), b);
    }
    NotRecognised(b, accepts);
  }

  /** In particular a header whose length is not the one that was sent: nothing is cut at the wrong
      place, and everything behind the header stays. */
  lemma LengthDamaged(total: nat, bad: nat, rest: seq<bv8>, accepts: seq<bv8> -> bool)
    requires total < MAX_TOTAL && bad < MAX_TOTAL && bad != total
    ensures var b := Bytes(MAGIC, 8) + Bytes(bad, 4) + Header(total)[12..16] + rest;
            !ChecksumMatches(b) && Receive(b, accepts) == Received([], rest, false)
  {
    var h, b := Header(total), Bytes(MAGIC, 8) + Bytes(bad, 4) + Header(total)[12..16] + rest;
    HeaderMatches(total);
    LengthsDiffer(total, bad, rest);
    assert b[16..] == rest;
    hide Header, ChecksumMatches, MagicMatches, Bytes, Receive, DiffersAt;
    LengthWordDamaged(h, b);
    NotRecognised(b, accepts);
  }

  lemma LengthsDiffer(total: nat, bad: nat, rest: seq<bv8>)
    requires total < MAX_TOTAL && bad < MAX_TOTAL && bad != total
    ensures DiffersAt(Header(total), Bytes(MAGIC, 8) + Bytes(bad, 4) + Header(total)[12..16] + rest, 8)
  {
    hide HeaderChecksum, Word, Bytes, Number, Power, DiffersAt;
    PowerValues();
    NumberRoundTrip(total, 4);
    NumberRoundTrip(bad, 4);
    var crc := Word(HeaderChecksum(MAGIC, total));
    assert Header(total)[12..16] == crc;
    OtherMiddle(Bytes(MAGIC, 8), Bytes(total, 4), Bytes(bad, 4), crc, rest);
  }

  lemma OtherMiddle(a: seq<bv8>, x: seq<bv8>, y: seq<bv8>, c: seq<bv8>, rest: seq<bv8>)
    requires |a| == 8 && |x| == |y| == |c| == 4 && x != y
    ensures DiffersAt(a + x + c, a + y + c + rest, 8)
  {
    assert (a + x + c)[8..12] == x && (a + y + c + rest)[8..12] == y;
  }

  class Receiver {
    const accepts: seq<bv8> -> bool
    var buffer: seq<bv8>

    constructor (accepts: seq<bv8> -> bool)
      ensures this.accepts == accepts && buffer == []
    {
      this.accepts, buffer := accepts, [];
    }

    /** New bytes have arrived at the end of the buffer. */
    method OnMessage(chunk: seq<bv8>) returns (packets: seq<seq<bv8>>, aborted: bool)
      modifies this
      ensures Received(packets, buffer, aborted) == Receive(old(buffer) + chunk, accepts)
    {
      hide MagicMatches, ChecksumMatches, TotalLength, Number;
      buffer := buffer + chunk;
      packets, aborted := [], false;
      ghost var all := buffer;
      while |buffer| >= HEADER_SIZE
        invariant Receive(all, accepts) ==
          var more := Receive(buffer, accepts); more.(packets := packets + more.packets)
        decreases |buffer|
      {
        if !MagicMatches(buffer) {
          buffer := [];
          return;
        }
        if !ChecksumMatches(buffer) {
          buffer := buffer[HEADER_SIZE..];
          return;
        }
        var total := TotalLength(buffer);
        if |buffer| < total {
          return;
        }
        if total < HEADER_SIZE {
          buffer := buffer[HEADER_SIZE..];
          return packets, true;
        }
        var packet := buffer[HEADER_SIZE..total];
        buffer := buffer[total..];
        if !accepts(packet) {
          return;
        }
        ghost var more := Receive(buffer, accepts);
        assert packets + ([packet] + more.packets) == (packets + [packet]) + more.packets;
        packets := packets + [packet];
      }
    }
  }

  // ---- cutting the stream ----

  predicate AllSendable(bodies: seq<seq<bv8>>) {
    forall p :: p in bodies ==> Sendable(p)
  }

  function EncodeAll(bodies: seq<seq<bv8>>): seq<bv8>
    requires AllSendable(bodies)
  {
    if bodies == [] then [] else Encode(bodies[0]) + EncodeAll(bodies[1..])
  }

  /** The beginning of a packet that has not arrived completely. */
  ghost predicate Partial(t: seq<bv8>) {
    exists q :: Sendable(q) && |t| < |Encode(q)| && t == Encode(q)[..|t|]
  }

  lemma ReceivePartial(t: seq<bv8>, accepts: seq<bv8> -> bool)
    requires Partial(t)
    ensures Receive(t, accepts) == Received([], t, false)
  {
    if |t| >= HEADER_SIZE {
      var q :| Sendable(q) && |t| < |Encode(q)| && t == Encode(q)[..|t|];
      assert t[..HEADER_SIZE] == Encode(q)[..HEADER_SIZE];
      hide MagicMatches, ChecksumMatches, TotalLength, Encode;
      HeaderRecognised(q, t);
    }
  }

  lemma ReceivePacket(p: seq<bv8>, rest: seq<bv8>, accepts: seq<bv8> -> bool)
    requires Sendable(p)
    ensures var more := Receive(rest, accepts);
            Receive(Encode(p) + rest, accepts) ==
              if accepts(p) then more.(packets := [p] + more.packets) else Received([], rest, false)
  {
    var b := Encode(p) + rest;
    assert b[..HEADER_SIZE] == Encode(p)[..HEADER_SIZE];
    hide MagicMatches, ChecksumMatches, TotalLength;
    HeaderRecognised(p, b);
    hide Header;
    assert b[HEADER_SIZE..TotalLength(b)] == p && b[TotalLength(b)..] == rest;
  }

  /** Whole packets in front of anything are delivered first. */
  lemma {:induction false} ReceiveFront(bodies: seq<seq<bv8>>, b: seq<bv8>, accepts: seq<bv8> -> bool)
    requires AllSendable(bodies) && forall i :: 0 <= i < |bodies| ==> accepts(bodies[i])
    ensures var more := Receive(b, accepts);
            Receive(EncodeAll(bodies) + b, accepts) == more.(packets := bodies + more.packets)
  {
    hide Encode, Sendable, Receive;
    if bodies == [] {
      assert EncodeAll(bodies) + b == b;
      assert [] + Receive(b, accepts).packets == Receive(b, accepts).packets;
    } else {
      FirstPacket(bodies, b);
      ReceivePacket(bodies[0], EncodeAll(bodies[1..]) + b, accepts);
      ReceiveFront(bodies[1..], b, accepts);
      var packets := Receive(b, accepts).packets;
      assert [bodies[0]] + (bodies[1..] + packets) == bodies + packets;
    }
  }

  /** What damage to a header costs: the packets in front of it arrive, and of what follows the header
      everything is kept, or nothing if the magic number is damaged. */
  lemma DamageCosts(bodies: seq<seq<bv8>>, total: nat, b: seq<bv8>, w: nat, accepts: seq<bv8> -> bool)
    requires AllSendable(bodies) && forall i :: 0 <= i < |bodies| ==> accepts(bodies[i])
    requires total < MAX_TOTAL && |b| >= HEADER_SIZE && w % 4 == 0 && w <= 12 && DiffersAt(Header(total), b, w)
    ensures Receive(EncodeAll(bodies) + b, accepts) == Received(bodies, if w < 8 then [] else b[HEADER_SIZE..], false)
  {
    hide Receive, EncodeAll, DiffersAt, Header;
    HeaderDamaged(total, b, w, accepts);
    ReceiveFront(bodies, b, accepts);
    assert bodies + [] == bodies;
  }

  /** The accepted packets of a list. */
  function Accepted(bodies: seq<seq<bv8>>, accepts: seq<bv8> -> bool): seq<seq<bv8>> {
    if bodies == [] then []
    else (if accepts(bodies[0]) then [bodies[0]] else []) + Accepted(bodies[1..], accepts)
  }

  /** How many packets one call takes from the front: up to and including the first rejected one. */
  function TakenAtOnce(bodies: seq<seq<bv8>>, accepts: seq<bv8> -> bool): (n: nat)
    ensures n <= |bodies|
    ensures n < |bodies| ==> n >= 1 && !accepts(bodies[n - 1])
    ensures forall i :: 0 <= i < n - 1 ==> accepts(bodies[i])
  {
    if bodies == [] then 0 else if accepts(bodies[0]) then 1 + TakenAtOnce(bodies[1..], accepts) else 1
  }

  lemma {:induction false} ReceiveStream(bodies: seq<seq<bv8>>, tail: seq<bv8>, accepts: seq<bv8> -> bool)
    requires AllSendable(bodies) && Partial(tail)
    ensures var n := TakenAtOnce(bodies, accepts);
            Receive(EncodeAll(bodies) + tail, accepts) ==
              Received(Accepted(bodies[..n], accepts), EncodeAll(bodies[n..]) + tail, false)
  {
    hide Encode, Sendable, Partial, Receive;
    if bodies == [] {
      assert EncodeAll(bodies) + tail == tail && bodies[..0] == [] && bodies[0..] == [];
      ReceivePartial(tail, accepts);
    } else {
      var p, more := bodies[0], bodies[1..];
      var n := TakenAtOnce(bodies, accepts);
      assert EncodeAll(bodies) + tail == Encode(p) + (EncodeAll(more) + tail);
      ReceivePacket(p, EncodeAll(more) + tail, accepts);
      if accepts(p) {
        ReceiveStream(more, tail, accepts);
        assert bodies[..n][1..] == more[..n - 1] && bodies[n..] == more[n - 1..];
      } else {
        assert bodies[..1] == [p] && bodies[1..] == more && bodies[..1][1..] == [];
      }
    }
  }

  /** The stream in chunks, one call each. */
  function ReceiveChunks(b: seq<bv8>, chunks: seq<seq<bv8>>, accepts: seq<bv8> -> bool): Received
    decreases |chunks|
  {
    if chunks == [] then Received([], b, false)
    else
      var r := Receive(b + chunks[0], accepts);
      if r.aborted then r
      else
        var more := ReceiveChunks(r.rest, chunks[1..], accepts);
        more.(packets := r.packets + more.packets)
  }

  function Concat(chunks: seq<seq<bv8>>): seq<bv8> {
    if chunks == [] then [] else chunks[0] + Concat(chunks[1..])
  }

  lemma {:induction false} EncodeAllAppend(xs: seq<seq<bv8>>, ys: seq<seq<bv8>>)
    requires AllSendable(xs) && AllSendable(ys)
    ensures AllSendable(xs + ys) && EncodeAll(xs + ys) == EncodeAll(xs) + EncodeAll(ys)
  {
    hide Encode, Sendable;
    if xs == [] {
      assert xs + ys == ys;
    } else {
      assert (xs + ys)[1..] == xs[1..] + ys;
      EncodeAllAppend(xs[1..], ys);
    }
  }

  lemma {:induction false} AcceptedAppend(xs: seq<seq<bv8>>, ys: seq<seq<bv8>>, accepts: seq<bv8> -> bool)
    ensures Accepted(xs + ys, accepts) == Accepted(xs, accepts) + Accepted(ys, accepts)
  {
    if xs == [] {
      assert xs + ys == ys;
    } else {
      assert (xs + ys)[1..] == xs[1..] + ys;
      AcceptedAppend(xs[1..], ys, accepts);
    }
  }

  lemma PartialPrefix(t: seq<bv8>, n: nat)
    requires Partial(t) && n <= |t|
    ensures Partial(t[..n])
  {
    var q :| Sendable(q) && |t| < |Encode(q)| && t == Encode(q)[..|t|];
    hide Encode;
    assert t[..n] == Encode(q)[..n];
  }

  lemma PacketPrefix(p: seq<bv8>, n: nat)
    requires Sendable(p) && n < |Encode(p)|
    ensures Partial(Encode(p)[..n])
  {}

  lemma SplitInside(e: seq<bv8>, rest: seq<bv8>, n: nat)
    requires n <= |e|
    ensures (e + rest)[..n] == e[..n] && e[..n] + (e + rest)[n..] == e + rest
  {}

  lemma SplitBehind(e: seq<bv8>, rest: seq<bv8>, n: nat)
    requires |e| <= n <= |e| + |rest|
    ensures (e + rest)[..n] == e + rest[..n - |e|] && (e + rest)[n..] == rest[n - |e|..]
  {}

  lemma FirstPacket(bodies: seq<seq<bv8>>, tail: seq<bv8>)
    requires AllSendable(bodies) && bodies != []
    ensures EncodeAll(bodies) + tail == Encode(bodies[0]) + (EncodeAll(bodies[1..]) + tail)
  {
    hide Encode, Sendable;
  }

  lemma MorePackets(bodies: seq<seq<bv8>>, m: nat, t: seq<bv8>)
    requires AllSendable(bodies) && m < |bodies|
    ensures bodies[m + 1..] == bodies[1..][m..]
    ensures EncodeAll(bodies[..m + 1]) + t == Encode(bodies[0]) + (EncodeAll(bodies[1..][..m]) + t)
  {
    hide Encode, Sendable;
    assert bodies[..m + 1][1..] == bodies[1..][..m];
  }

  /** The first n bytes of a stream are m packets and the beginning t of the next one. */
  ghost predicate SplitsAt(bodies: seq<seq<bv8>>, tail: seq<bv8>, n: nat, m: nat, t: seq<bv8>)
    requires AllSendable(bodies)
  {
    && m <= |bodies| && n <= |EncodeAll(bodies) + tail|
    && (EncodeAll(bodies) + tail)[..n] == EncodeAll(bodies[..m]) + t
    && t + (EncodeAll(bodies) + tail)[n..] == EncodeAll(bodies[m..]) + tail
    && (m < |bodies| ==> |t| < |Encode(bodies[m])|)
  }

  lemma SplitNone(tail: seq<bv8>, n: nat)
    requires n <= |tail|
    ensures SplitsAt([], tail, n, 0, tail[..n])
  {
    assert EncodeAll([]) + tail == tail;
    assert tail[..n] + tail[n..] == tail;
  }

  lemma SplitFirst(bodies: seq<seq<bv8>>, tail: seq<bv8>, n: nat)
    requires AllSendable(bodies) && bodies != [] && n < |Encode(bodies[0])|
    ensures SplitsAt(bodies, tail, n, 0, Encode(bodies[0])[..n])
  {
    var e := Encode(bodies[0]);
    var rest := EncodeAll(bodies[1..]) + tail;
    FirstPacket(bodies, tail);
    SplitInside(e, rest, n);
    assert bodies[..0] == [] && bodies[0..] == bodies && EncodeAll([]) + e[..n] == e[..n];
    hide EncodeAll, Encode, Sendable;
  }

  lemma SplitLater(bodies: seq<seq<bv8>>, tail: seq<bv8>, n: nat, m: nat, t: seq<bv8>)
    requires AllSendable(bodies) && bodies != [] && n >= |Encode(bodies[0])|
    requires SplitsAt(bodies[1..], tail, n - |Encode(bodies[0])|, m, t)
    ensures SplitsAt(bodies, tail, n, m + 1, t)
  {
    hide EncodeAll, Encode, Sendable;
    FirstPacket(bodies, tail);
    SplitBehind(Encode(bodies[0]), EncodeAll(bodies[1..]) + tail, n);
    MorePackets(bodies, m, t);
    assert m + 1 < |bodies| ==> bodies[m + 1] == bodies[1..][m];
  }

  lemma {:induction false} SplitPrefix(bodies: seq<seq<bv8>>, tail: seq<bv8>, n: nat) returns (m: nat, t: seq<bv8>)
    requires AllSendable(bodies) && Partial(tail) && n <= |EncodeAll(bodies) + tail|
    ensures SplitsAt(bodies, tail, n, m, t) && Partial(t)
  {
    if bodies == [] {
      m, t := 0, tail[..n];
      PartialPrefix(tail, n);
      SplitNone(tail, n);
    } else {
      hide EncodeAll, Encode, Sendable, Partial, SplitsAt;
      if n < |Encode(bodies[0])| {
        m, t := 0, Encode(bodies[0])[..n];
        PacketPrefix(bodies[0], n);
        SplitFirst(bodies, tail, n);
      } else {
        FirstPacket(bodies, tail);
        m, t := SplitPrefix(bodies[1..], tail, n - |Encode(bodies[0])|);
        SplitLater(bodies, tail, n, m, t);
        m := m + 1;
      }
    }
  }

  lemma AllSendableParts(bodies: seq<seq<bv8>>, m: nat)
    requires AllSendable(bodies) && m <= |bodies|
    ensures AllSendable(bodies[..m]) && AllSendable(bodies[m..])
  {}

  /** One chunk of a stream: some packets are taken, and what is left is again such a stream. */
  lemma OneChunk(bodies: seq<seq<bv8>>, tail: seq<bv8>, b: seq<bv8>, rest: seq<bv8>, accepts: seq<bv8> -> bool)
    returns (u: nat)
    requires AllSendable(bodies) && Partial(tail) && b + rest == EncodeAll(bodies) + tail
    ensures u <= |bodies| && AllSendable(bodies[u..])
    ensures var r := Receive(b, accepts);
            !r.aborted && r.packets == Accepted(bodies[..u], accepts) && r.rest + rest == EncodeAll(bodies[u..]) + tail
    ensures rest == [] ==> u == |bodies| || (u >= 1 && !accepts(bodies[u - 1]))
  {
    hide Encode, Sendable, Partial, Receive, EncodeAll, Accepted, TakenAtOnce, AllSendable;
    var s := EncodeAll(bodies) + tail;
    var m, t := SplitPrefix(bodies, tail, |b|);
    assert s[..|b|] == b && s[|b|..] == rest by { assert b + rest == s; }
    AllSendableParts(bodies, m);
    ReceiveStream(bodies[..m], t, accepts);
    u := TakenAtOnce(bodies[..m], accepts);
    AllSendableParts(bodies[..m], u);
    AllSendableParts(bodies, u);
    TakenPart(bodies, m, u);
    EncodeAllAppend(bodies[..m][u..], bodies[m..]);
    assert (EncodeAll(bodies[..m][u..]) + t) + rest == EncodeAll(bodies[..m][u..]) + (t + rest);
    if rest == [] && m < |bodies| {
      AtLeastOne(bodies, m, tail, t);
    }
  }

  lemma TakenPart(bodies: seq<seq<bv8>>, m: nat, u: nat)
    requires u <= m <= |bodies|
    ensures bodies[..m][..u] == bodies[..u] && bodies[..m][u..] + bodies[m..] == bodies[u..]
  {}

  lemma AtLeastOne(bodies: seq<seq<bv8>>, m: nat, tail: seq<bv8>, t: seq<bv8>)
    requires AllSendable(bodies) && m < |bodies| && AllSendable(bodies[m..])
    ensures t == EncodeAll(bodies[m..]) + tail ==> |t| >= |Encode(bodies[m])|
  {
    hide Encode;
  }

  /** However a stream of packets is cut, nothing is lost, invented or reordered: the accepted ones
      of the first k packets have been delivered, and the buffer holds exactly the rest. What may be
      left are packets behind a rejected one. */
  lemma {:induction false} ChunksDeliver(b: seq<bv8>, chunks: seq<seq<bv8>>, bodies: seq<seq<bv8>>, tail: seq<bv8>,
                                         accepts: seq<bv8> -> bool) returns (k: nat)
    requires AllSendable(bodies) && Partial(tail) && b + Concat(chunks) == EncodeAll(bodies) + tail
    ensures k <= |bodies| && AllSendable(bodies[k..])
    ensures ReceiveChunks(b, chunks, accepts) ==
      Received(Accepted(bodies[..k], accepts), EncodeAll(bodies[k..]) + tail, false)
    ensures if chunks == [] then k == 0 else k == |bodies| || (k >= 1 && !accepts(bodies[k - 1]))
    decreases |chunks|
  {
    hide Partial, Receive, EncodeAll, Accepted, AllSendable;
    if chunks == [] {
      k := 0;
      assert b + Concat(chunks) == b && bodies[..0] == [] && bodies[0..] == bodies;
      AcceptedNone(accepts);
    } else {
      var c, rest := chunks[0], Concat(chunks[1..]);
      assert (b + c) + rest == b + Concat(chunks);
      var u := OneChunk(bodies, tail, b + c, rest, accepts);
      var r := Receive(b + c, accepts);
      var more := ChunksDeliver(r.rest, chunks[1..], bodies[u..], tail, accepts);
      k := u + more;
      TakenTwice(bodies, u, more);
      AcceptedAppend(bodies[..u], bodies[u..][..more], accepts);
      assert chunks[1..] == [] ==> rest == [];
    }
  }

  lemma AcceptedNone(accepts: seq<bv8> -> bool)
    ensures Accepted([], accepts) == []
  {}

  lemma TakenTwice(bodies: seq<seq<bv8>>, u: nat, n: nat)
    requires u <= |bodies| && n <= |bodies[u..]|
    ensures bodies[..u] + bodies[u..][..n] == bodies[..u + n] && bodies[u..][n..] == bodies[u + n..]
  {}

  lemma {:induction false} AllAccepted(bodies: seq<seq<bv8>>, accepts: seq<bv8> -> bool)
    requires forall i :: 0 <= i < |bodies| ==> accepts(bodies[i])
    ensures Accepted(bodies, accepts) == bodies
  {
    if bodies != [] {
      AllAccepted(bodies[1..], accepts);
      assert bodies == [bodies[0]] + bodies[1..];
    }
  }

  /** Packets that are all accepted arrive exactly as they were sent, whatever the cuts, and the
      unfinished packet at the end stays in the buffer. */
  lemma StreamReassembled(chunks: seq<seq<bv8>>, bodies: seq<seq<bv8>>, tail: seq<bv8>, accepts: seq<bv8> -> bool)
    requires AllSendable(bodies) && Partial(tail) && Concat(chunks) == EncodeAll(bodies) + tail
    requires forall i :: 0 <= i < |bodies| ==> accepts(bodies[i])
    ensures ReceiveChunks([], chunks, accepts) == Received(bodies, tail, false)
  {
    assert [] + Concat(chunks) == Concat(chunks);
    var k := ChunksDeliver([], chunks, bodies, tail, accepts);
    if chunks == [] && bodies != [] {
      NotEmpty(bodies);
    }
    assert bodies[..|bodies|] == bodies && bodies[|bodies|..] == [];
    AllAccepted(bodies, accepts);
    hide Receive, ReceiveChunks, Partial;
  }

  lemma NotEmpty(bodies: seq<seq<bv8>>)
    requires AllSendable(bodies) && bodies != []
    ensures |EncodeAll(bodies)| > 0
  {}

  /** No packet that would be accepted follows one that is rejected. */
  ghost predicate RejectedLast(bodies: seq<seq<bv8>>, accepts: seq<bv8> -> bool) {
    forall i, j :: 0 <= i < j < |bodies| && accepts(bodies[j]) ==> accepts(bodies[i])
  }

  lemma {:induction false} NoneAccepted(bodies: seq<seq<bv8>>, accepts: seq<bv8> -> bool)
    requires forall i :: 0 <= i < |bodies| ==> !accepts(bodies[i])
    ensures Accepted(bodies, accepts) == []
  {
    if bodies != [] {
      NoneAccepted(bodies[1..], accepts);
    }
  }

  lemma {:induction false} SomeAccepted(bodies: seq<seq<bv8>>, accepts: seq<bv8> -> bool, i: nat)
    requires i < |bodies| && accepts(bodies[i])
    ensures Accepted(bodies, accepts) != []
  {
    if !accepts(bodies[0]) {
      SomeAccepted(bodies[1..], accepts, i - 1);
    }
  }

  ghost predicate Delivers(chunks: seq<seq<bv8>>, bodies: seq<seq<bv8>>, accepts: seq<bv8> -> bool) {
    ReceiveChunks([], chunks, accepts).packets == Accepted(bodies, accepts)
  }

  lemma EveryCutDelivers(chunks: seq<seq<bv8>>, bodies: seq<seq<bv8>>, tail: seq<bv8>, accepts: seq<bv8> -> bool)
    requires AllSendable(bodies) && Partial(tail) && Concat(chunks) == EncodeAll(bodies) + tail
    requires RejectedLast(bodies, accepts)
    ensures Delivers(chunks, bodies, accepts)
  {
    hide EncodeAll, Partial, ReceiveChunks, Accepted;
    assert [] + Concat(chunks) == Concat(chunks);
    var k := ChunksDeliver([], chunks, bodies, tail, accepts);
    if chunks == [] && bodies != [] {
      NotEmpty(bodies);
    }
    assert k == |bodies| || (k >= 1 && !accepts(bodies[k - 1]));
    forall i: nat | i < |bodies[k..]| ensures !accepts(bodies[k..][i]) {
      assert bodies[k..][i] == bodies[k + i];
      assert k >= 1 && !accepts(bodies[k - 1]);
    }
    NoneAccepted(bodies[k..], accepts);
    AcceptedAppend(bodies[..k], bodies[k..], accepts);
    assert bodies[..k] + bodies[k..] == bodies;
  }

  lemma OneCall(s: seq<bv8>, accepts: seq<bv8> -> bool)
    requires !Receive(s, accepts).aborted
    ensures ReceiveChunks([], [s], accepts).packets == Receive(s, accepts).packets
  {
    hide Receive;
    assert [] + s == s && [s][1..] == [];
  }

  lemma OneCallStops(bodies: seq<seq<bv8>>, tail: seq<bv8>, accepts: seq<bv8> -> bool)
    requires AllSendable(bodies) && Partial(tail) && Delivers([EncodeAll(bodies) + tail], bodies, accepts)
    ensures RejectedLast(bodies, accepts)
  {
    hide EncodeAll, Partial, Receive, Accepted, TakenAtOnce, AllSendable, ReceiveChunks;
    var n, s := TakenAtOnce(bodies, accepts), EncodeAll(bodies) + tail;
    ReceiveStream(bodies, tail, accepts);
    OneCall(s, accepts);
    AcceptedAppend(bodies[..n], bodies[n..], accepts);
    assert bodies[..n] + bodies[n..] == bodies;
    assert |Accepted(bodies[n..], accepts)| == 0;
    AcceptedEarly(bodies, n, accepts);
  }

  lemma AcceptedEarly(bodies: seq<seq<bv8>>, n: nat, accepts: seq<bv8> -> bool)
    requires n <= |bodies| && Accepted(bodies[n..], accepts) == []
    requires forall i :: 0 <= i < n - 1 ==> accepts(bodies[i])
    ensures RejectedLast(bodies, accepts)
  {
    forall i: nat, j: nat | i < j < |bodies| && accepts(bodies[j]) ensures accepts(bodies[i]) {
      if j >= n {
        SomeAccepted(bodies[n..], accepts, j - n);
      }
    }
  }

  /** The cuts never matter exactly when no accepted packet follows a rejected one: the loop gives
      up the call at a rejected packet and leaves what is behind it for the next bytes. */
  lemma CutsNeverMatterIff(bodies: seq<seq<bv8>>, tail: seq<bv8>, accepts: seq<bv8> -> bool)
    requires AllSendable(bodies) && Partial(tail)
    ensures RejectedLast(bodies, accepts) <==>
      forall chunks :: Concat(chunks) == EncodeAll(bodies) + tail ==> Delivers(chunks, bodies, accepts)
  {
    hide EncodeAll, Partial, Delivers, RejectedLast, AllSendable;
    var s := EncodeAll(bodies) + tail;
    if RejectedLast(bodies, accepts) {
      forall chunks | Concat(chunks) == s ensures Delivers(chunks, bodies, accepts) {
        EveryCutDelivers(chunks, bodies, tail, accepts);
      }
    } else if forall chunks :: Concat(chunks) == s ==> Delivers(chunks, bodies, accepts) {
      assert Concat([s]) == s + Concat([]) == s;
      OneCallStops(bodies, tail, accepts);
    }
  }
}
