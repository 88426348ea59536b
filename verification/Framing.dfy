/**
 Packet framing of the up stream: every packet is a header of two 16-bit fields, the allocated and
 the written size, each carrying the core number in bit 15, followed by the user's bytes.
 */
module Framing {
  import opened Wrappers
  import opened Bytes
  import opened Seqs

  const HEADER_SIZE := 4
  /** ESP_APPTRACE_USR_BLOCK_CORE: the core number occupies bit 15. */
  const CORE_BIT := 0x8000

  datatype Packet = Packet(core: nat, payload: seq<Byte>) {
    ghost predicate Valid() {
      core <= 1 && |payload| < CORE_BIT
    }
  }

  function BlockSz(core: nat, size: nat): (v: nat)
    requires core <= 1 && size < CORE_BIT
    ensures v < 0x1_0000
  {
    core * CORE_BIT + size
  }

  /** The header the device leaves behind: written size 0 after pkt_start, equal to block_sz after pkt_end. */
  function Header(core: nat, size: nat, closed: bool): (h: seq<Byte>)
    requires core <= 1 && size < CORE_BIT
    ensures |h| == HEADER_SIZE
  {
    Le16(BlockSz(core, size)) + Le16(if closed then BlockSz(core, size) else 0)
  }

  /** The four bytes: both sizes little-endian, the core number in the top bit, the second zero until the end. */
  lemma HeaderBytes(core: nat, size: nat)
    requires core <= 1 && size < CORE_BIT
    ensures Header(core, size, true) == [size % 256, size / 256 + 128 * core, size % 256, size / 256 + 128 * core]
    ensures Header(core, size, false) == [size % 256, size / 256 + 128 * core, 0, 0]
  {
  }

  ghost function Encode(ps: seq<Packet>): seq<Byte>
    requires forall p :: p in ps ==> p.Valid()
  {
    if ps == [] then []
    else Encode(ps[..|ps| - 1]) + EncodeOne(ps[|ps| - 1])
  }

  ghost function EncodeOne(p: Packet): seq<Byte>
    requires p.Valid()
  {
    Header(p.core, |p.payload|, true) + p.payload
  }

  /** What a host recovers from a byte stream; Incomplete is a packet whose written size disagrees. */
  datatype Parsed = Done(packets: seq<Packet>) | Truncated(packets: seq<Packet>) | Incomplete(packets: seq<Packet>)

  /** The host's reader: mask the length out of block_sz, take bit 15 as the core, insist on wr_sz. */
  function Parse(s: seq<Byte>): Parsed
    decreases |s|
  {
    if s == [] then Done([])
    else if |s| < HEADER_SIZE then Truncated([])
    else
      var blockSz := FromLe16(s[..2]);
      var wrSz := FromLe16(s[2..4]);
      var len := blockSz % CORE_BIT;
      if wrSz != blockSz then Incomplete([])
      else if |s| < HEADER_SIZE + len then Truncated([])
      else
        var rest := Parse(s[HEADER_SIZE + len..]);
        rest.(packets := [Packet(blockSz / CORE_BIT, s[HEADER_SIZE..HEADER_SIZE + len])] + rest.packets)
  }

  lemma ParseOne(p: Packet, rest: seq<Byte>)
    requires p.Valid()
    ensures Parse(EncodeOne(p) + rest) == Parse(rest).(packets := [p] + Parse(rest).packets)
  {
    var s := EncodeOne(p) + rest;
    var len := |p.payload|;
    var v := BlockSz(p.core, len);
    assert s[..2] == Le16(v) && s[2..4] == Le16(v);
    assert FromLe16(Le16(v)) == v && v % CORE_BIT == len && v / CORE_BIT == p.core;
    assert s[HEADER_SIZE..HEADER_SIZE + len] == p.payload;
    assert s[HEADER_SIZE + len..] == rest;
  }

  lemma {:induction false} ParseEncoded(ps: seq<Packet>, rest: seq<Byte>)
    requires forall p :: p in ps ==> p.Valid()
    ensures Parse(Encode(ps) + rest) == Parse(rest).(packets := ps + Parse(rest).packets)
    decreases |ps|, 0
  {
    if ps == [] {
      assert Encode(ps) + rest == rest && ps + Parse(rest).packets == Parse(rest).packets;
    } else {
      ParseEncodedStep(ps[..|ps| - 1], ps[|ps| - 1], rest);
      assert ps[..|ps| - 1] + [ps[|ps| - 1]] == ps;
    }
  }

  lemma {:induction false} ParseEncodedStep(front: seq<Packet>, last: Packet, rest: seq<Byte>)
    requires last.Valid() && forall p :: p in front ==> p.Valid()
    ensures Parse(Encode(front) + EncodeOne(last) + rest)
         == Parse(rest).(packets := front + [last] + Parse(rest).packets)
    decreases |front|, 1
  {
    var more := EncodeOne(last) + rest;
    ParseEncoded(front, more);
    ParseOne(last, rest);
    AppendAssoc(Encode(front), EncodeOne(last), rest);
    AppendAssoc(front, [last], Parse(rest).packets);
  }

  lemma {:induction false} EncodeCons(p: Packet, ps: seq<Packet>)
    requires p.Valid() && forall q :: q in ps ==> q.Valid()
    ensures Encode([p] + ps) == EncodeOne(p) + Encode(ps)
    decreases |ps|
  {
    var all := [p] + ps;
    if ps == [] {
      assert all[..0] == [];
      assert Encode(all) == [] + EncodeOne(p);
    } else {
      var front := ps[..|ps| - 1];
      assert all[..|all| - 1] == [p] + front;
      EncodeCons(p, front);
      assert Encode(all) == (EncodeOne(p) + Encode(front)) + EncodeOne(ps[|ps| - 1]);
    }
  }

  /** A parse that reaches the end consumed exactly the encoding of what it returned. */
  lemma {:induction false} ParsedIsEncoded(s: seq<Byte>)
    requires Parse(s).Done?
    ensures forall p :: p in Parse(s).packets ==> p.Valid()
    ensures Encode(Parse(s).packets) == s
    decreases |s|
  {
    if s != [] {
      var v := FromLe16(s[..2]);
      var p := Packet(v / CORE_BIT, s[HEADER_SIZE..HEADER_SIZE + v % CORE_BIT]);
      var rest := s[HEADER_SIZE + v % CORE_BIT..];
      ParsedIsEncoded(rest);
      EncodeCons(p, Parse(rest).packets);
      FirstIsEncoded(s, v, p);
    }
  }

  lemma FirstIsEncoded(s: seq<Byte>, v: nat, p: Packet)
    requires HEADER_SIZE + v % CORE_BIT <= |s| && v == FromLe16(s[..2]) == FromLe16(s[2..4])
    requires p == Packet(v / CORE_BIT, s[HEADER_SIZE..HEADER_SIZE + v % CORE_BIT])
    ensures p.Valid() && s == EncodeOne(p) + s[HEADER_SIZE + v % CORE_BIT..]
  {
    assert Le16(v) == s[..2] && Le16(v) == s[2..4];
    assert BlockSz(p.core, |p.payload|) == v;
  }

  /** Framing round trip: the host recovers exactly the packets written, and reads no stream that
      is not the encoding of some packets. */
  lemma RoundTrip(s: seq<Byte>, ps: seq<Packet>)
    requires forall p :: p in ps ==> p.Valid()
    ensures Parse(s) == Done(ps) <==> s == Encode(ps)
  {
    if s == Encode(ps) {
      ParseEncoded(ps, []);
      assert Encode(ps) + [] == s && ps + [] == ps;
    }
    if Parse(s) == Done(ps) {
      ParsedIsEncoded(s);
    }
  }

  /** A host that stops reading anywhere in the stream has recovered a prefix of the packets written, and in it
      every packet it was shown in full. */
  lemma PrefixRecovers(s: seq<Byte>, ps: seq<Packet>)
    requires (forall p :: p in ps ==> p.Valid()) && s <= Encode(ps)
    ensures Parse(s).packets <= ps
    ensures forall k :: 0 <= k <= |ps| && Encode(ps[..k]) <= s ==> k <= |Parse(s).packets|
  {
    ParsedPrefix(s, ps);
    forall k | 0 <= k <= |ps| && Encode(ps[..k]) <= s ensures k <= |Parse(s).packets| {
      ShownInFull(s, ps[..k]);
    }
  }

  lemma ShownInFull(s: seq<Byte>, ps: seq<Packet>)
    requires (forall p :: p in ps ==> p.Valid()) && Encode(ps) <= s
    ensures |ps| <= |Parse(s).packets|
  {
    var rest := s[|Encode(ps)|..];
    ParseEncoded(ps, rest);
    assert s == Encode(ps) + rest;
  }

  lemma {:induction false} ParsedPrefix(s: seq<Byte>, ps: seq<Packet>)
    requires (forall p :: p in ps ==> p.Valid()) && s <= Encode(ps)
    ensures Parse(s).packets <= ps
    decreases |ps|
  {
    if ps != [] {
      var p, others := ps[0], ps[1..];
      assert ps == [p] + others;
      EncodeCons(p, others);
      var e := EncodeOne(p);
      if |e| <= |s| {
        var rest := s[|e|..];
        assert s == e + rest && rest <= Encode(others);
        ParseOne(p, rest);
        ParsedPrefix(rest, others);
      } else {
        CutPacket(s, p);
      }
    }
  }

  /** Nothing is recovered from an incomplete packet. */
  lemma CutPacket(s: seq<Byte>, p: Packet)
    requires p.Valid() && s <= EncodeOne(p) && |s| < |EncodeOne(p)|
    ensures Parse(s).packets == []
  {
    if |s| >= HEADER_SIZE {
      var v := BlockSz(p.core, |p.payload|);
      assert s[..2] == EncodeOne(p)[..2] == Le16(v);
      assert FromLe16(Le16(v)) == v && v % CORE_BIT == |p.payload|;
    }
  }

  /** A packet that was reserved but never put is reported, after everything before it was recovered. */
  lemma OpenPacketReported(ps: seq<Packet>, core: nat, size: nat, tail: seq<Byte>)
    requires forall p :: p in ps ==> p.Valid()
    requires core <= 1 && size < CORE_BIT && BlockSz(core, size) != 0
    ensures Parse(Encode(ps) + Header(core, size, false) + tail) == Incomplete(ps)
  {
    var v := BlockSz(core, size);
    var rest := Header(core, size, false) + tail;
    assert rest[..2] == Le16(v) && rest[2..4] == Le16(0);
    assert FromLe16(rest[..2]) == v && FromLe16(rest[2..4]) == 0;
    ParseEncoded(ps, rest);
    assert Encode(ps) + Header(core, size, false) + tail == Encode(ps) + rest && ps + [] == ps;
  }
}
