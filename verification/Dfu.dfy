/**
 mkdfu.py: the archive flashed over USB DFU, a "new ASCII" (newc) cpio archive led by an index and
 followed by a DFU suffix. A reader for each layer is defined next to what writes it.
 File names are the bytes of their UTF-8 form; MD5 and CRC-32 are parameters.
 */
module Dfu {
  import opened Bytes
  import opened Modular
  import opened Seqs
  import opened Wrappers

  const WORD := 0x1_0000_0000

  // ---------- hexadecimal and decimal numerals ----------

  function HexDigit(d: nat): Byte
    requires d < 16
  {
    if d < 10 then 48 + d else 87 + d
  }

  function HexValue(c: Byte): Option<nat> {
    if 48 <= c <= 57 then Some(c - 48)
    else if 97 <= c <= 102 then Some(c - 87)
    else if 65 <= c <= 70 then Some(c - 55)
    else None
  }

  /** Lower-case hexadecimal, padded with zeros to `width` digits but never cut. */
  function AsHex(v: nat, width: nat): (s: seq<Byte>)
    ensures |s| >= width
    decreases v + width
  {
    if v == 0 && width == 0 then []
    else AsHex(v / 16, if width == 0 then 0 else width - 1) + [HexDigit(v % 16)]
  }

  function ReadHex(s: seq<Byte>): Option<nat> {
    if s == [] then Some(0)
    else
      match (ReadHex(s[..|s| - 1]), HexValue(s[|s| - 1]))
      case (Some(high), Some(low)) => Some(16 * high + low)
      case _ => None
  }

  ghost function Power16(k: nat): (p: nat)
    ensures p >= 1
  {
    if k == 0 then 1 else 16 * Power16(k - 1)
  }

  lemma ReadHexLast(high: seq<Byte>, n: nat, d: nat)
    requires d < 16 && ReadHex(high) == Some(n)
    ensures ReadHex(high + [HexDigit(d)]) == Some(16 * n + d)
  {
    var s := high + [HexDigit(d)];
    assert s[..|s| - 1] == high && HexValue(HexDigit(d)) == Some(d);
  }

  lemma {:induction false} HexReadsBack(v: nat, width: nat)
    ensures ReadHex(AsHex(v, width)) == Some(v)
    decreases v + width
  {
    hide HexDigit, HexValue;
    if v != 0 || width != 0 {
      var less := if width == 0 then 0 else width - 1;
      HexReadsBack(v / 16, less);
      ReadHexLast(AsHex(v / 16, less), v / 16, v % 16);
      assert AsHex(v, width) == AsHex(v / 16, less) + [HexDigit(v % 16)];
    }
  }

  lemma {:induction false} HexWidth(v: nat, width: nat)
    requires v < Power16(width)
    ensures |AsHex(v, width)| == width
    decreases width
  {
    if width > 0 {
      HexWidth(v / 16, width - 1);
    }
  }

  lemma {:induction false} ReadHexBound(s: seq<Byte>)
    requires ReadHex(s).Some?
    ensures ReadHex(s).value < Power16(|s|)
    decreases |s|
  {
    if s != [] {
      ReadHexBound(s[..|s| - 1]);
    }
  }

  lemma EightDigits()
    ensures Power16(8) == WORD
  {
    assert Power16(2) == 0x100;
    assert Power16(4) == 0x1_0000;
    assert Power16(6) == 0x100_0000;
  }

  /** An 8-byte header field: packing cuts a longer numeral. */
  function Field(v: nat): (f: seq<Byte>)
    ensures |f| == 8
  {
    AsHex(v, 8)[..8]
  }

  /** A field reads back as the number put there exactly when that number fits 32 bits, and is made of
      digits 0 to 9 and a to f. */
  lemma FieldReadsBack(v: nat)
    ensures ReadHex(Field(v)) == Some(v) <==> v < WORD
    ensures forall k :: 0 <= k < 8 ==> 48 <= Field(v)[k] <= 57 || 97 <= Field(v)[k] <= 102
  {
    EightDigits();
    LowerCase(v, 8);
    forall k | 0 <= k < 8 ensures 48 <= Field(v)[k] <= 57 || 97 <= Field(v)[k] <= 102 {
      assert AsHex(v, 8)[k] in AsHex(v, 8);
    }
    if v < WORD {
      HexWidth(v, 8);
      HexReadsBack(v, 8);
      assert Field(v) == AsHex(v, 8);
    } else if ReadHex(Field(v)).Some? {
      ReadHexBound(Field(v));
    }
  }

  lemma {:induction false} LowerCase(v: nat, width: nat)
    ensures forall c :: c in AsHex(v, width) ==> 48 <= c <= 57 || 97 <= c <= 102
    decreases v + width
  {
    if v != 0 || width != 0 {
      LowerCase(v / 16, if width == 0 then 0 else width - 1);
    }
  }

  /** str(n). */
  function Decimal(n: nat): (s: seq<Byte>)
    ensures s != []
  {
    if n < 10 then [48 + n] else Decimal(n / 10) + [48 + n % 10]
  }

  function ReadDecimal(s: seq<Byte>): Option<nat> {
    if s == [] then Some(0)
    else
      match ReadDecimal(s[..|s| - 1])
      case None => None
      case Some(high) => if 48 <= s[|s| - 1] <= 57 then Some(10 * high + (s[|s| - 1] - 48)) else None
  }

  /** A decimal numeral without leading zeros. */
  lemma {:induction false} DecimalReadsBack(n: nat)
    ensures ReadDecimal(Decimal(n)) == Some(n) && (Decimal(n)[0] == 48 <==> n == 0)
    decreases n
  {
    var s := Decimal(n);
    if n < 10 {
      assert s[..0] == [] && ReadDecimal(s[..0]) == Some(0);
    } else {
      DecimalReadsBack(n / 10);
      assert s[..|s| - 1] == Decimal(n / 10) && s[0] == Decimal(n / 10)[0];
    }
  }

  // ---------- bytes ----------

  function Zeros(n: nat): (z: seq<Byte>)
    ensures |z| == n && forall i :: 0 <= i < n ==> z[i] == 0
  {
    seq(n, _ => 0)
  }

  function Le32(v: nat): (s: seq<Byte>)
    requires v < WORD
    ensures |s| == 4
  {
    Le16(v % 0x1_0000) + Le16(v / 0x1_0000)
  }

  function FromLe32(s: seq<Byte>): nat
    requires |s| == 4
  {
    FromLe16(s[..2]) + 0x1_0000 * FromLe16(s[2..])
  }

  lemma Le32ReadsBack(v: nat)
    requires v < WORD
    ensures FromLe32(Le32(v)) == v
  {
    assert Le32(v)[..2] == Le16(v % 0x1_0000) && Le32(v)[2..] == Le16(v / 0x1_0000);
  }

  function RoundUp(n: nat, multiple: nat): int
    requires multiple > 0
  {
    (n + multiple - 1) / multiple * multiple
  }

  /** The least multiple that is not smaller. */
  lemma RoundUpIs(n: nat, multiple: nat)
    requires multiple > 0
    ensures n <= RoundUp(n, multiple) < n + multiple
    ensures RoundUp(n, multiple) % multiple == 0
  {
    DivMod(n + multiple - 1, multiple);
    ModIs(RoundUp(n, multiple), multiple, (n + multiple - 1) / multiple, 0);
  }

  function Pad(b: seq<Byte>, multiple: nat): (p: seq<Byte>)
    requires multiple > 0
    ensures |p| == RoundUp(|b|, multiple) && b <= p
  {
    RoundUpIs(|b|, multiple);
    b + Zeros(RoundUp(|b|, multiple) - |b|)
  }

  /** Padding keeps the bytes and adds zeros, less than one multiple of them. */
  lemma PadIs(b: seq<Byte>, multiple: nat)
    requires multiple > 0
    ensures var p := Pad(b, multiple);
            && |p| % multiple == 0 && |b| <= |p| < |b| + multiple && p[..|b|] == b
            && forall k :: |b| <= k < |p| ==> p[k] == 0
  {
    RoundUpIs(|b|, multiple);
  }

  function Join(parts: seq<seq<Byte>>): seq<Byte> {
    if parts == [] then [] else parts[0] + Join(parts[1..])
  }

  lemma {:induction false} JoinAppend(a: seq<seq<Byte>>, b: seq<seq<Byte>>)
    ensures Join(a + b) == Join(a) + Join(b)
    decreases |a|
  {
    if a == [] {
      assert a + b == b;
    } else {
      assert (a + b)[1..] == a[1..] + b;
      JoinAppend(a[1..], b);
    }
  }

  lemma JoinOne(a: seq<Byte>)
    ensures Join([a]) == a
  {
    assert [a][1..] == [];
  }

  // ---------- cpio ----------

  const MAGIC: seq<Byte> := [48, 55, 48, 55, 48, 49]
  const HEADER_SIZE := 110
  /** 0o100644 */
  const REGULAR := 33188
  /** "TRAILER!!!" */
  const TRAILER: seq<Byte> := [84, 82, 65, 73, 76, 69, 82, 33, 33, 33]
  /** "dfuinfo0.dat" */
  const DFUINFO: seq<Byte> := [100, 102, 117, 105, 110, 102, 111, 48, 46, 100, 97, 116]
  /** Positions among the 13 numeric fields. */
  const FILESIZE := 6
  const NAMESIZE := 11

  /** The numeric fields in order, from ino to check. */
  function HeaderFields(nameLen: nat, fileLen: nat, trailer: bool): (f: seq<nat>)
    ensures |f| == 13
  {
    [0, if trailer then 0 else REGULAR, 0, 0, if trailer then 1 else 0, 0, fileLen, 0, 0, 0, 0, nameLen, 0]
  }

  function Fields(vs: seq<nat>): (s: seq<Byte>)
    ensures |s| == 8 * |vs|
  {
    if vs == [] then [] else Field(vs[0]) + Fields(vs[1..])
  }

  function Header(nameLen: nat, fileLen: nat, trailer: bool): (h: seq<Byte>)
    ensures |h| == HEADER_SIZE
  {
    MAGIC + Fields(HeaderFields(nameLen, fileLen, trailer))
  }

  function Entry(name: seq<Byte>, data: seq<Byte>, trailer: bool): seq<Byte> {
    Pad(Header(|name| + 1, |data|, trailer) + name + [0], 4) + Pad(data, 4)
  }

  /** What a reader recovers of one entry. */
  datatype Member = Member(fields: seq<nat>, name: seq<Byte>, data: seq<Byte>)

  function ReadFields(s: seq<Byte>, n: nat): (r: Option<seq<nat>>)
    requires |s| >= 8 * n
    ensures r.Some? ==> |r.value| == n
  {
    if n == 0 then Some([])
    else
      match (ReadHex(s[..8]), ReadFields(s[8..], n - 1))
      case (Some(v), Some(vs)) => Some([v] + vs)
      case _ => None
  }

  /** The first entry of a newc archive and the number of bytes it takes. */
  function ReadEntry(s: seq<Byte>): (r: Option<(Member, nat)>)
    ensures r.Some? ==> 0 < r.value.1 <= |s|
  {
    if |s| < HEADER_SIZE || s[..6] != MAGIC then None
    else
      match ReadFields(s[6..], 13)
      case None => None
      case Some(f) =>
        RoundUpIs(HEADER_SIZE + f[NAMESIZE], 4);
        var dataAt := RoundUp(HEADER_SIZE + f[NAMESIZE], 4);
        RoundUpIs(dataAt + f[FILESIZE], 4);
        var end := RoundUp(dataAt + f[FILESIZE], 4);
        var nameEnd := HEADER_SIZE + f[NAMESIZE] - 1;
        if f[NAMESIZE] == 0 || end > |s| || s[nameEnd] != 0 then None
        else Some((Member(f, s[HEADER_SIZE..nameEnd], s[dataAt..dataAt + f[FILESIZE]]), end))
  }

  /** Entries up to and including the trailer; None when the archive is malformed before it. */
  function ReadArchive(s: seq<Byte>): Option<seq<Member>>
    decreases |s|
  {
    match ReadEntry(s)
    case None => None
    case Some((m, n)) =>
      if m.name == TRAILER then Some([m])
      else
        match ReadArchive(s[n..])
        case None => None
        case Some(ms) => Some([m] + ms)
  }

  lemma {:induction false} FieldsReadBack(vs: seq<nat>, rest: seq<Byte>)
    ensures ReadFields(Fields(vs) + rest, |vs|) == Some(vs) <==> forall i :: 0 <= i < |vs| ==> vs[i] < WORD
    decreases |vs|
  {
    if vs != [] {
      var s := Fields(vs) + rest;
      assert s[..8] == Field(vs[0]);
      assert s[8..] == Fields(vs[1..]) + rest;
      FieldReadsBack(vs[0]);
      FieldsReadBack(vs[1..], rest);
      assert [vs[0]] + vs[1..] == vs;
      assert (forall i :: 0 <= i < |vs| ==> vs[i] < WORD)
        <==> vs[0] < WORD && forall i :: 0 <= i < |vs[1..]| ==> vs[1..][i] < WORD;
      var r := ReadFields(s, |vs|);
      if r == Some(vs) {
        assert ReadFields(s[8..], |vs| - 1) == Some(r.value[1..]);
      }
    }
  }

  predicate Fits(name: seq<Byte>, data: seq<Byte>) {
    |name| + 1 < WORD && |data| < WORD
  }

  function MemberOf(name: seq<Byte>, data: seq<Byte>, trailer: bool): Member {
    Member(HeaderFields(|name| + 1, |data|, trailer), name, data)
  }

  lemma HeaderReadsBack(nameLen: nat, fileLen: nat, trailer: bool, rest: seq<Byte>)
    ensures var s := Header(nameLen, fileLen, trailer) + rest;
            s[..6] == MAGIC
            && (ReadFields(s[6..], 13) == Some(HeaderFields(nameLen, fileLen, trailer))
                <==> nameLen < WORD && fileLen < WORD)
  {
    var f := HeaderFields(nameLen, fileLen, trailer);
    var s := Header(nameLen, fileLen, trailer) + rest;
    assert s[6..] == Fields(f) + rest;
    FieldsReadBack(f, rest);
    if nameLen < WORD && fileLen < WORD {
      assert forall i :: 0 <= i < 13 ==> f[i] < WORD;
    } else {
      assert f[FILESIZE] == fileLen && f[NAMESIZE] == nameLen;
    }
  }

  lemma {:induction false} FieldAt(front: seq<Byte>, vs: seq<nat>, i: nat, at: nat)
    requires i < |vs| && at == |front| + 8 * i
    ensures (front + Fields(vs))[at..at + 8] == Field(vs[i])
    decreases i
  {
    var f, rest := Field(vs[0]), Fields(vs[1..]);
    if i == 0 {
      SliceMiddle(front, f, rest);
    } else {
      FieldAt(front + f, vs[1..], i - 1, at);
      AppendAssoc(front, f, rest);
    }
  }

  lemma SliceMiddle(a: seq<Byte>, b: seq<Byte>, c: seq<Byte>)
    ensures (a + (b + c))[|a|..|a| + |b|] == b
  {
  }

  /** The number in the field at an offset. */
  function HexAt(h: seq<Byte>, at: nat): Option<nat>
    requires at + 8 <= |h|
  {
    ReadHex(h[at..at + 8])
  }

  lemma FieldBehind(front: seq<Byte>, vs: seq<nat>, i: nat, at: nat)
    requires i < |vs| && at == |front| + 8 * i && vs[i] < WORD
    ensures HexAt(front + Fields(vs), at) == Some(vs[i])
  {
    FieldAt(front, vs, i, at);
    FieldReadsBack(vs[i]);
  }

  /** The header byte by byte: the magic number, mode, number of links, sizes of file and name at the offsets
      the newc layout gives them, and 0 in every other field. */
  lemma HeaderLayout(nameLen: nat, fileLen: nat, trailer: bool)
    requires nameLen < WORD && fileLen < WORD
    ensures var h := Header(nameLen, fileLen, trailer);
            && h[..6] == [48, 55, 48, 55, 48, 49]
            && HexAt(h, 14) == Some(if trailer then 0 else REGULAR) && HexAt(h, 38) == Some(if trailer then 1 else 0)
            && HexAt(h, 54) == Some(fileLen) && HexAt(h, 94) == Some(nameLen)
            && HexAt(h, 6) == HexAt(h, 22) == HexAt(h, 30) == HexAt(h, 46) == HexAt(h, 62) == Some(0)
            && HexAt(h, 70) == HexAt(h, 78) == HexAt(h, 86) == HexAt(h, 102) == Some(0)
  {
    hide Field, Fields, HexAt, ReadHex;
    var f := HeaderFields(nameLen, fileLen, trailer);
    FieldBehind(MAGIC, f, 0, 6);
    FieldBehind(MAGIC, f, 1, 14);
    FieldBehind(MAGIC, f, 2, 22);
    FieldBehind(MAGIC, f, 3, 30);
    FieldBehind(MAGIC, f, 4, 38);
    FieldBehind(MAGIC, f, 5, 46);
    FieldBehind(MAGIC, f, 6, 54);
    FieldBehind(MAGIC, f, 7, 62);
    FieldBehind(MAGIC, f, 8, 70);
    FieldBehind(MAGIC, f, 9, 78);
    FieldBehind(MAGIC, f, 10, 86);
    FieldBehind(MAGIC, f, 11, 94);
    FieldBehind(MAGIC, f, 12, 102);
  }

  /** Where the parts of an entry lie. */
  lemma EntryParts(name: seq<Byte>, data: seq<Byte>, trailer: bool, rest: seq<Byte>)
    ensures var s, e := Entry(name, data, trailer) + rest, Entry(name, data, trailer);
            var nameEnd := HEADER_SIZE + |name|;
            var dataAt := RoundUp(nameEnd + 1, 4);
            && nameEnd < dataAt && dataAt + |data| <= |e| == RoundUp(dataAt + |data|, 4)
            && s[..HEADER_SIZE] == Header(|name| + 1, |data|, trailer)
            && s[HEADER_SIZE..nameEnd] == name && s[nameEnd] == 0
            && s[dataAt..dataAt + |data|] == data && s[|e|..] == rest
  {
    PartsOf(Header(|name| + 1, |data|, trailer), name, data, rest);
  }

  lemma PartsOf(h: seq<Byte>, name: seq<Byte>, data: seq<Byte>, rest: seq<Byte>)
    requires |h| == HEADER_SIZE
    ensures var e := Pad(h + name + [0], 4) + Pad(data, 4);
            var s := e + rest;
            var nameEnd := HEADER_SIZE + |name|;
            var dataAt := RoundUp(nameEnd + 1, 4);
            && nameEnd < dataAt && dataAt + |data| <= |e| == RoundUp(dataAt + |data|, 4)
            && s[..HEADER_SIZE] == h && s[HEADER_SIZE..nameEnd] == name && s[nameEnd] == 0
            && s[dataAt..dataAt + |data|] == data && s[|e|..] == rest
  {
    var front := h + name + [0];
    var p, q := Pad(front, 4), Pad(data, 4);
    RoundUpIs(|front|, 4);
    RoundUpIs(|data|, 4);
    var s := p + q + rest;
    assert s[..|front|] == front;
    assert s[..HEADER_SIZE] == front[..HEADER_SIZE] == h;
    assert s[HEADER_SIZE..HEADER_SIZE + |name|] == front[HEADER_SIZE..HEADER_SIZE + |name|] == name;
    assert s[|p|..|p| + |data|] == q[..|data|];
  }

  lemma ReadGiven(s: seq<Byte>, f: seq<nat>, name: seq<Byte>, data: seq<Byte>, dataAt: nat, end: nat)
    requires |s| >= HEADER_SIZE && s[..6] == MAGIC && ReadFields(s[6..], 13) == Some(f) && |f| == 13
    requires f[NAMESIZE] == |name| + 1 && f[FILESIZE] == |data|
    requires dataAt == RoundUp(HEADER_SIZE + |name| + 1, 4) && end == RoundUp(dataAt + |data|, 4) <= |s|
    requires HEADER_SIZE + |name| < dataAt && dataAt + |data| <= |s|
    requires s[HEADER_SIZE..HEADER_SIZE + |name|] == name && s[HEADER_SIZE + |name|] == 0
    requires s[dataAt..dataAt + |data|] == data
    ensures ReadEntry(s) == Some((Member(f, name, data), end))
  {
  }

  lemma FieldsOfRead(s: seq<Byte>)
    requires ReadEntry(s).Some?
    ensures |s| >= HEADER_SIZE && ReadFields(s[6..], 13) == Some(ReadEntry(s).value.0.fields)
  {
  }

  /** An entry reads back, whatever follows it, exactly when its sizes fit their fields. */
  lemma EntryReadsBack(name: seq<Byte>, data: seq<Byte>, trailer: bool, rest: seq<Byte>)
    ensures var e := Entry(name, data, trailer);
            var r := ReadEntry(e + rest);
            && (Fits(name, data) ==> r == Some((MemberOf(name, data, trailer), |e|)))
            && (!Fits(name, data) && r.Some? ==> r.value.0 != MemberOf(name, data, trailer))
            && (e + rest)[|e|..] == rest
  {
    var e := Entry(name, data, trailer);
    EntryParts(name, data, trailer, rest);
    EntryBy(e + rest, |e|, name, data, trailer);
  }

  lemma EntryBy(s: seq<Byte>, n: nat, name: seq<Byte>, data: seq<Byte>, trailer: bool)
    requires var nameEnd := HEADER_SIZE + |name|;
             var dataAt := RoundUp(nameEnd + 1, 4);
             && nameEnd < dataAt && dataAt + |data| <= n <= |s| && n == RoundUp(dataAt + |data|, 4)
             && s[..HEADER_SIZE] == Header(|name| + 1, |data|, trailer)
             && s[HEADER_SIZE..nameEnd] == name && s[nameEnd] == 0
             && s[dataAt..dataAt + |data|] == data
    ensures Fits(name, data) ==> ReadEntry(s) == Some((MemberOf(name, data, trailer), n))
    ensures !Fits(name, data) && ReadEntry(s).Some? ==> ReadEntry(s).value.0 != MemberOf(name, data, trailer)
  {
    var h := Header(|name| + 1, |data|, trailer);
    assert s == h + s[HEADER_SIZE..];
    HeaderReadsBack(|name| + 1, |data|, trailer, s[HEADER_SIZE..]);
    if Fits(name, data) {
      var dataAt := RoundUp(HEADER_SIZE + |name| + 1, 4);
      ReadGiven(s, HeaderFields(|name| + 1, |data|, trailer), name, data, dataAt, n);
    } else if ReadEntry(s).Some? {
      FieldsOfRead(s);
    }
  }

  /** A file of the archive. */
  datatype File = File(name: seq<Byte>, data: seq<Byte>)

  predicate Plain(f: File) {
    Fits(f.name, f.data) && f.name != TRAILER
  }

  /** The entries of the files, then the trailer. */
  function Archive(files: seq<File>): seq<Byte> {
    if files == [] then Entry(TRAILER, [], true)
    else Entry(files[0].name, files[0].data, false) + Archive(files[1..])
  }

  function Members(files: seq<File>): seq<Member> {
    if files == [] then [MemberOf(TRAILER, [], true)]
    else [MemberOf(files[0].name, files[0].data, false)] + Members(files[1..])
  }

  lemma TakeHead<T>(x: T, xs: seq<T>, y: T, ys: seq<T>)
    ensures [x] + xs == [y] + ys <==> x == y && xs == ys
  {
    if [x] + xs == [y] + ys {
      assert ([x] + xs)[0] == x && ([x] + xs)[1..] == xs;
      assert ([y] + ys)[0] == y && ([y] + ys)[1..] == ys;
    }
  }

  /** Archive round trip: reading yields every file in order and then the trailer, exactly when all sizes
      fit 32 bits and no file bears the trailer's name. */
  lemma {:induction false} ArchiveReadsBack(files: seq<File>, rest: seq<Byte>)
    ensures ReadArchive(Archive(files) + rest) == Some(Members(files)) <==> forall f :: f in files ==> Plain(f)
    decreases |files|
  {
    if files == [] {
      EntryReadsBack(TRAILER, [], true, rest);
    } else {
      var f, others := files[0], files[1..];
      var e, more := Entry(f.name, f.data, false), Archive(others) + rest;
      ArchiveReadsBack(others, rest);
      EntryReadsBack(f.name, f.data, false, more);
      FirstOfArchive(e + more, |e|, f, others, more);
      AppendAssoc(e, Archive(others), rest);
      assert (forall g :: g in files ==> Plain(g)) <==> Plain(f) && forall g :: g in others ==> Plain(g);
    }
  }

  lemma {:induction false} MembersAt(files: seq<File>, i: nat)
    requires i < |files|
    ensures |Members(files)| == |files| + 1
    ensures Members(files)[i] == MemberOf(files[i].name, files[i].data, false)
    decreases |files|
  {
    if i > 0 {
      MembersAt(files[1..], i - 1);
    } else if |files| > 1 {
      MembersAt(files[1..], 0);
    }
  }

  lemma FirstOfArchive(s: seq<Byte>, n: nat, f: File, files: seq<File>, more: seq<Byte>)
    requires n <= |s| && s[n..] == more
    requires Fits(f.name, f.data) ==> ReadEntry(s) == Some((MemberOf(f.name, f.data, false), n))
    requires !Fits(f.name, f.data) && ReadEntry(s).Some? ==>
               ReadEntry(s).value.0 != MemberOf(f.name, f.data, false)
    ensures ReadArchive(s) == Some([MemberOf(f.name, f.data, false)] + Members(files))
            <==> Plain(f) && ReadArchive(more) == Some(Members(files))
  {
    if ReadEntry(s).Some? {
      var (m, n) := ReadEntry(s).value;
      var want := MemberOf(f.name, f.data, false);
      if m.name == TRAILER {
        TakeHead(m, [], want, Members(files));
        assert [m] + [] == [m];
        assert |Members(files)| > 0;
      } else if ReadArchive(s[n..]).Some? {
        TakeHead(m, ReadArchive(s[n..]).value, want, Members(files));
      }
    }
  }

  // ---------- the index ----------

  type Digest = d: seq<Byte> | |d| == 16 witness Zeros(16)

  const RECORD_SIZE := 88
  const NAME_SIZE := 64

  /** DFUInfo. */
  datatype Info = Info(address: int, flags: nat, name: seq<Byte>, md5: Digest)

  /** Whether packing the record raises no error. */
  predicate Packable(i: Info) {
    0 <= i.address < WORD && i.flags < WORD
  }

  /** Packing '64s': cut or filled with zeros. */
  function FixedName(name: seq<Byte>): (s: seq<Byte>)
    ensures |s| == NAME_SIZE
    ensures forall k :: 0 <= k < NAME_SIZE ==> s[k] == if k < |name| then name[k] else 0
  {
    if |name| >= NAME_SIZE then name[..NAME_SIZE] else name + Zeros(NAME_SIZE - |name|)
  }

  function Record(i: Info): (s: seq<Byte>)
    requires Packable(i)
    ensures |s| == RECORD_SIZE
  {
    Le32(i.address) + Le32(i.flags) + FixedName(i.name) + i.md5
  }

  function Index(infos: seq<Info>): (s: seq<Byte>)
    requires forall i :: i in infos ==> Packable(i)
    ensures |s| == RECORD_SIZE * |infos|
  {
    if infos == [] then [] else Record(infos[0]) + Index(infos[1..])
  }

  /** The bytes before the first NUL. */
  function Stem(s: seq<Byte>): seq<Byte> {
    if s == [] || s[0] == 0 then [] else [s[0]] + Stem(s[1..])
  }

  function ReadRecord(s: seq<Byte>): Info
    requires |s| == RECORD_SIZE
  {
    Info(FromLe32(s[..4]), FromLe32(s[4..8]), Stem(s[8..72]), s[72..])
  }

  lemma {:induction false} StemOf(name: seq<Byte>, rest: seq<Byte>)
    requires rest == [] || rest[0] == 0
    ensures Stem(name + rest) == name <==> 0 !in name
    decreases |name|
  {
    if name == [] {
      assert name + rest == rest;
    } else {
      assert (name + rest)[1..] == name[1..] + rest;
      StemOf(name[1..], rest);
      TakeHead(name[0], Stem(name[1..] + rest), name[0], name[1..]);
      assert [name[0]] + name[1..] == name;
    }
  }

  lemma {:induction false} StemLength(s: seq<Byte>)
    ensures |Stem(s)| <= |s|
    decreases |s|
  {
    if s != [] {
      StemLength(s[1..]);
    }
  }

  /** Record i of the index describes flash entry i: always by address, flags and digest, and by its whole
      name exactly when that has at most 64 bytes and no NUL. */
  lemma {:induction false} RecordAt(infos: seq<Info>, i: nat)
    requires i < |infos| && forall info :: info in infos ==> Packable(info)
    ensures RECORD_SIZE * i + RECORD_SIZE <= |Index(infos)|
    ensures var r := ReadRecord(Index(infos)[RECORD_SIZE * i..RECORD_SIZE * i + RECORD_SIZE]);
            && r.(name := []) == infos[i].(name := [])
            && (r.name == infos[i].name <==> |infos[i].name| <= NAME_SIZE && 0 !in infos[i].name)
    decreases i
  {
    if i == 0 {
      assert Index(infos)[..RECORD_SIZE] == Record(infos[0]);
      assert Index(infos)[RECORD_SIZE * i..RECORD_SIZE * i + RECORD_SIZE] == Record(infos[0]);
      RecordReadsBack(infos[0]);
    } else {
      RecordAt(infos[1..], i - 1);
      assert infos[1..][i - 1] == infos[i];
      Later(Record(infos[0]), Index(infos[1..]), RECORD_SIZE * (i - 1));
    }
  }

  lemma Later(a: seq<Byte>, b: seq<Byte>, at: nat)
    requires |a| == RECORD_SIZE && at + RECORD_SIZE <= |b|
    ensures (a + b)[at + RECORD_SIZE..at + 2 * RECORD_SIZE] == b[at..at + RECORD_SIZE]
  {
  }

  lemma RecordReadsBack(info: Info)
    requires Packable(info)
    ensures var r := ReadRecord(Record(info));
            && r.(name := []) == info.(name := [])
            && (r.name == info.name <==> |info.name| <= NAME_SIZE && 0 !in info.name)
  {
    var s := Record(info);
    assert s[..4] == Le32(info.address) && s[4..8] == Le32(info.flags);
    assert s[8..72] == FixedName(info.name) && s[72..] == info.md5;
    Le32ReadsBack(info.address);
    Le32ReadsBack(info.flags);
    if |info.name| <= NAME_SIZE {
      var rest := Zeros(NAME_SIZE - |info.name|);
      assert FixedName(info.name) == info.name + rest;
      StemOf(info.name, rest);
    } else {
      StemLength(FixedName(info.name));
    }
  }

  // ---------- the DFU suffix ----------

  const ESPRESSIF_VID := 12346
  const SUFFIX_SIZE := 16
  const BLOCK_SIZE := 10240

  type Crc = seq<Byte> -> nat

  /** dfu_crc: the complement of the CRC-32. */
  function DfuCrc(crc32: Crc, data: seq<Byte>): (v: nat)
    ensures v < WORD
  {
    WORD - 1 - crc32(data) % WORD
  }

  /** The suffix without its checksum. */
  function Suffix(pid: nat): (s: seq<Byte>)
    requires pid < 0x1_0000
    ensures |s| == 12
  {
    Le16(0xFFFF) + Le16(pid) + Le16(ESPRESSIF_VID) + Le16(0x0100) + [85, 70, 68] + [SUFFIX_SIZE]
  }

  datatype Image = Image(device: nat, pid: nat, vid: nat, members: Option<seq<Member>>)

  /** A DFU file: None unless its suffix has the signature, length, version and checksum the format asks for. */
  function ReadImage(crc32: Crc, s: seq<Byte>): Option<Image> {
    if |s| < SUFFIX_SIZE then None
    else
      var n := |s| - SUFFIX_SIZE;
      var t := s[n..];
      if t[8..12] != [85, 70, 68, SUFFIX_SIZE] || FromLe16(t[6..8]) != 0x0100
         || FromLe32(t[12..]) + crc32(s[..n + 12]) % WORD != 0xFFFF_FFFF
      then None
      else Some(Image(FromLe16(t[..2]), FromLe16(t[2..4]), FromLe16(t[4..6]), ReadArchive(s[..n])))
  }

  lemma SuffixReadsBack(crc32: Crc, body: seq<Byte>, pid: nat)
    requires pid < 0x1_0000
    ensures var s := body + Suffix(pid);
            ReadImage(crc32, s + Le32(DfuCrc(crc32, s)))
              == Some(Image(0xFFFF, pid, ESPRESSIF_VID, ReadArchive(body)))
  {
    var front := body + Suffix(pid);
    var s := front + Le32(DfuCrc(crc32, front));
    var t := s[|body|..];
    var n := |s| - SUFFIX_SIZE;
    assert n == |body| && s[n..] == t && s[..n + 12] == front;
    assert s[..n] == body;
    assert t == Suffix(pid) + Le32(DfuCrc(crc32, front));
    assert t[..2] == Le16(0xFFFF) && t[2..4] == Le16(pid) && t[4..6] == Le16(ESPRESSIF_VID);
    assert t[6..8] == Le16(0x0100) && t[8..12] == [85, 70, 68, SUFFIX_SIZE];
    assert t[12..] == Le32(DfuCrc(crc32, front));
    Le32ReadsBack(DfuCrc(crc32, front));
  }

  // ---------- splitting a file ----------

  /** What one flash entry holds. */
  datatype Item = Item(name: seq<Byte>, address: int, flags: nat, data: seq<Byte>)

  /** "app.bin", "app.bin.1", "app.bin.2", ... */
  function ChunkName(name: seq<Byte>, i: nat): seq<Byte> {
    if i == 0 then name else name + [46] + Decimal(i)
  }

  /** Behind the first, the name of chunk i is that of the file, a dot and the decimal numeral of i. */
  lemma ChunkNameReads(name: seq<Byte>, i: nat)
    ensures ChunkName(name, 0) == name && ChunkName(name, 1) == name + [46, 49]
    ensures name <= ChunkName(name, i)
    ensures i > 0 ==>
              var rest := ChunkName(name, i)[|name|..];
              |rest| > 1 && rest[0] == 46 && rest[1] != 48 && ReadDecimal(rest[1..]) == Some(i)
  {
    if i > 0 {
      DecimalReadsBack(i);
      assert ChunkName(name, i)[|name|..] == [46] + Decimal(i);
      assert ([46] + Decimal(i))[1..] == Decimal(i);
    }
  }

  /** No two chunks of a file share a name. */
  lemma ChunkNamesDiffer(name: seq<Byte>, i: nat, j: nat)
    requires ChunkName(name, i) == ChunkName(name, j)
    ensures i == j
  {
    ChunkNameReads(name, i);
    ChunkNameReads(name, j);
  }

  function Datas(items: seq<Item>): seq<Byte> {
    if items == [] then [] else Datas(items[..|items| - 1]) + items[|items| - 1].data
  }

  /** The chunks follow each other in flash, are named in order, and all but the last are full. */
  ghost predicate Chunked(items: seq<Item>, name: seq<Byte>, address: int, size: int) {
    && (forall i :: 0 <= i < |items| ==>
          items[i].name == ChunkName(name, i) && items[i].flags == 0 && items[i].data != [])
    && (forall i :: 0 <= i < |items| - 1 ==> |items[i].data| == size)
    && (items != [] && size > 0 ==> |items[|items| - 1].data| <= size)
    && (items != [] ==> items[0].address == address)
    && (forall i :: 0 < i < |items| ==> items[i].address == items[i - 1].address + |items[i - 1].data|)
  }

  /** Chunk i starts i * size into the file, and into its flash range. */
  lemma {:induction false} ChunkPlaces(items: seq<Item>, name: seq<Byte>, address: int, size: nat, i: nat)
    requires Chunked(items, name, address, size) && i < |items| && size > 0
    ensures items[i].address == address + i * size
    ensures 0 <= i * size && i * size + |items[i].data| <= |Datas(items)|
    ensures Datas(items)[i * size..i * size + |items[i].data|] == items[i].data
  {
    DataOf(items, size, i);
    Product(i, size);
    AddressOf(items, name, address, size, i);
  }

  lemma {:induction false} AddressOf(items: seq<Item>, name: seq<Byte>, address: int, size: nat, i: nat)
    requires Chunked(items, name, address, size) && i < |items|
    ensures items[i].address == address + i * size
  {
    if i > 0 {
      AddressOf(items, name, address, size, i - 1);
      Distribute(i, 1, size);
    }
  }

  lemma {:induction false} DataOf(items: seq<Item>, size: nat, i: nat)
    requires i < |items| && forall k :: 0 <= k < |items| - 1 ==> |items[k].data| == size
    ensures 0 <= i * size && i * size + |items[i].data| <= |Datas(items)|
    ensures Datas(items)[i * size..i * size + |items[i].data|] == items[i].data
    decreases |items|
  {
    var front := items[..|items| - 1];
    Product(i, size);
    if i == |items| - 1 {
      FullLength(front, size);
    } else {
      assert front[i] == items[i];
      DataOf(front, size, i);
    }
  }

  lemma {:induction false} FullLength(items: seq<Item>, size: nat)
    requires forall k :: 0 <= k < |items| ==> |items[k].data| == size
    ensures |Datas(items)| == |items| * size
    decreases |items|
  {
    if items != [] {
      FullLength(items[..|items| - 1], size);
      Distribute(|items|, 1, size);
    }
  }

  /** f.read(n). */
  function ReadChunk(content: seq<Byte>, at: nat, n: int): seq<Byte>
    requires at <= |content|
  {
    if n < 0 || at + n > |content| then content[at..] else content[at..at + n]
  }

  lemma ReadChunkIs(content: seq<Byte>, at: nat, n: int)
    requires at <= |content|
    ensures var chunk := ReadChunk(content, at, n);
            && at + |chunk| <= |content| && content[..at] + chunk == content[..at + |chunk|]
            && (chunk == [] <==> at == |content| || n == 0)
            && (at + |chunk| < |content| ==> |chunk| == n) && (n > 0 ==> |chunk| <= n)
  {
  }

  lemma MoreChunks(items: seq<Item>, it: Item, name: seq<Byte>, address: int, size: int)
    requires Chunked(items, name, address, size)
    requires it.name == ChunkName(name, |items|) && it.flags == 0 && it.data != []
    requires size > 0 ==> |it.data| <= size
    requires items == [] ==> it.address == address
    requires items != [] ==>
               var last := items[|items| - 1];
               |last.data| == size && it.address == last.address + |last.data|
    ensures Chunked(items + [it], name, address, size)
  {
    var more := items + [it];
    forall i | 0 <= i < |more|
      ensures more[i].name == ChunkName(name, i) && more[i].flags == 0 && more[i].data != []
      ensures i < |items| ==> |more[i].data| == size
      ensures i > 0 ==> more[i].address == more[i - 1].address + |more[i - 1].data|
    {
      if i < |items| {
        assert more[i] == items[i];
      }
    }
  }

  lemma DatasSnoc(items: seq<Item>, it: Item)
    ensures Datas(items + [it]) == Datas(items) + it.data
  {
    assert (items + [it])[..|items|] == items;
  }

  /** The chunks of a whole file: joined they are the file, unless the chunk size is 0; then there are none. */
  ghost predicate IsSplit(items: seq<Item>, name: seq<Byte>, address: int, size: int, content: seq<Byte>) {
    && Chunked(items, name, address, size) && (size == 0 ==> items == [])
    && (Datas(items) == content <==> size != 0 || content == [])
  }

  lemma NothingSplit(name: seq<Byte>, address: int, size: int, content: seq<Byte>)
    ensures SplitSoFar([], name, address, size, content, 0)
  {
  }

  /** The first pos bytes of the file were split. */
  ghost predicate SplitSoFar(items: seq<Item>, name: seq<Byte>, address: int, size: int, content: seq<Byte>, pos: nat)
    requires pos <= |content|
  {
    && Chunked(items, name, address, size) && Datas(items) == content[..pos]
    && (items == [] <==> pos == 0) && (size == 0 ==> items == [])
    && (items != [] ==>
          var last := items[|items| - 1];
          last.address + |last.data| == address + pos && (pos < |content| ==> |last.data| == size))
  }

  lemma NextChunk(items: seq<Item>, it: Item, name: seq<Byte>, address: int, size: int, content: seq<Byte>, pos: nat)
    requires pos <= |content| && SplitSoFar(items, name, address, size, content, pos)
    requires it == Item(ChunkName(name, |items|), address + pos, 0, ReadChunk(content, pos, size)) && it.data != []
    ensures pos + |it.data| <= |content|
    ensures SplitSoFar(items + [it], name, address, size, content, pos + |it.data|)
  {
    ReadChunkIs(content, pos, size);
    MoreChunks(items, it, name, address, size);
    DatasSnoc(items, it);
  }

  lemma LastChunk(items: seq<Item>, name: seq<Byte>, address: int, size: int, content: seq<Byte>, pos: nat)
    requires pos <= |content| && SplitSoFar(items, name, address, size, content, pos)
    requires ReadChunk(content, pos, size) == []
    ensures IsSplit(items, name, address, size, content)
  {
    ReadChunkIs(content, pos, size);
    assert content[..|content|] == content;
  }

  // ---------- the writer ----------

  const FLASH_PARAMS: seq<Byte> := [102, 108, 97, 115, 104, 95, 112, 97, 114, 97, 109, 115, 46, 100, 97, 116]
  /** PARAM, NOERASE and IGNORE_MD5. */
  const PARAM_FLAGS := 28

  /** The fields of the flashchip structure: ishspi, legacy and deviceId are 0; then chip, block, sector and
      page size and the status mask. */
  ghost predicate IsFlashParams(data: seq<Byte>, chipSize: nat) {
    && |data| == 32 && data[..12] == Zeros(12) && FromLe32(data[12..16]) == chipSize
    && FromLe32(data[16..20]) == 0x1_0000 && FromLe32(data[20..24]) == 0x1000
    && FromLe32(data[24..28]) == 256 && FromLe32(data[28..]) == 0xFFFF
  }

  function FlashParams(chipSize: nat): (data: seq<Byte>)
    requires chipSize < WORD
    ensures |data| == 32
  {
    Le32(0) + Le32(0) + Le32(0) + Le32(chipSize) + Le32(64 * 1024) + Le32(4 * 1024) + Le32(256) + Le32(0xFFFF)
  }

  lemma FlashParamsRead(chipSize: nat)
    requires chipSize < WORD
    ensures IsFlashParams(FlashParams(chipSize), chipSize)
  {
    var data := FlashParams(chipSize);
    assert data[..12] == Zeros(12);
    assert data[12..16] == Le32(chipSize) && data[16..20] == Le32(0x1_0000) && data[20..24] == Le32(0x1000);
    assert data[24..28] == Le32(256) && data[28..] == Le32(0xFFFF);
    Le32ReadsBack(chipSize);
  }

  /** EspDfuWriter. */
  class Writer {
    var entries: seq<seq<Byte>>
    var index: seq<Info>
    const pid: int
    const partSize: int
    const md5: seq<Byte> -> Digest
    const crc32: Crc
    /** What was added, in order. */
    ghost var items: seq<Item>

    constructor (pid: int, partSize: int, md5: seq<Byte> -> Digest, crc32: Crc)
      ensures Valid() && items == []
      ensures this.pid == pid && this.partSize == partSize && this.md5 == md5 && this.crc32 == crc32
    {
      entries, index, items := [], [], [];
      this.pid, this.partSize, this.md5, this.crc32 := pid, partSize, md5, crc32;
    }

    /** Entry i of the archive and record i of the index tell the same item. */
    ghost predicate Valid()
      reads this
    {
      && |entries| == |index| == |items|
      && forall i :: 0 <= i < |items| ==>
           && entries[i] == Entry(items[i].name, items[i].data, false)
           && index[i].address == items[i].address && index[i].flags == items[i].flags
           && index[i].name == items[i].name && index[i].md5 == md5(items[i].data)
    }

    method AddCpioEntry(name: seq<Byte>, data: seq<Byte>, first: bool, trailer: bool)
      modifies `entries
      ensures entries == if first then [Entry(name, data, trailer)] + old(entries)
                         else old(entries) + [Entry(name, data, trailer)]
    {
      var entry := Pad(Header(|name| + 1, |data|, trailer) + name + [0], 4) + Pad(data, 4);
      if !first {
        entries := entries + [entry];
      } else {
        entries := [entry] + entries;
      }
    }

    method AddFlashEntry(name: seq<Byte>, address: int, data: seq<Byte>, flags: nat)
      requires Valid()
      modifies this
      ensures Valid() && items == old(items) + [Item(name, address, flags, data)]
    {
      index := index + [Info(address, flags, name, md5(data))];
      AddCpioEntry(name, data, false, false);
      items := items + [Item(name, address, flags, data)];
    }

    /** The chip parameters; packing fails, before anything is added, when the size needs more than 32 bits. */
    method AddFlashParamsFile(megabytes: nat) returns (ok: bool)
      requires Valid()
      modifies this
      ensures Valid() && (ok <==> megabytes < 4096)
      ensures !ok ==> unchanged(this)
      ensures ok ==> exists data ::
                && items == old(items) + [Item(FLASH_PARAMS, 0, PARAM_FLAGS, data)]
                && IsFlashParams(data, megabytes * 0x10_0000)
    {
      ok := megabytes * 1024 * 1024 < WORD;
      if ok {
        var data := FlashParams(megabytes * 1024 * 1024);
        FlashParamsRead(megabytes * 1024 * 1024);
        AddFlashEntry(FLASH_PARAMS, 0, data, PARAM_FLAGS);
      }
    }

    /** Splits a file into chunks and adds them. Their data joined is the file, unless the chunk size is 0:
        then nothing is added. */
    method AddFile(address: int, name: seq<Byte>, content: seq<Byte>)
      requires Valid()
      modifies this
      ensures Valid()
      ensures old(items) <= items
      ensures IsSplit(items[|old(items)|..], name, address, partSize, content)
    {
      ghost var before, added: seq<Item> := items, [];
      var i, at, pos := 0, address, 0;
      var chunk := ReadChunk(content, pos, partSize);
      NothingSplit(name, address, partSize, content);
      while chunk != []
        invariant Valid() && items == before + added && |added| == i
        invariant pos <= |content| && chunk == ReadChunk(content, pos, partSize) && at == address + pos
        invariant SplitSoFar(added, name, address, partSize, content, pos)
        decreases |content| - pos
      {
        ghost var it := Item(ChunkName(name, i), at, 0, chunk);
        NextChunk(added, it, name, address, partSize, content, pos);
        AddFlashEntry(ChunkName(name, i), at, chunk, 0);
        AppendAssoc(before, added, [it]);
        added := added + [it];
        at := at + |chunk|;
        pos := pos + |chunk|;
        i := i + 1;
        chunk := ReadChunk(content, pos, partSize);
      }
      LastChunk(added, name, address, partSize, content, pos);
      assert items[|before|..] == added;
    }

    /** Whether every address and flag word fits its field. */
    ghost predicate ItemsFit()
      reads this`items
    {
      forall k :: 0 <= k < |items| ==> 0 <= items[k].address < WORD && items[k].flags < WORD
    }

    /** Whether packing the index raises no error. */
    predicate AllPackable()
      reads this`index
    {
      forall i :: 0 <= i < |index| ==> Packable(index[i])
    }

    /** The index first, then every file in the order added. */
    ghost function Files(): (fs: seq<File>)
      requires AllPackable()
      reads this`index, this`items
    {
      [File(DFUINFO, Index(index))] + FilesOf(items)
    }

    lemma FitIsPackable()
      requires Valid()
      ensures AllPackable() <==> ItemsFit()
    {
      assert AllPackable() ==> forall k :: 0 <= k < |items| ==> Packable(index[k]);
    }

    ghost function Enclosed(before: seq<seq<Byte>>): seq<seq<Byte>>
      requires AllPackable()
      reads this`index
    {
      [Entry(DFUINFO, Index(index), false)] + before + [Entry(TRAILER, [], true)]
    }

    /** Adds the index and the trailer. */
    method Enclose()
      requires Valid() && AllPackable()
      modifies `entries
      ensures entries == Enclosed(old(entries)) && Join(entries) == Archive(Files())
    {
      ghost var before := entries;
      AddCpioEntry(DFUINFO, Index(index), true, false);
      AddCpioEntry(TRAILER, [], false, true);
      JoinedArchive(File(DFUINFO, Index(index)), before, items);
    }

    /** What a reader of the whole file learns: the first member is the index, member i + 1 is flash entry i, and
        record i says where that goes, with which flags and which digest, and names it in full exactly when
        the name has at most 64 bytes and no NUL. */
    lemma IndexedInOrder(i: nat)
      requires Valid() && AllPackable() && i < |items|
      ensures |Members(Files())| == |items| + 2
      ensures var index := Members(Files())[0];
              && index.name == DFUINFO && |index.data| == RECORD_SIZE * |items|
              && RECORD_SIZE * i + RECORD_SIZE <= |index.data|
              && var r := ReadRecord(index.data[RECORD_SIZE * i..RECORD_SIZE * i + RECORD_SIZE]);
              && r.address == items[i].address && r.flags == items[i].flags && r.md5 == md5(items[i].data)
              && (r.name == items[i].name <==> |items[i].name| <= 64 && 0 !in items[i].name)
      ensures var member := Members(Files())[i + 1];
              member.name == items[i].name && member.data == items[i].data
    {
      MembersAt(Files(), 0);
      MembersAt(Files(), i + 1);
      assert forall info :: info in index ==> Packable(info);
      RecordAt(index, i);
    }

    /** Pads to whole blocks and appends the suffix with its checksum. */
    method Seal(data: seq<Byte>, ghost files: seq<File>) returns (out: seq<Byte>)
      requires 0 <= pid < 0x1_0000 && data == Archive(files)
      ensures IsImage(crc32, pid, files, out)
    {
      hide Pad, Archive, Suffix, Le32, DfuCrc, IsImage;
      var padded := Pad(data, BLOCK_SIZE);
      out := padded + Suffix(pid);
      out := out + Le32(DfuCrc(crc32, out));
      SealedImage(crc32, pid, files, padded);
    }

    /** The whole image, or the error of packing an address or the product number that does not fit. */
    method Finish() returns (out: Option<seq<Byte>>)
      requires Valid()
      modifies `entries
      ensures out.Some? <==> ItemsFit() && 0 <= pid < 0x1_0000
      ensures entries == if AllPackable() then Enclosed(old(entries)) else old(entries)
      ensures out.Some? ==> IsImage(crc32, pid, Files(), out.value)
    {
      hide IsImage, Enclosed, Files;
      FitIsPackable();
      if !AllPackable() {
        return None;
      }
      Enclose();
      if pid < 0 || pid >= 0x1_0000 {
        return None;
      }
      var data := Seal(Join(entries), Files());
      out := Some(data);
    }
  }

  /** The finished file: padded to blocks, its suffix is accepted, and reading its archive yields all the files
      and the trailer exactly when all sizes fit and no file bears the trailer's name. */
  ghost predicate IsImage(crc32: Crc, pid: int, files: seq<File>, out: seq<Byte>) {
    && 0 <= pid && |out| % BLOCK_SIZE == SUFFIX_SIZE && |out| >= SUFFIX_SIZE
    && var body := out[..|out| - SUFFIX_SIZE];
    && body == Pad(Archive(files), BLOCK_SIZE)
    && ReadImage(crc32, out) == Some(Image(0xFFFF, pid, ESPRESSIF_VID, ReadArchive(body)))
    && (ReadArchive(body) == Some(Members(files)) <==> forall f :: f in files ==> Plain(f))
  }

  ghost function FilesOf(items: seq<Item>): (fs: seq<File>)
    ensures |fs| == |items| && forall i :: 0 <= i < |items| ==> fs[i] == File(items[i].name, items[i].data)
  {
    seq(|items|, i requires 0 <= i < |items| => File(items[i].name, items[i].data))
  }

  lemma {:induction false} ArchiveOf(entries: seq<seq<Byte>>, items: seq<Item>)
    requires |entries| == |items|
    requires forall i :: 0 <= i < |items| ==> entries[i] == Entry(items[i].name, items[i].data, false)
    ensures Archive(FilesOf(items)) == Join(entries) + Entry(TRAILER, [], true)
    decreases |items|
  {
    if items == [] {
      assert FilesOf(items) == [];
    } else {
      ArchiveOf(entries[1..], items[1..]);
      assert FilesOf(items)[1..] == FilesOf(items[1..]);
      AppendAssoc(entries[0], Join(entries[1..]), Entry(TRAILER, [], true));
    }
  }

  lemma JoinedArchive(f: File, entries: seq<seq<Byte>>, items: seq<Item>)
    requires |entries| == |items|
    requires forall i :: 0 <= i < |items| ==> entries[i] == Entry(items[i].name, items[i].data, false)
    ensures Join([Entry(f.name, f.data, false)] + entries + [Entry(TRAILER, [], true)])
            == Archive([f] + FilesOf(items))
  {
    ArchiveOf(entries, items);
    JoinEnds(Entry(f.name, f.data, false), entries, Entry(TRAILER, [], true));
    assert ([f] + FilesOf(items))[1..] == FilesOf(items);
  }

  lemma JoinEnds(a: seq<Byte>, middle: seq<seq<Byte>>, b: seq<Byte>)
    ensures Join([a] + middle + [b]) == a + (Join(middle) + b)
  {
    JoinAppend([a] + middle, [b]);
    JoinAppend([a], middle);
    JoinOne(a);
    JoinOne(b);
    AppendAssoc(a, Join(middle), b);
  }

  /** The block padding after the trailer does not disturb the reader. */
  lemma PaddedReads(files: seq<File>, data: seq<Byte>)
    requires data == Pad(Archive(files), BLOCK_SIZE)
    ensures |data| % BLOCK_SIZE == 0
    ensures ReadArchive(data) == Some(Members(files)) <==> forall f :: f in files ==> Plain(f)
  {
    var rest := data[|Archive(files)|..];
    assert data == Archive(files) + rest;
    ArchiveReadsBack(files, rest);
    RoundUpIs(|Archive(files)|, BLOCK_SIZE);
  }

  lemma SealedImage(crc32: Crc, pid: nat, files: seq<File>, padded: seq<Byte>)
    requires pid < 0x1_0000 && padded == Pad(Archive(files), BLOCK_SIZE)
    ensures var front := padded + Suffix(pid); IsImage(crc32, pid, files, front + Le32(DfuCrc(crc32, front)))
  {
    hide Pad, Archive, Members, ReadArchive, ReadImage, Suffix, Le32, DfuCrc, Plain;
    PaddedReads(files, padded);
    SuffixReadsBack(crc32, padded, pid);
    SealedShape(padded, Suffix(pid), Le32(DfuCrc(crc32, padded + Suffix(pid))));
  }

  lemma SealedShape(data: seq<Byte>, suffix: seq<Byte>, crc: seq<Byte>)
    requires |data| % BLOCK_SIZE == 0 && |suffix| == 12 && |crc| == 4
    ensures var s := data + suffix + crc;
            |s| % BLOCK_SIZE == SUFFIX_SIZE && s[..|s| - SUFFIX_SIZE] == data
  {
  }
}
