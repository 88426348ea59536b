/**
 Writing an image with esp_ota_begin, esp_ota_write and esp_ota_end: sector erase-ahead in sequential
 mode, and caching of incomplete 16-byte units under flash encryption.
 */
module OtaImage {
  import opened Bytes
  import opened Modular

  const SEC := 4096
  const UNIT := 16
  const MAGIC := 0xE9
  const OTA_SIZE_UNKNOWN := 0xFFFF_FFFF
  const OTA_WITH_SEQUENTIAL_WRITES := 0xFFFF_FFFE

  datatype Err = Ok | InvalidArg | InvalidState | ValidateFailed | FlashFailed

  /** The smallest multiple of the sector size that is at least n. */
  function SecUp(n: nat): (r: nat)
    ensures n <= r < n + SEC && r % SEC == 0
  {
    if n % SEC == 0 then n else n - n % SEC + SEC
  }

  /** The largest multiple of the encryption unit that is at most n. */
  function UnitDown(n: nat): (r: nat)
    ensures r <= n < r + UNIT && r % UNIT == 0
  {
    n - n % UNIT
  }

  /** Bitwise and of the k low bits. */
  function And(a: nat, b: nat, k: nat): (r: nat)
    ensures r < Pow2(k)
  {
    if k == 0 then 0
    else (if a % 2 == 1 && b % 2 == 1 then 1 else 0) + 2 * And(a / 2, b / 2, k - 1)
  }

  lemma AndOnes(b: nat, k: nat)
    requires b < Pow2(k)
    ensures And(Pow2(k) - 1, b, k) == b
  {
    if k > 0 {
      AndOnes(b / 2, k - 1);
      assert (Pow2(k) - 1) / 2 == Pow2(k - 1) - 1;
    }
  }

  lemma Pow8()
    ensures Pow2(8) == 256
  {
    assert Pow2(4) == 16;
  }

  /** Programming a NOR flash cell can only clear bits; an erased cell takes any value. */
  function Program(cell: Byte, b: Byte): (r: Byte)
    ensures cell == 0xFF ==> r == b
  {
    Pow8();
    AndOnes(b, 8);
    And(cell, b, 8)
  }

  /** A flash partition. `blank` marks the cells erased in this session and not written since. */
  class Partition {
    const cells: array<Byte>
    // Every operation the driver does not refuse succeeds.
    const faultFree: bool
    ghost var blank: seq<bool>
    // A write met a cell that was not blank.
    ghost var overwrote: bool

    ghost predicate Valid()
      reads this, cells
    {
      && |blank| == cells.Length && cells.Length % SEC == 0
      && forall i :: 0 <= i < |blank| && blank[i] ==> cells[i] == 0xFF
    }

    constructor (storage: array<Byte>, faultFree: bool)
      requires storage.Length % SEC == 0
      ensures Valid() && cells == storage && this.faultFree == faultFree && !overwrote
      ensures forall i :: 0 <= i < |blank| ==> !blank[i]
    {
      cells, this.faultFree := storage, faultFree;
      blank := seq(storage.Length, i => false);
      overwrote := false;
    }

    ghost predicate BlankRange(a: nat, b: nat)
      reads this
    {
      forall i :: a <= i < b && i < |blank| ==> blank[i]
    }

    predicate CanErase(off: nat, len: nat) {
      off + len <= cells.Length && off % SEC == 0 && len % SEC == 0
    }

    predicate CanWrite(off: nat, len: nat) {
      off + len <= cells.Length
    }

    /** Erases whole sectors inside the partition and refuses anything else; a fault leaves the range in any state. */
    method Erase(off: nat, len: nat) returns (ok: bool)
      requires Valid()
      modifies this`blank, cells
      ensures Valid()
      ensures (ok ==> CanErase(off, len)) && (faultFree && CanErase(off, len) ==> ok)
      ensures !CanErase(off, len) ==> unchanged(this) && cells[..] == old(cells[..])
      ensures forall i :: 0 <= i < cells.Length && !(off <= i < off + len) ==>
                            cells[i] == old(cells[i]) && blank[i] == old(blank[i])
      ensures CanErase(off, len) ==> forall i :: off <= i < off + len ==> blank[i] == ok
    {
      ok := *;
      ok := CanErase(off, len) && (ok || faultFree);
      if CanErase(off, len) {
        for i := off to off + len
          modifies cells
          invariant forall k :: 0 <= k < cells.Length && !(off <= k < off + len) ==> cells[k] == old(cells[k])
          invariant ok ==> forall k :: off <= k < i ==> cells[k] == 0xFF
        {
          if ok {
            cells[i] := 0xFF;
          } else {
            cells[i] := *;
          }
        }
        blank := Mark(blank, off, len, ok);
      }
    }

    /** Programs bytes inside the partition; only blank cells take the value written. A fault leaves the range in
        any state. */
    method Write(off: nat, bytes: seq<Byte>) returns (ok: bool)
      requires Valid()
      modifies this`blank, this`overwrote, cells
      ensures Valid()
      ensures (ok ==> CanWrite(off, |bytes|)) && (faultFree && CanWrite(off, |bytes|) ==> ok)
      ensures !CanWrite(off, |bytes|) ==> unchanged(this) && cells[..] == old(cells[..])
      ensures forall i :: 0 <= i < cells.Length && !(off <= i < off + |bytes|) ==>
                            cells[i] == old(cells[i]) && blank[i] == old(blank[i])
      ensures CanWrite(off, |bytes|) ==> forall i :: off <= i < off + |bytes| ==> !blank[i]
      ensures CanWrite(off, |bytes|) ==> (overwrote <==> old(overwrote) || !old(BlankRange(off, off + |bytes|)))
      ensures ok && old(BlankRange(off, off + |bytes|)) ==> cells[off..off + |bytes|] == bytes
    {
      ok := *;
      ok := CanWrite(off, |bytes|) && (ok || faultFree);
      if CanWrite(off, |bytes|) {
        overwrote := overwrote || !BlankRange(off, off + |bytes|);
        for i := 0 to |bytes|
          modifies cells
          invariant forall k :: 0 <= k < cells.Length && !(off <= k < off + i) ==> cells[k] == old(cells[k])
          invariant ok && old(BlankRange(off, off + |bytes|)) ==> forall k :: 0 <= k < i ==> cells[off + k] == bytes[k]
        {
          if ok {
            cells[off + i] := Program(cells[off + i], bytes[i]);
          } else {
            cells[off + i] := *;
          }
        }
        blank := Mark(blank, off, |bytes|, false);
      }
    }
  }

  ghost function Mark(blank: seq<bool>, off: nat, len: nat, b: bool): (r: seq<bool>)
    ensures |r| == |blank|
    ensures forall i :: 0 <= i < |blank| ==> r[i] == if off <= i < off + len then b else blank[i]
  {
    seq(|blank|, i requires 0 <= i < |blank| => if off <= i < off + len then b else blank[i])
  }

  /** One entry of the handle list: where the image goes, and how much of it has got there. */
  class Session {
    const part: Partition
    const needErase: bool
    const encrypted: bool
    const partialData: array<Byte>
    var wrote: nat
    var partialBytes: nat

    // The bytes accepted so far, the size of the last non-empty chunk, whether an erase failed since,
    // whether a first chunk was refused after its sectors were erased, the end of the erased cells,
    // and whether every partition write has succeeded.
    ghost var image: seq<Byte>
    ghost var lastSize: nat
    ghost var eraseFailed: bool
    ghost var refused: bool
    ghost var eraseEnd: nat
    ghost var healthy: bool

    ghost predicate Shape()
      reads this`wrote, this`partialBytes, part, part.cells
    {
      && part.Valid() && partialData.Length == UNIT && partialData != part.cells
      && partialBytes <= (if encrypted then UNIT else 0) && wrote <= part.cells.Length
    }

    /** How much of `total` bytes is in flash; the rest waits in partialData. */
    ghost function Settled(total: nat): (n: nat)
      ensures n <= total < n + UNIT
    {
      if encrypted then UnitDown(total) else total
    }

    /** The cells between what is written and where erasing ended are blank; no others are, unless a
        refused chunk left some. */
    ghost predicate BlankOk()
      requires Shape()
      reads this`wrote, this`partialBytes, this`eraseEnd, this`refused, part, part.cells
    {
      && (forall i :: 0 <= i < part.cells.Length && wrote <= i < eraseEnd ==> part.blank[i])
      && (forall i :: 0 <= i < part.cells.Length && part.blank[i] ==> wrote <= i && (refused || i < eraseEnd))
      && (if needErase then !part.overwrote else !refused && (part.overwrote <==> wrote > eraseEnd))
    }

    /** Flash followed by the cache is the image, unless a write met cells that were not blank. */
    ghost predicate DataOk()
      requires Shape()
      reads this`wrote, this`partialBytes, this`image, part, part.cells, partialData
    {
      && wrote == Settled(|image|) && wrote + partialBytes == |image|
      && (!part.overwrote ==> part.cells[..wrote] + partialData[..partialBytes] == image)
    }

    /** How far the erases reach: in a started sector exactly to its end. */
    ghost predicate FrontierNear()
      reads this`wrote, this`image, this`eraseEnd, this`refused
    {
      && ((image == [] && refused) || eraseEnd <= wrote + SEC)
      && (wrote % SEC != 0 ==> eraseEnd == SecUp(wrote))
    }

    /** How far the erases reach: as far as the last chunk asked for. */
    ghost predicate FrontierLast()
      reads this`image, this`lastSize, this`eraseEnd, this`eraseFailed
    {
      image != [] && !eraseFailed ==>
                0 < lastSize <= |image| && eraseEnd == SecUp(Settled(|image| - lastSize) + lastSize)
    }

    ghost predicate FrontierOk()
      reads this
    {
      needErase ==> FrontierNear() && FrontierLast()
    }

    ghost predicate Valid()
      reads this, part, part.cells, partialData
    {
      Shape() && (healthy ==> BlankOk() && DataOk() && FrontierOk())
    }

    constructor (part: Partition, needErase: bool, encrypted: bool, ghost eraseEnd: nat)
      requires part.Valid() && !part.overwrote && (needErase ==> eraseEnd == 0)
      requires forall i :: 0 <= i < part.cells.Length ==> (part.blank[i] <==> i < eraseEnd)
      ensures Valid() && healthy && !refused && image == [] && wrote == 0 && partialBytes == 0 && fresh(partialData)
      ensures this.part == part && this.needErase == needErase && this.encrypted == encrypted
              && this.eraseEnd == eraseEnd
    {
      this.part, this.needErase, this.encrypted, this.eraseEnd := part, needErase, encrypted, eraseEnd;
      partialData := new Byte[UNIT](i => 0);
      wrote, partialBytes := 0, 0;
      image, lastSize, eraseFailed, refused, healthy := [], 0, false, false, true;
    }

    /** In sequential mode, erases the sectors the next `size` bytes reach and no sector already begun. */
    method EraseAhead(size: nat) returns (ok: bool)
      requires Shape() && (healthy ==> BlankOk() && DataOk() && FrontierNear()) && size > 0 && needErase
      modifies this`eraseEnd, this`eraseFailed, part`blank, part.cells
      ensures Shape() && (healthy ==> BlankOk() && DataOk())
      ensures part.cells[..wrote] == old(part.cells[..wrote])
      ensures ok && healthy ==> eraseEnd == SecUp(wrote + size)
      ensures !ok ==> eraseFailed && (healthy ==> FrontierNear())
      ensures (ok ==> wrote + size <= part.cells.Length) && (part.faultFree && wrote + size <= part.cells.Length ==> ok)
    {
      hide BlankOk, DataOk, SecUp;
      var off, len := Sectors(size);
      ok := true;
      if len > 0 {
        ok := EraseTo(off, len);
      }
      eraseFailed := eraseFailed || !ok;
    }

    /** The sectors to erase: from the first one not begun to the last one the next `size` bytes touch. */
    method Sectors(size: nat) returns (off: nat, len: nat)
      requires Shape() && size > 0
      ensures off == SecUp(wrote) && off + len == SecUp(wrote + size) && len % SEC == 0
      ensures if wrote % SEC == 0 then len >= SEC else off <= part.cells.Length
      ensures off + len <= part.cells.Length <==> wrote + size <= part.cells.Length
    {
      SecUpFits(wrote + size, part.cells.Length);
      SecUpFits(wrote, part.cells.Length);
      var first := wrote / SEC;
      var last := (wrote + size - 1) / SEC;
      EraseBounds(wrote, size);
      if wrote % SEC == 0 {
        off, len := wrote, (last - first + 1) * SEC;
      } else {
        off, len := (first + 1) * SEC, (last - first) * SEC;
      }
    }

    lemma EraseBounds(wrote: nat, size: nat)
      requires size > 0
      ensures var first, last, end := wrote / SEC, (wrote + size - 1) / SEC, SecUp(wrote + size);
              && last >= first && (last - first) * SEC % SEC == 0 && (last - first + 1) * SEC % SEC == 0
              && (wrote % SEC == 0 ==> wrote + (last - first + 1) * SEC == end >= wrote + SEC)
              && (wrote % SEC != 0 ==>
                    SecUp(wrote) == (first + 1) * SEC > wrote
                    && (first + 1) * SEC + (last - first) * SEC == end >= SecUp(wrote))
    {
      var first, last := wrote / SEC, (wrote + size - 1) / SEC;
      SecUpIs(wrote + size, last + 1);
      if wrote % SEC != 0 {
        SecUpIs(wrote, first + 1);
      }
    }

    lemma SecUpFits(n: nat, length: nat)
      requires length % SEC == 0
      ensures SecUp(n) <= length <==> n <= length
    {
    }

    /** Erases from the first sector boundary on that is not below what is written. */
    method EraseTo(off: nat, len: nat) returns (ok: bool)
      requires Shape() && off == SecUp(wrote) && len % SEC == 0 && needErase
      requires healthy ==> BlankOk() && DataOk() && FrontierNear() && (refused || eraseEnd <= off + len)
      modifies this`eraseEnd, part`blank, part.cells
      ensures Shape() && (healthy ==> BlankOk() && DataOk())
      ensures part.cells[..wrote] == old(part.cells[..wrote])
      ensures (ok ==> off + len <= part.cells.Length) && (part.faultFree && off + len <= part.cells.Length ==> ok)
      ensures ok ==> eraseEnd == off + len
      ensures !ok && healthy ==> FrontierNear()
    {
      ok := part.Erase(off, len);
      eraseEnd := if ok then off + len else if part.CanErase(off, len) then off else eraseEnd;
      assert part.cells[..wrote] == old(part.cells[..wrote]);
    }

    /** Writes at the end of what is written. */
    method Put(bytes: seq<Byte>) returns (ok: bool)
      requires Shape() && (healthy ==> BlankOk()) && (needErase && healthy ==> wrote + |bytes| <= eraseEnd)
      modifies this`wrote, this`healthy, part`blank, part`overwrote, part.cells
      ensures Shape() && wrote == old(wrote) + (if ok then |bytes| else 0) && healthy == (old(healthy) && ok)
      ensures part.faultFree ==> (ok <==> part.CanWrite(old(wrote), |bytes|))
      ensures part.cells[..old(wrote)] == old(part.cells[..wrote])
      ensures healthy ==> BlankOk()
      ensures old(part.overwrote) ==> part.overwrote
      ensures healthy && !part.overwrote ==> part.cells[..wrote] == old(part.cells[..wrote]) + bytes
    {
      ghost var end := if wrote < eraseEnd then eraseEnd else wrote;
      assert healthy && !refused && end < part.cells.Length ==> !part.blank[end];
      ok := part.Write(wrote, bytes);
      assert part.cells[..old(wrote)] == old(part.cells[..wrote]);
      if ok {
        wrote := wrote + |bytes|;
        assert part.cells[..wrote] == part.cells[..old(wrote)] + part.cells[old(wrote)..wrote];
      } else {
        healthy := false;
      }
    }

    /** Completes a started unit from the front of d; `rest` is what is still to be written. */
    method FillUnit(d: seq<Byte>) returns (r: Err, rest: seq<Byte>)
      requires Shape() && encrypted && partialBytes != 0 && d != []
      requires healthy ==> BlankOk() && DataOk() && (needErase ==> Settled(|image| + |d|) <= eraseEnd)
      modifies this`wrote, this`partialBytes, this`image, this`healthy, part`blank, part`overwrote, part.cells
      modifies partialData
      ensures Shape() && part.cells[..old(wrote)] == old(part.cells[..wrote]) && wrote >= old(wrote)
      ensures healthy ==> old(healthy) && r == Ok && BlankOk() && DataOk()
      ensures old(healthy) && r == Ok ==> healthy && image + rest == old(image) + d
      ensures r == Ok && partialBytes != 0 ==> rest == []
      ensures part.faultFree ==> (r == Ok <==> old(partialBytes) + |d| < UNIT || part.CanWrite(old(wrote), UNIT))
      ensures r in {Ok, FlashFailed}
    {
      if healthy {
        FillSettles(wrote, partialBytes, |d|);
      }
      var copyLen := Min(UNIT - partialBytes, |d|);
      rest := d[copyLen..];
      Cache(d[..copyLen]);
      assert old(image) + d[..copyLen] + rest == old(image) + d;
      if partialBytes != UNIT {
        return Ok, rest;
      }
      var ok := FlushUnit();
      r := if ok then Ok else FlashFailed;
    }

    /** n more bytes complete the unit, or stay in the cache. */
    lemma FillSettles(w: nat, p: nat, n: nat)
      requires encrypted && w % UNIT == 0 && p < UNIT
      ensures if p + n < UNIT then Settled(w + p + n) == w else Settled(w + p + n) >= w + UNIT
    {
    }

    /** Writes a full cache as one unit and empties it. */
    method FlushUnit() returns (ok: bool)
      requires Shape() && encrypted && partialBytes == UNIT
      requires healthy ==>
                BlankOk() && wrote % UNIT == 0 && wrote + UNIT == |image| && (needErase ==> wrote + UNIT <= eraseEnd)
      requires healthy && !part.overwrote ==> part.cells[..wrote] + partialData[..] == image
      modifies this`wrote, this`partialBytes, this`healthy, part`blank, part`overwrote, part.cells, partialData
      ensures Shape() && healthy == (old(healthy) && ok)
      ensures part.faultFree ==> (ok <==> part.CanWrite(old(wrote), UNIT))
      ensures part.cells[..old(wrote)] == old(part.cells[..wrote]) && wrote >= old(wrote)
      ensures healthy ==> BlankOk() && DataOk()
      ensures ok ==> partialBytes == 0 && forall i :: 0 <= i < UNIT ==> partialData[i] == 0xFF
    {
      ok := Put(partialData[..]);
      if !ok {
        return;
      }
      ghost var written := part.cells[..wrote];
      partialBytes := 0;
      Memcpy(partialData, 0, seq(UNIT, i => 0xFF));
      assert part.cells[..wrote] == written && written + partialData[..0] == written;
    }

    /** Appends to the cache; a full cache is one unit that is not yet in flash. */
    method Cache(bytes: seq<Byte>)
      requires Shape() && encrypted && partialBytes + |bytes| <= UNIT
      requires healthy ==> DataOk()
      modifies this`partialBytes, this`image, partialData
      ensures Shape() && partialBytes == old(partialBytes) + |bytes| && image == old(image) + bytes
      ensures healthy && partialBytes < UNIT ==> DataOk()
      ensures healthy ==> wrote % UNIT == 0 && wrote + partialBytes == |image|
      ensures healthy && !part.overwrote ==> part.cells[..wrote] + partialData[..partialBytes] == image
    {
      ghost var cached := partialData[..partialBytes];
      Memcpy(partialData, partialBytes, bytes);
      partialBytes := partialBytes + |bytes|;
      image := image + bytes;
      assert partialData[..partialBytes] == cached + bytes;
      JoinTail(part.cells[..wrote], cached, bytes, partialData[..partialBytes]);
    }

    /** Writes d with an empty cache; under encryption the incomplete last unit goes to the cache. */
    method WriteTail(d: seq<Byte>) returns (r: Err)
      requires Shape() && partialBytes == 0
      requires healthy ==> BlankOk() && DataOk() && (needErase ==> Settled(|image| + |d|) <= eraseEnd)
      modifies this`wrote, this`partialBytes, this`image, this`healthy, part`blank, part`overwrote, part.cells
      modifies partialData
      ensures Shape() && part.cells[..old(wrote)] == old(part.cells[..wrote]) && wrote >= old(wrote)
      ensures healthy ==> old(healthy) && r == Ok && BlankOk() && DataOk()
      ensures old(healthy) && r == Ok ==> healthy && image == old(image) + d
      ensures part.faultFree && old(healthy) ==> (r == Ok <==> old(Settled(|image| + |d|)) <= part.cells.Length)
      ensures r in {Ok, FlashFailed}
    {
      hide UnitDown, SecUp;
      ghost var before := part.cells[..wrote];
      if healthy {
        TailSettles(|image|, |d|);
      }
      var whole := SplitTail(d);
      var ok := Put(whole);
      image := image + d;
      JoinTail(before, whole, partialData[..partialBytes], d);
      r := if ok then Ok else FlashFailed;
    }

    lemma TailSettles(total: nat, n: nat)
      requires total == Settled(total)
      ensures Settled(total + n) == total + n - (if encrypted then n % UNIT else 0)
    {
    }

    lemma JoinTail(before: seq<Byte>, whole: seq<Byte>, cached: seq<Byte>, d: seq<Byte>)
      requires d == whole + cached
      ensures (before + whole) + cached == before + d
    {
    }

    /** Under encryption the incomplete last unit of d goes to the empty cache. */
    method SplitTail(d: seq<Byte>) returns (whole: seq<Byte>)
      requires Shape() && partialBytes == 0
      modifies this`partialBytes, partialData
      ensures Shape() && whole + partialData[..partialBytes] == d
      ensures partialBytes == if encrypted then |d| % UNIT else 0
    {
      whole := d;
      if encrypted {
        partialBytes := |d| % UNIT;
        if partialBytes != 0 {
          whole := d[..|d| - partialBytes];
          Memcpy(partialData, 0, d[|d| - partialBytes..]);
        }
      }
    }

    /** The chunk starts with the magic byte if it is the first, and there is room for what it erases and writes. */
    ghost predicate Takes(data: seq<Byte>)
      requires data != []
      reads this, part
    {
      && (wrote == 0 && partialBytes == 0 ==> data[0] == MAGIC)
      && (needErase ==> wrote + |data| <= part.cells.Length)
      && Settled(|image| + |data|) <= part.cells.Length
    }

    /** esp_ota_write. Whatever happens, nothing already in flash is touched; a chunk reported written
        extends the image; a chunk refused before any partition write leaves the image as it was. Without faults
        exactly the chunks that Takes describes are written. */
    method Write(data: seq<Byte>) returns (r: Err)
      requires Valid()
      modifies this`wrote, this`partialBytes, this`image, this`lastSize, this`eraseFailed, this`refused
      modifies this`eraseEnd, this`healthy
      modifies part`blank, part`overwrote, part.cells, partialData
      ensures Valid()
      ensures part.cells[..old(wrote)] == old(part.cells[..wrote]) && wrote >= old(wrote)
      ensures data == [] ==> r == Ok && unchanged(this, part, part.cells)
      ensures old(healthy) && r == Ok ==> healthy && image == old(image) + data
      ensures healthy && r != Ok ==> image == old(image) && wrote == old(wrote) && partialBytes == old(partialBytes)
      ensures r == Ok && data != [] ==> lastSize == |data| && !eraseFailed && refused == old(refused)
      ensures part.faultFree && old(healthy) ==> (r == Ok <==> data == [] || old(Takes(data)))
      ensures r == ValidateFailed ==> data != [] && data[0] != MAGIC && old(wrote) == 0 && old(partialBytes) == 0
      ensures old(wrote) == 0 && old(partialBytes) == 0 && data != [] && data[0] != MAGIC ==> r != Ok
      ensures r in {Ok, FlashFailed, ValidateFailed}
    {
      hide BlankOk, DataOk, SecUp, UnitDown;
      if |data| == 0 {
        return Ok;
      }
      if needErase {
        var ok := EraseAhead(|data|);
        if !ok {
          return FlashFailed;
        }
      }
      r := Check(data);
    }

    /** The test of the first byte. */
    method Check(data: seq<Byte>) returns (r: Err)
      requires Shape() && data != []
      requires healthy ==> BlankOk() && DataOk() && (needErase ==> eraseEnd == SecUp(wrote + |data|))
      modifies this`wrote, this`partialBytes, this`image, this`lastSize, this`eraseFailed, this`refused, this`healthy
      modifies part`blank, part`overwrote, part.cells, partialData
      ensures Valid()
      ensures part.cells[..old(wrote)] == old(part.cells[..wrote]) && wrote >= old(wrote)
      ensures old(healthy) && r == Ok ==> healthy && image == old(image) + data
      ensures healthy && r != Ok ==> image == old(image) && wrote == old(wrote) && partialBytes == old(partialBytes)
      ensures r == Ok ==> lastSize == |data| && !eraseFailed && refused == old(refused)
      ensures r == ValidateFailed <==> old(wrote) == 0 && old(partialBytes) == 0 && data[0] != MAGIC
      ensures part.faultFree && old(healthy) && r != ValidateFailed ==>
                (r == Ok <==> old(Settled(|image| + |data|)) <= part.cells.Length)
      ensures r in {Ok, FlashFailed, ValidateFailed}
    {
      if wrote == 0 && partialBytes == 0 && data[0] != MAGIC {
        refused := refused || needErase;
        return ValidateFailed;
      }
      r := Accept(data);
    }

    /** The rest of esp_ota_write, once the sectors are erased and the magic byte is right. */
    method Accept(data: seq<Byte>) returns (r: Err)
      requires Shape() && data != []
      requires healthy ==> BlankOk() && DataOk() && (needErase ==> eraseEnd == SecUp(wrote + |data|))
      modifies this`wrote, this`partialBytes, this`image, this`lastSize, this`eraseFailed, this`healthy
      modifies part`blank, part`overwrote, part.cells, partialData
      ensures Valid() && (healthy ==> r == Ok)
      ensures part.cells[..old(wrote)] == old(part.cells[..wrote]) && wrote >= old(wrote)
      ensures old(healthy) && r == Ok ==> healthy && image == old(image) + data
      ensures part.faultFree && old(healthy) ==> (r == Ok <==> old(Settled(|image| + |data|)) <= part.cells.Length)
      ensures r == Ok ==> lastSize == |data| && !eraseFailed
      ensures r in {Ok, FlashFailed}
    {
      hide BlankOk, DataOk, SecUp, UnitDown;
      ghost var w, p := wrote, partialBytes;
      if healthy {
        HeldBytes();
        Frontier(w, p, |data|);
      }
      r := Append(data);
      if healthy {
        HeldBytes();
      }
      if r == Ok {
        Record(w, p, |data|);
      }
    }

    lemma HeldBytes()
      requires Shape() && DataOk()
      ensures wrote == Settled(|image|) && wrote + partialBytes == |image|
    {
    }

    /** Notes the chunk of n bytes that was written behind w bytes in flash and p in the cache. */
    ghost method Record(w: nat, p: nat, n: nat)
      requires Shape() && n > 0
      requires healthy ==> BlankOk() && DataOk() && w == Settled(w + p) && |image| == w + p + n
      requires healthy && needErase ==> FrontierNear() && eraseEnd == SecUp(w + n)
      modifies this`lastSize, this`eraseFailed
      ensures Valid() && lastSize == n && !eraseFailed
    {
      lastSize, eraseFailed := n, false;
      assert healthy ==> |image| - lastSize == w + p;
    }

    /** The next write stops inside what EraseAhead erased, and less than a sector before its end. */
    lemma Frontier(w: nat, p: nat, n: nat)
      requires w == Settled(w + p) && n > 0
      ensures var end, stop := SecUp(w + n), Settled(w + p + n);
              && stop <= end <= stop + SEC
              && (stop % SEC != 0 ==> end == SecUp(stop))
    {
      if encrypted {
        UnitFrontier(w, p, n, SecUp(w + n), UnitDown(w + p + n));
      }
    }

    /** The writing half of esp_ota_write. */
    method Append(data: seq<Byte>) returns (r: Err)
      requires Shape() && data != []
      requires healthy ==> BlankOk() && DataOk() && (needErase ==> Settled(|image| + |data|) <= eraseEnd)
      modifies this`wrote, this`partialBytes, this`image, this`healthy, part`blank, part`overwrote, part.cells
      modifies partialData
      ensures Shape() && part.cells[..old(wrote)] == old(part.cells[..wrote]) && wrote >= old(wrote)
      ensures healthy ==> old(healthy) && r == Ok && BlankOk() && DataOk()
      ensures old(healthy) && r == Ok ==> healthy && image == old(image) + data
      ensures part.faultFree && old(healthy) ==> (r == Ok <==> old(Settled(|image| + |data|)) <= part.cells.Length)
      ensures r in {Ok, FlashFailed}
    {
      hide BlankOk, DataOk, UnitDown;
      var rest := data;
      if healthy {
        HeldBytes();
      }
      if encrypted && partialBytes != 0 {
        if healthy {
          FillSettles(wrote, partialBytes, |data|);
        }
        r, rest := FillUnit(data);
        if r != Ok || partialBytes != 0 {
          return;
        }
        assert old(healthy) ==> |image| + |rest| == old(|image|) + |data|;
      }
      r := WriteTail(rest);
    }

    /** esp_ota_end: flushes the cache and has the image verified, by an oracle. When the flush met only
        blank cells, the whole image is in flash, followed by what else was in the cache. */
    method End(verified: bool) returns (r: Err)
      requires Valid()
      modifies this`wrote, this`partialBytes, this`healthy, part`blank, part`overwrote, part.cells
      ensures Shape() && part.cells[..old(wrote)] == old(part.cells[..wrote])
      ensures r == InvalidArg <==> old(wrote) == 0
      ensures r == InvalidArg ==> unchanged(this, part, part.cells)
      ensures old(wrote) > 0 && old(partialBytes) > 0 && r != InvalidState ==>
                (part.overwrote <==> old(part.overwrote) || !old(part.BlankRange(wrote, wrote + UNIT)))
      ensures old(partialBytes) == 0 ==> part.overwrote == old(part.overwrote) && r != InvalidState
      ensures old(healthy) && r in {Ok, ValidateFailed} && !part.overwrote ==>
                |image| <= part.cells.Length && part.cells[..|image|] == image
      ensures old(partialBytes) > 0 && r in {Ok, ValidateFailed} && old(part.BlankRange(wrote, wrote + UNIT)) ==>
                wrote == old(wrote) + UNIT && part.cells[old(wrote)..wrote] == partialData[..]
      ensures r == Ok ==> verified
      ensures r == ValidateFailed ==> !verified
      ensures r == InvalidState ==> old(wrote) > 0 && old(partialBytes) > 0
      ensures part.faultFree && old(wrote) > 0 && old(partialBytes) > 0 ==>
                (r == InvalidState <==> !part.CanWrite(old(wrote), UNIT))
      ensures r in {Ok, InvalidArg, InvalidState, ValidateFailed}
    {
      if wrote == 0 {
        return InvalidArg;
      }
      if partialBytes > 0 {
        ghost var before, cached, p := part.cells[..wrote], partialData[..], partialBytes;
        var ok := part.Write(wrote, partialData[..]);
        assert part.cells[..wrote] == before;
        if !ok {
          healthy := false;
          return InvalidState;
        }
        if healthy && !part.overwrote {
          FlushedImage(part.cells[..], before, cached, p, image);
        }
        wrote := wrote + UNIT;
        partialBytes := 0;
      }
      r := if verified then Ok else ValidateFailed;
    }

    lemma FlushedImage(cells: seq<Byte>, before: seq<Byte>, unit: seq<Byte>, p: nat, image: seq<Byte>)
      requires p <= |unit| && |before| + |unit| <= |cells| && image == before + unit[..p]
      requires cells[..|before|] == before && cells[|before|..|before| + |unit|] == unit
      ensures cells[..|image|] == image
    {
    }

    /** A flushed unit that does not start a sector is erased, in any session. */
    lemma FlushInSector()
      requires Valid() && healthy && encrypted && needErase && partialBytes > 0 && wrote % SEC != 0
      ensures part.BlankRange(wrote, wrote + UNIT)
    {
      UnitInSector(wrote);
    }

    /** It is erased if FlushSafe holds and no erase failed since the last chunk. */
    lemma FlushBlank()
      requires Valid() && healthy && encrypted && needErase && partialBytes > 0 && !eraseFailed
      requires FlushSafe(|image|, lastSize)
      ensures part.BlankRange(wrote, wrote + UNIT)
    {
      FlushReach(|image|, lastSize);
    }

    /** Is the unit that esp_ota_end flushes erased? For a session whose chunks were all accepted FlushSafe, a
        condition on the total size and the size of the last chunk only, decides. */
    lemma FlushBlankIff()
      requires Valid() && healthy && encrypted && needErase && partialBytes > 0 && !eraseFailed && !refused
      requires wrote < part.cells.Length
      ensures part.BlankRange(wrote, wrote + UNIT) <==> FlushSafe(|image|, lastSize)
    {
      FlushReach(|image|, lastSize);
      if wrote + UNIT > eraseEnd {
        assert !part.blank[wrote];
      }
    }
  }

  lemma UnitInSector(n: nat)
    requires n % UNIT == 0 && n % SEC != 0
    ensures n + UNIT <= SecUp(n)
  {
  }

  lemma UnitFrontier(w: nat, p: nat, n: nat, end: nat, stop: nat)
    requires w % UNIT == 0 && p < UNIT && n > 0 && end == SecUp(w + n) && stop == UnitDown(w + p + n)
    ensures stop <= end <= stop + SEC
    ensures stop % SEC != 0 ==> end == SecUp(stop)
  {
    var k, m := end / SEC, stop / UNIT;
    assert end == SEC * k && stop == UNIT * m;
    assert UNIT * m < UNIT * (256 * k + 1);
    assert UNIT * (256 * (k - 1)) < UNIT * (m + 1);
    if stop % SEC != 0 {
      SecUpIs(stop, k);
    }
  }

  lemma SecUpIs(n: nat, k: nat)
    requires k > 0 && SEC * (k - 1) < n <= SEC * k
    ensures SecUp(n) == SEC * k
  {
  }

  /** The flush of esp_ota_end stays inside erased cells: nothing is cached, or the cached unit does not start
      a sector, or the last chunk began and ended in that unit's sector, its start rounded down. */
  predicate FlushSafe(total: nat, lastChunk: nat)
    requires lastChunk <= total
  {
    total % UNIT == 0 || UnitDown(total) % SEC != 0 || (total - lastChunk) % UNIT < total % UNIT
  }

  lemma FlushReach(total: nat, s: nat)
    requires 0 < s <= total && total % UNIT != 0
    ensures var end := SecUp(UnitDown(total - s) + s);
            && (FlushSafe(total, s) ==> UnitDown(total) + UNIT <= end)
            && (!FlushSafe(total, s) ==> end <= UnitDown(total))
  {
  }

  /** The length esp_ota_begin asks to erase: all, or the size rounded up in 32 bits. */
  function EraseLength(imageSize: nat, whole: nat): (r: nat)
    ensures imageSize == 0 || imageSize == OTA_SIZE_UNKNOWN ==> r == whole
    ensures 0 < imageSize <= 0x1_0000_0000 - SEC ==> imageSize <= r < imageSize + SEC
    ensures 0x1_0000_0000 - SEC < imageSize < OTA_SIZE_UNKNOWN ==> r == 0
  {
    if imageSize == 0 || imageSize == OTA_SIZE_UNKNOWN then whole
    else
      var sum := (imageSize + SEC - 1) % 0x1_0000_0000;
      sum - sum % SEC
  }

  /** esp_ota_begin for a partition that may be updated: erases what the image needs now, or leaves the
      erasing to the writes. Null is a failed erase. The rounding of the largest sizes wraps to 0: then nothing is
      erased, and without faults even a size larger than the partition is accepted. */
  method Begin(part: Partition, imageSize: nat, encrypted: bool) returns (s: Session?)
    requires part.Valid() && !part.overwrote && forall i :: 0 <= i < |part.blank| ==> !part.blank[i]
    requires imageSize <= OTA_SIZE_UNKNOWN
    modifies part`blank, part.cells
    ensures part.faultFree ==> (s == null <==> part.cells.Length < imageSize <= 0x1_0000_0000 - SEC)
    ensures s != null ==>
              fresh(s) && s.Valid() && s.healthy && s.image == [] && s.part == part && s.encrypted == encrypted
    ensures s != null ==> !s.refused && s.wrote == 0 && s.partialBytes == 0 && fresh(s.partialData)
    ensures s != null ==> s.needErase == (imageSize == OTA_WITH_SEQUENTIAL_WRITES)
    ensures s != null && !s.needErase ==>
              s.eraseEnd == EraseLength(imageSize, part.cells.Length) <= part.cells.Length
  {
    var end := 0;
    if imageSize != OTA_WITH_SEQUENTIAL_WRITES {
      end := EraseLength(imageSize, part.cells.Length);
      var ok := part.Erase(0, end);
      if !ok {
        return null;
      }
    }
    s := new Session(part, imageSize == OTA_WITH_SEQUENTIAL_WRITES, encrypted, end);
  }

  /** The flush can meet cells nobody erased, without any fault: 4095 bytes, then 2, under encryption in
      sequential mode. All calls report success. */
  method FlushMeetsOldCells(storage: array<Byte>)
    returns (part: Partition, s: Session?, first: Err, second: Err, end: Err)
    requires storage.Length == 2 * SEC
    modifies storage
    ensures s != null && first == Ok && second == Ok && end == Ok && part.overwrote
  {
    part := new Partition(storage, true);
    s := Begin(part, OTA_WITH_SEQUENTIAL_WRITES, true);
    var bytes := seq(4095, i => MAGIC);
    assert s.Takes(bytes);
    first := s.Write(bytes);
    assert s.wrote == 4080 && s.partialBytes == 15;
    assert s.Takes([0, 0]);
    second := s.Write([0, 0]);
    TwoChunks(s);
    end := s.End(true);
  }

  lemma TwoChunks(s: Session)
    requires s.Valid() && s.healthy && s.encrypted && s.needErase && !s.eraseFailed && !s.refused
    requires |s.image| == 4097 && s.lastSize == 2 && s.part.cells.Length == 2 * SEC
    ensures s.wrote > 0 && s.partialBytes > 0 && !s.part.BlankRange(s.wrote, s.wrote + UNIT)
  {
    assert s.wrote == 4096;
    s.FlushBlankIff();
  }
}
