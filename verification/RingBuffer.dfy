/**
 The ring buffer of app_trace_util.c. It hands out contiguous chunks, so it may wrap the write
 pointer early and shrink `curSize` until the read pointer has wrapped as well.
 */
module RingBuffer {
  import opened Wrappers
  import opened Bytes

  class Ring {
    const data: array<Byte>
    var curSize: nat
    var rd: nat
    var wr: nat

    ghost predicate Valid()
      reads this
    {
      && (if rd <= wr then curSize == data.Length else rd < curSize <= data.Length)
      && (wr < data.Length || wr == data.Length == 0)
    }

    /** The unread bytes, oldest first. */
    ghost function Contents(): (s: seq<Byte>)
      requires Valid()
      reads this, data
      ensures |s| == Held()
    {
      View(data[..], rd, wr, curSize)
    }

    ghost function Held(): nat
      requires Valid()
      reads this
    {
      if rd <= wr then wr - rd else curSize - rd + wr
    }

    /** Bytes the ring can still take when it is filled without early wraps: one cell stays unused. */
    ghost function Free(): nat
      requires Valid()
      reads this
    {
      if data.Length == 0 then 0 else data.Length - 1 - Held()
    }

    /** A chunk of n bytes can start at the write pointer, keeping one cell between wr and rd. */
    predicate FitsAtWr(n: nat)
      reads this
    {
      if rd <= wr then wr + n < data.Length || (wr + n == data.Length && rd > 0) else wr + n < rd
    }

    /** A chunk of n bytes can start at offset 0 once the write pointer wraps early. */
    predicate FitsAtFront(n: nat)
      reads this
    {
      rd <= wr && n < rd
    }

    /** A chunk of n bytes can be reserved. */
    predicate HasRoom(n: nat)
      reads this
    {
      FitsAtWr(n) || FitsAtFront(n)
    }

    /** Reading never takes room away. */
    twostate predicate RoomKept()
      reads this
    {
      forall k: nat :: old(HasRoom(k)) ==> HasRoom(k)
    }

    /** The last n bytes of the contents occupy data[off..off + n]. */
    ghost predicate IsTail(off: nat, n: nat)
      requires Valid()
      reads this
    {
      if rd <= wr then
        rd <= off && off + n == wr
      else
        off + n == wr || (wr == 0 && rd <= off && off + n == curSize)
    }

    constructor (storage: array<Byte>)
      ensures Valid() && Contents() == []
      ensures data == storage && curSize == storage.Length
    {
      data := storage;
      curSize := storage.Length;
      rd, wr := 0, 0;
    }

    /** Reserves n contiguous bytes at the end of the queue; None is the NULL of the source. */
    method Produce(n: nat) returns (off: Option<nat>)
      requires Valid()
      modifies this
      ensures Valid()
      ensures off.Some? <==> old(HasRoom(n))
      ensures off.None? ==> unchanged(this)
      ensures off.Some? ==> off.value == if old(FitsAtWr(n)) then old(wr) else 0
      ensures off.Some? ==> off.value + n <= data.Length && IsTail(off.value, n)
      ensures off.Some? ==> Contents() == old(Contents()) + data[off.value..off.value + n]
      ensures old(FitsAtWr(n)) ==> curSize == old(curSize)
    {
      ghost var m, rd0, wr0, cur0 := data[..], rd, wr, curSize;
      off := MoveWr(n);
      if off.Some? {
        ViewGrown(m, rd0, wr0, cur0, rd, wr, curSize, off.value, n);
        assert m[off.value..off.value + n] == data[off.value..off.value + n];
      }
    }

    /** The index arithmetic of Produce. */
    method MoveWr(n: nat) returns (off: Option<nat>)
      requires Valid()
      modifies this
      ensures Valid()
      ensures off.Some? <==> old(HasRoom(n))
      ensures off.None? ==> unchanged(this)
      ensures off.Some? ==> off.value == if old(FitsAtWr(n)) then old(wr) else 0
      ensures off.Some? ==>
                IsTail(off.value, n)
                        && Grown(old(rd), old(wr), old(curSize), rd, wr, curSize, off.value, n, data.Length)
      ensures old(FitsAtWr(n)) ==> curSize == old(curSize)
    {
      var ptr := wr;
      if rd <= wr {
        if wr + n >= data.Length {
          if rd == 0 {
            return None;
          }
          if wr + n == data.Length {
            wr := 0;
          } else {
            if n > rd - 1 {
              return None;
            }
            curSize := wr;
            wr := 0;
            ptr := 0;
            if rd == curSize {
              rd := 0;
              if curSize < data.Length {
                curSize := data.Length;
              }
            }
            wr := wr + n;
          }
        } else {
          wr := wr + n;
        }
      } else {
        if n > rd - wr - 1 {
          return None;
        }
        wr := wr + n;
      }
      return Some(ptr);
    }

    /** Releases the next n contiguous bytes; the caller reads them at the offset returned. */
    method Consume(n: nat) returns (off: Option<nat>)
      requires Valid()
      modifies this
      ensures Valid()
      ensures off.Some? <==> n <= old(ReadSize())
      ensures off.None? ==> unchanged(this)
      ensures off.Some? ==> off.value + n <= data.Length
      ensures off.Some? ==> data[off.value..off.value + n] == old(Contents())[..n]
      ensures off.Some? ==> Contents() == old(Contents())[n..]
      ensures old(curSize) == data.Length ==> curSize == data.Length
      ensures RoomKept() && (off.Some? && n == old(ReadSize()) ==> rd == 0 || rd == wr)
    {
      ghost var m, rd0, wr0, cur0 := data[..], rd, wr, curSize;
      off := MoveRd(n);
      if off.Some? {
        ViewShrunk(m, rd0, wr0, cur0, rd, wr, curSize, n);
        assert m[off.value..off.value + n] == data[off.value..off.value + n];
      }
    }

    /** The index arithmetic of Consume. */
    method MoveRd(n: nat) returns (off: Option<nat>)
      requires Valid()
      modifies this
      ensures Valid()
      ensures off.Some? <==> n <= old(ReadSize())
      ensures off.None? ==> unchanged(this)
      ensures off.Some? ==>
                off.value == old(rd) && Shrunk(old(rd), old(wr), old(curSize), rd, wr, curSize, n, data.Length)
      ensures old(curSize) == data.Length ==> curSize == data.Length
      ensures RoomKept() && (off.Some? && n == old(ReadSize()) ==> rd == 0 || rd == wr)
    {
      var ptr := rd;
      if rd <= wr {
        if rd + n > wr {
          return None;
        }
        rd := rd + n;
      } else {
        if rd + n > curSize {
          return None;
        } else if rd + n == curSize {
          if curSize < data.Length {
            curSize := data.Length;
          }
          rd := 0;
        } else {
          rd := rd + n;
        }
      }
      return Some(ptr);
    }

    /** Bytes one Consume can return: nothing exactly when the queue is empty. */
    function ReadSize(): (n: nat)
      requires Valid()
      reads this
      ensures n <= Held()
      ensures n == 0 <==> Held() == 0
    {
      if rd <= wr then wr - rd else curSize - rd
    }

    /** Bytes one Produce can take without an early wrap, and no fewer. */
    function WriteSize(): (n: nat)
      requires Valid()
      reads this
      ensures forall k: nat :: data.Length > 0 ==> (FitsAtWr(k) <==> k <= n)
      ensures curSize == data.Length ==> n <= Free() && (n == 0 <==> Free() == 0)
    {
      if rd <= wr then
        if data.Length - wr > 0 && rd == 0 then data.Length - wr - 1 else data.Length - wr
      else
        rd - wr - 1
    }

    /** The user's memcpy into a chunk it holds lands at the end of the queue and nowhere else. */
    method Store(ghost off: nat, ghost n: nat, at: nat, bytes: seq<Byte>)
      requires Valid() && IsTail(off, n) && n <= Held()
      requires off <= at && at + |bytes| <= off + n <= data.Length
      modifies data
      ensures Contents() == Splice(old(Contents()), Held() - n + (at - off), bytes)
    {
      ghost var image := data[..];
      Memcpy(data, at, bytes);
      ViewStored(image, rd, wr, curSize, off, n, at, bytes);
    }

    /** A chunk at the end of the queue is where IsTail says it is. */
    lemma TailMemory(off: nat, n: nat)
      requires Valid() && IsTail(off, n) && n <= Held()
      ensures off + n <= data.Length && Contents()[Held() - n..] == data[off..off + n]
    {
      ViewTail(data[..], rd, wr, curSize, off, n);
      assert data[..][off..off + n] == data[off..off + n];
    }
  }

  /** Contents as a function of the memory image. */
  ghost function View(m: seq<Byte>, rd: nat, wr: nat, cur: nat): seq<Byte>
    requires if rd <= wr then wr <= |m| else rd < cur <= |m|
  {
    if rd <= wr then m[rd..wr] else m[rd..cur] + m[..wr]
  }

  /** The ways a chunk joins the queue: behind wr, up to the very end, or at the front after an early
      wrap, which restarts the queue when it was empty. */
  ghost predicate Grown(rd: nat, wr: nat, cur: nat, rd': nat, wr': nat, cur': nat, off: nat, n: nat, size: nat) {
    || (off == wr && wr' == wr + n && rd' == rd && cur' == cur && (rd <= wr ==> wr' <= size) && (wr < rd ==> wr' < rd))
    || (off == wr && wr' == 0 < rd == rd' <= wr && rd < cur' == cur == wr + n)
    || (off == 0 && wr' == n < rd == rd' < wr == cur')
    || (off == 0 == rd' && wr' == n < rd == wr && cur' == cur)
  }

  lemma ViewGrown(m: seq<Byte>, rd: nat, wr: nat, cur: nat, rd': nat, wr': nat, cur': nat, off: nat, n: nat)
    requires if rd <= wr then wr <= |m| == cur else rd < cur <= |m|
    requires Grown(rd, wr, cur, rd', wr', cur', off, n, |m|)
    ensures if rd' <= wr' then wr' <= |m| else rd' < cur' <= |m|
    ensures off + n <= |m| && View(m, rd', wr', cur') == View(m, rd, wr, cur) + m[off..off + n]
  {
  }

  /** A prefix leaves the queue; at the end of the possibly shrunk storage the read pointer wraps. */
  ghost predicate Shrunk(rd: nat, wr: nat, cur: nat, rd': nat, wr': nat, cur': nat, n: nat, size: nat) {
    || (rd' == rd + n && wr' == wr && cur' == cur && (if rd <= wr then rd' <= wr else rd' < cur))
    || (wr < rd && rd + n == cur && rd' == 0 && wr' == wr && cur' == size)
  }

  lemma ViewShrunk(m: seq<Byte>, rd: nat, wr: nat, cur: nat, rd': nat, wr': nat, cur': nat, n: nat)
    requires if rd <= wr then wr <= |m| == cur else rd < cur <= |m|
    requires Shrunk(rd, wr, cur, rd', wr', cur', n, |m|)
    ensures rd + n <= |m| && n <= |View(m, rd, wr, cur)|
    ensures m[rd..rd + n] == View(m, rd, wr, cur)[..n] && View(m, rd', wr', cur') == View(m, rd, wr, cur)[n..]
  {
  }

  lemma ViewTail(m: seq<Byte>, rd: nat, wr: nat, cur: nat, off: nat, n: nat)
    requires if rd <= wr then wr <= |m| && rd <= off && off + n == wr
             else rd < cur <= |m| && (off + n == wr || (wr == 0 && rd <= off && off + n == cur))
    ensures n <= |View(m, rd, wr, cur)| && View(m, rd, wr, cur)[|View(m, rd, wr, cur)| - n..] == m[off..off + n]
  {
  }

  lemma ViewStored(m: seq<Byte>, rd: nat, wr: nat, cur: nat, off: nat, n: nat, at: nat, bytes: seq<Byte>)
    requires off <= at && at + |bytes| <= off + n <= |m|
    requires if rd <= wr then wr <= |m| && rd <= off && off + n == wr
             else rd < cur <= |m| && (off + n == wr || (wr == 0 && rd <= off && off + n == cur))
    ensures n <= |View(m, rd, wr, cur)|
    ensures View(Splice(m, at, bytes), rd, wr, cur)
         == Splice(View(m, rd, wr, cur), |View(m, rd, wr, cur)| - n + (at - off), bytes)
  {
    hide Splice;
    var x := |View(m, rd, wr, cur)| - n + (at - off);
    if rd <= wr {
      assert x == at - rd;
      SpliceSlice(m, at, bytes, rd, wr);
    } else if off + n != wr {
      assert x == at - rd;
      StoredHigh(m, rd, cur, at, bytes);
    } else {
      assert x == cur - rd + at;
      StoredLow(m, rd, wr, cur, at, bytes);
    }
  }

  lemma StoredHigh(m: seq<Byte>, rd: nat, cur: nat, at: nat, bytes: seq<Byte>)
    requires 0 < rd <= at && at + |bytes| <= cur <= |m| && rd < cur
    ensures View(Splice(m, at, bytes), rd, 0, cur) == Splice(View(m, rd, 0, cur), at - rd, bytes)
  {
    SpliceSlice(m, at, bytes, rd, cur);
    assert View(m, rd, 0, cur) == m[rd..cur];
    assert View(Splice(m, at, bytes), rd, 0, cur) == Splice(m, at, bytes)[rd..cur];
  }

  lemma StoredLow(m: seq<Byte>, rd: nat, wr: nat, cur: nat, at: nat, bytes: seq<Byte>)
    requires at + |bytes| <= wr < rd < cur <= |m|
    ensures View(Splice(m, at, bytes), rd, wr, cur) == Splice(View(m, rd, wr, cur), cur - rd + at, bytes)
  {
    SpliceSlice(m, at, bytes, 0, wr);
    SpliceOutside(m, at, bytes, rd, cur);
    SpliceShift(m[rd..cur], m[0..wr], at, bytes);
    assert m[..wr] == m[0..wr] && Splice(m, at, bytes)[..wr] == Splice(m, at, bytes)[0..wr];
  }

  lemma SpliceSlice(m: seq<Byte>, at: nat, bytes: seq<Byte>, a: nat, b: nat)
    requires a <= at && at + |bytes| <= b <= |m|
    ensures Splice(m, at, bytes)[a..b] == Splice(m[a..b], at - a, bytes)
  {
  }

  lemma SpliceOutside(m: seq<Byte>, at: nat, bytes: seq<Byte>, a: nat, b: nat)
    requires at + |bytes| <= a <= b <= |m|
    ensures Splice(m, at, bytes)[a..b] == m[a..b]
  {
  }

  lemma SpliceShift(head: seq<Byte>, m: seq<Byte>, at: nat, bytes: seq<Byte>)
    requires at + |bytes| <= |m|
    ensures head + Splice(m, at, bytes) == Splice(head + m, |head| + at, bytes)
  {
  }
}
