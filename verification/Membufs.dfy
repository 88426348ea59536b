/**
 The two-block up/down protocol of app_trace_membufs_proto.c. The device fills one memory block
 while the host reads the other; packets that do not fit wait in the pending ring and are pumped
 into the new block at every swap.
 */
module Membufs {
  import opened Wrappers
  import opened Bytes
  import opened RingBuffer
  import opened Framing
  import opened Seqs

  /** An address in the current block or in the storage of the pending ring. */
  datatype Ptr = InBlock(off: nat) | InPend(off: nat)

  /**
   The hardware and the clock: which swaps the host permits, what it leaves in the block it hands
   back, and when the timeout fires. `left` bounds the timeout checks that still succeed and the
   times the host still announces data, so every run ends: at 0 the timeout has fired.
   */
  class Environment {
    var left: nat
    // The host's answers to the swaps asked for, oldest first, and how often it announced data.
    ghost var answers: seq<bool>
    ghost var announced: nat
    // What the host offered with each block it handed back, oldest first.
    ghost var offered: seq<seq<Byte>>

    method SwapStart() returns (ok: bool)
      modifies this`answers
      ensures answers == old(answers) + [ok]
    {
      ok := *;
      answers := answers + [ok];
    }

    /** The host returns a block with arbitrary contents, and may announce data in it, no more than fits. */
    method HostExchange(block: array<Byte>) returns (pending: bool)
      requires block.Length >= 2
      modifies block, this`offered
      ensures pending ==> 2 + FromLe16(block[..2]) <= block.Length
      ensures offered == old(offered) + [if pending then block[2..2 + FromLe16(block[..2])] else []]
    {
      for i := 0 to block.Length
        modifies block
      {
        block[i] := *;
      }
      pending := *;
      pending := pending && 2 + FromLe16(block[..2]) <= block.Length;
      offered := offered + [if pending then block[2..2 + FromLe16(block[..2])] else []];
    }

    method TimeoutCheck() returns (ok: bool)
      modifies this`left
      ensures ok <==> old(left) > 0
      ensures left == if ok then old(left) - 1 else 0
    {
      ok := left > 0;
      if ok {
        left := left - 1;
      }
    }

    method HostDataPending() returns (pending: bool)
      modifies this`left, this`announced
      ensures left == if pending then old(left) - 1 else old(left)
      ensures announced == if pending then old(announced) + 1 else old(announced)
    {
      pending := *;
      pending := pending && left > 0;
      if pending {
        left, announced := left - 1, announced + 1;
      }
    }
  }

  /** The answers of a wait for a swap: n refusals, then the last word. */
  ghost predicate Waited(before: seq<bool>, after: seq<bool>, n: int, ok: bool) {
    n >= 0 && after == before + Refusals(n) + [ok]
  }

  ghost function Refusals(n: nat): (s: seq<bool>)
    ensures |s| == n
  {
    if n == 0 then [] else Refusals(n - 1) + [false]
  }

  lemma OneMoreRefusal(before: seq<bool>, n: nat)
    ensures before + Refusals(n) + [false] == before + Refusals(n + 1)
  {
  }

  /** The permitted swaps it takes until at most minSz bytes are left in the block, when every swap
      fills the next block from what is pending. */
  ghost function SwapsNeeded(marker: nat, held: nat, size: nat, minSz: nat): nat
    requires size > 0
    decreases marker + held
  {
    if marker <= minSz then 0
    else 1 + SwapsNeeded(Min(size, held), held - Min(size, held), size, minSz)
  }

  /** One round of the down-buffer loop: bytes[total..total + n] fit without an early wrap. */
  method AppendChunk(rb: Ring, bytes: seq<Byte>, total: nat, n: nat, ghost base: seq<Byte>)
    requires rb.Valid() && rb.curSize == rb.data.Length && rb.FitsAtWr(n)
    requires total + n <= |bytes| && rb.Contents() == base + bytes[..total]
    modifies rb, rb.data
    ensures rb.Valid() && rb.curSize == rb.data.Length
    ensures rb.Contents() == base + bytes[..total + n]
  {
    ghost var queue := rb.Contents();
    var ptr := rb.Produce(n);
    ghost var chunk := rb.data[ptr.value..ptr.value + n];
    rb.Store(ptr.value, n, ptr.value, bytes[total..total + n]);
    SpliceEnd(queue, chunk, bytes[total..total + n]);
    Appended(base, bytes, total, n);
  }

  lemma SpliceEnd(queue: seq<Byte>, chunk: seq<Byte>, bytes: seq<Byte>)
    requires |chunk| == |bytes|
    ensures Splice(queue + chunk, |queue|, bytes) == queue + bytes
  {
  }

  lemma Appended(base: seq<Byte>, bytes: seq<Byte>, total: nat, n: nat)
    requires total + n <= |bytes|
    ensures (base + bytes[..total]) + bytes[total..total + n] == base + bytes[..total + n]
  {
    assert bytes[..total + n] == bytes[..total] + bytes[total..total + n];
    AppendAssoc(base, bytes[..total], bytes[total..total + n]);
  }

  lemma NoSwaps(marker: nat, held: nat, size: nat, minSz: nat)
    requires size > 0
    ensures SwapsNeeded(marker, held, size, minSz) == 0 <==> marker <= minSz
  {
  }

  lemma OneMoreSwap(marker: nat, held: nat, size: nat, minSz: nat)
    requires size > 0 && marker > minSz
    ensures SwapsNeeded(marker, held, size, minSz)
         == 1 + SwapsNeeded(Min(size, held), held - Min(size, held), size, minSz)
  {
  }

  /** The part of a message there is room for. */
  ghost function Accepted(message: seq<Byte>, free: nat): seq<Byte> {
    message[..Min(|message|, free)]
  }

  /** Accepts a prefix of the host's bytes: all of them, or as many as the ring has room for. */
  method DownBufferWrite(rb: Ring, bytes: seq<Byte>) returns (total: nat)
    requires rb.Valid() && rb.curSize == rb.data.Length
    modifies rb, rb.data
    ensures rb.Valid() && rb.curSize == rb.data.Length
    ensures total == Min(|bytes|, old(rb.Free()))
    ensures rb.Contents() == old(rb.Contents()) + bytes[..total]
  {
    total := 0;
    while total < |bytes|
      invariant rb.Valid() && rb.curSize == rb.data.Length
      invariant total <= |bytes| && total <= old(rb.Free())
      invariant rb.Contents() == old(rb.Contents()) + bytes[..total]
    {
      var n := rb.WriteSize();
      if n == 0 {
        break;
      }
      if n > |bytes| - total {
        n := |bytes| - total;
      }
      AppendChunk(rb, bytes, total, n, old(rb.Contents()));
      total := total + n;
    }
  }

  /** The up path: two blocks, how full they are, which one the device fills, and the pending ring. */
  class UpPath {
    const block0: array<Byte>
    const block1: array<Byte>
    const pend: Ring
    var inBlock: nat
    var markers: seq<nat>
    // Everything shown to the host so far.
    ghost var exposed: seq<Byte>

    ghost predicate Valid()
      reads this, pend
    {
      && block0 != block1 && HEADER_SIZE <= block0.Length == block1.Length
      && |markers| == 2 && markers[0] <= block0.Length && markers[1] <= block0.Length
      && inBlock < 0x1_0000_0000
      && pend.data != block0 && pend.data != block1 && pend.Valid()
    }

    predicate InSecond()
      reads this
    {
      inBlock % 2 == 1
    }

    function Cur(): array<Byte>
      reads this
    {
      if InSecond() then block1 else block0
    }

    function Prev(): array<Byte>
      reads this
    {
      if InSecond() then block0 else block1
    }

    function Marker(): nat
      requires |markers| == 2
      reads this
    {
      if InSecond() then markers[1] else markers[0]
    }

    function PrevMarker(): nat
      requires |markers| == 2
      reads this
    {
      if InSecond() then markers[0] else markers[1]
    }

    /** `raw` bytes fit behind the marker and would not overtake pending bytes. */
    ghost predicate RoomInBlock(raw: nat)
      requires Valid()
      reads this, pend
    {
      pend.Held() == 0 && Marker() + raw <= block0.Length
    }

    function Mem(p: Ptr): array<Byte>
      reads this
    {
      if p.InPend? then pend.data else Cur()
    }

    /** The filled part of the current block. */
    ghost function Filled(): (s: seq<Byte>)
      requires Valid()
      reads this, pend, Cur()
      ensures |s| == Marker()
    {
      Cur()[..Marker()]
    }

    /** What the device still holds: the current block, then the pending ring. */
    ghost function Body(): seq<Byte>
      requires Valid()
      reads this, Cur(), pend, pend.data
    {
      Filled() + pend.Contents()
    }

    /** The up stream: what the host was shown and what the device still holds. */
    ghost function Stream(): seq<Byte>
      requires Valid()
      reads this, Cur(), pend, pend.data
    {
      exposed + Body()
    }

    /** `raw` bytes at p are the end of the stream, and lie in the block only if nothing is pending. */
    ghost predicate IsTail(p: Ptr, raw: nat)
      requires Valid()
      reads this, pend
    {
      if p.InPend? then p.off + raw <= pend.data.Length && raw <= pend.Held() && pend.IsTail(p.off, raw)
      else pend.Held() == 0 && p.off + raw == Marker()
    }

    constructor (block0: array<Byte>, block1: array<Byte>, pendingData: array<Byte>)
      requires block0 != block1 && HEADER_SIZE <= block0.Length == block1.Length
      requires pendingData != block0 && pendingData != block1
      ensures Valid() && Stream() == [] && exposed == [] && Marker() == 0
      ensures this.block0 == block0 && this.block1 == block1 && pend.data == pendingData
      ensures fresh(pend)
    {
      this.block0, this.block1 := block0, block1;
      pend := new Ring(pendingData);
      inBlock := 0;
      markers := [0, 0];
      exposed := [];
    }

    method SetMarker(m: nat)
      requires Valid() && m <= block0.Length
      modifies this`markers
      ensures Valid() && Marker() == m && PrevMarker() == old(PrevMarker())
    {
      markers := if InSecond() then markers[1 := m] else markers[0 := m];
    }

    /** Starts filling the other block, which the host has drained. */
    method Switch()
      requires Valid()
      modifies this`markers, this`inBlock
      ensures Valid() && Marker() == 0 && PrevMarker() == old(Marker())
      ensures Cur() == old(Prev()) && Prev() == old(Cur())
    {
      var next := if inBlock % 2 == 1 then 0 else 1;
      markers := markers[next := 0];
      inBlock := (inBlock + 1) % 0x1_0000_0000;
    }

    /** hw->swap_end: the host learns how much of the block just left is filled. */
    ghost method Expose()
      requires Valid()
      modifies this`exposed
      ensures Valid() && exposed == old(exposed) + Prev()[..PrevMarker()]
    {
      exposed := exposed + Prev()[..PrevMarker()];
    }

    /** Moves pending bytes into the new block until the block is full or nothing is pending. */
    method Pump()
      requires Valid() && Marker() == 0
      modifies this`markers, Cur(), pend
      ensures Valid() && PrevMarker() == old(PrevMarker())
      ensures Body() == old(pend.Contents())
      ensures pend.Held() > 0 ==> Marker() == block0.Length
      ensures pend.RoomKept()
    {
      assert Filled() == [];
      while Marker() < block0.Length
        invariant Valid() && PrevMarker() == old(PrevMarker())
        invariant Body() == old(pend.Contents())
        invariant pend.RoomKept()
        decreases block0.Length - Marker()
      {
        var n := pend.ReadSize();
        if n == 0 {
          break;
        }
        if n > block0.Length - Marker() {
          n := block0.Length - Marker();
        }
        PumpChunk(n);
      }
    }

    /** Fills the new block and tells the host about the one just left. */
    method Complete()
      requires Valid() && Marker() == 0
      modifies this`markers, this`exposed, Cur(), pend
      ensures Valid() && PrevMarker() == old(PrevMarker())
      ensures exposed == old(exposed) + old(Prev()[..PrevMarker()])
      ensures Body() == old(pend.Contents())
      ensures pend.Held() > 0 ==> Marker() == block0.Length
      ensures pend.RoomKept()
    {
      Pump();
      Expose();
    }

    method PumpChunk(n: nat)
      requires Valid() && n <= pend.ReadSize() && Marker() + n <= block0.Length
      modifies this`markers, Cur(), pend
      ensures Valid() && Marker() == old(Marker()) + n && PrevMarker() == old(PrevMarker())
      ensures Body() == old(Body()) && pend.RoomKept()
    {
      var block, m := Cur(), Marker();
      ghost var head, queue := Filled(), pend.Contents();
      var off := pend.Consume(n);
      Memcpy(block, m, pend.data[off.value..off.value + n]);
      SetMarker(m + n);
      Moved(head, queue, n, Filled(), pend.Contents());
    }

    lemma Moved(head: seq<Byte>, queue: seq<Byte>, n: nat, head': seq<Byte>, queue': seq<Byte>)
      requires n <= |queue| && |head'| == |head| + n
      requires head'[..|head|] == head && head'[|head|..] == queue[..n] && queue' == queue[n..]
      ensures head' + queue' == head + queue
    {
      assert head' == head + queue[..n];
      assert queue == queue[..n] + queue[n..];
    }

    /** The user's writes into a reserved chunk land at the end of the stream and nowhere else:
        `tail`, behind `front`, is the chunk at p, and x the offset in it. */
    method Store(ghost p: Ptr, ghost front: seq<Byte>, ghost tail: seq<Byte>, ghost x: nat, at: Ptr, bytes: seq<Byte>)
      requires Valid() && IsTail(p, |tail|) && Stream() == front + tail && x + |bytes| <= |tail|
      requires at.InPend? == p.InPend? && at.off == p.off + x
      modifies Mem(at)
      ensures Valid() && Stream() == front + Splice(tail, x, bytes)
    {
      if at.InPend? {
        StoreInPending(p.off, front, tail, x, at.off, bytes);
      } else {
        StoreInBlock(at.off, front, tail, x, bytes);
      }
    }

    method StoreInPending(ghost off: nat, ghost front: seq<Byte>, ghost tail: seq<Byte>, ghost x: nat, at: nat,
                          bytes: seq<Byte>)
      requires Valid() && at == off + x && pend.IsTail(off, |tail|) && |tail| <= pend.Held()
      requires off + |tail| <= pend.data.Length && Stream() == front + tail && x + |bytes| <= |tail|
      modifies pend.data
      ensures Valid() && Stream() == front + Splice(tail, x, bytes)
    {
      ghost var filled, queue := Filled(), pend.Contents();
      pend.Store(off, |tail|, at, bytes);
      SplicePending(exposed, filled, queue, front, tail, x, bytes);
    }

    lemma SplicePending(shown: seq<Byte>, filled: seq<Byte>, queue: seq<Byte>,
                        front: seq<Byte>, tail: seq<Byte>, x: nat, bytes: seq<Byte>)
      requires shown + (filled + queue) == front + tail && x + |bytes| <= |tail| <= |queue|
      ensures shown + (filled + Splice(queue, |queue| - |tail| + x, bytes)) == front + Splice(tail, x, bytes)
    {
      AppendAssoc(shown, filled, queue);
      AppendAssoc(shown, filled, Splice(queue, |queue| - |tail| + x, bytes));
      SpliceTail(shown + filled, queue, front, tail, x, bytes);
    }

    method StoreInBlock(at: nat, ghost front: seq<Byte>, ghost tail: seq<Byte>, ghost x: nat, bytes: seq<Byte>)
      requires Valid() && pend.Held() == 0 && x <= at && at + |tail| == Marker() + x
      requires Stream() == front + tail && x + |bytes| <= |tail|
      modifies Cur()
      ensures Valid() && Stream() == front + Splice(tail, x, bytes)
    {
      ghost var image, filled := Cur()[..], Filled();
      assert pend.Contents() == [] && Body() == filled;
      Memcpy(Cur(), at, bytes);
      SpliceSlice(image, at, bytes, 0, Marker());
      assert image[0..Marker()] == filled && Cur()[..][0..Marker()] == Filled();
      assert Body() == Filled();
      SpliceTail(exposed, filled, front, tail, x, bytes);
    }

    lemma SpliceTail(shown: seq<Byte>, body: seq<Byte>, front: seq<Byte>, tail: seq<Byte>, x: nat, bytes: seq<Byte>)
      requires shown + body == front + tail && x + |bytes| <= |tail| <= |body|
      ensures shown + Splice(body, |body| - |tail| + x, bytes) == front + Splice(tail, x, bytes)
    {
      SpliceShift(shown, body, |body| - |tail| + x, bytes);
      SpliceShift(front, tail, x, bytes);
    }

    /** The pointer of a reserved chunk addresses the end of the stream. */
    lemma TailMemory(p: Ptr, front: seq<Byte>, tail: seq<Byte>)
      requires Valid() && IsTail(p, |tail|) && Stream() == front + tail
      ensures p.off + |tail| <= Mem(p).Length && Mem(p)[p.off..p.off + |tail|] == tail
    {
      if p.InPend? {
        TailInPending(p.off, front, tail);
      } else {
        TailInBlock(p.off, front, tail);
      }
    }

    lemma TailInPending(off: nat, front: seq<Byte>, tail: seq<Byte>)
      requires Valid() && pend.IsTail(off, |tail|) && |tail| <= pend.Held() && Stream() == front + tail
      ensures off + |tail| <= pend.data.Length && pend.data[off..off + |tail|] == tail
    {
      var queue := pend.Contents();
      AppendAssoc(exposed, Filled(), queue);
      LastBytes(exposed + Filled(), queue, front, tail);
      pend.TailMemory(off, |tail|);
    }

    lemma TailInBlock(off: nat, front: seq<Byte>, tail: seq<Byte>)
      requires Valid() && pend.Held() == 0 && off + |tail| == Marker() && Stream() == front + tail
      ensures Cur()[off..off + |tail|] == tail
    {
      var filled := Filled();
      assert pend.Contents() == [] && Body() == filled;
      LastBytes(exposed, filled, front, tail);
      assert filled[off..] == Cur()[off..off + |tail|];
    }

    lemma LastBytes(x: seq<Byte>, y: seq<Byte>, front: seq<Byte>, tail: seq<Byte>)
      requires x + y == front + tail && |tail| <= |y|
      ensures y[|y| - |tail|..] == tail
    {
      assert tail == (front + tail)[|front|..] == (x + y)[|front|..];
    }

    /** Reserves in the pending ring. */
    method ReservePending(raw: nat) returns (p: Option<Ptr>, ghost chunk: seq<Byte>)
      requires Valid()
      modifies pend
      ensures Valid()
      ensures p.None? <==> !old(pend.HasRoom(raw))
      ensures p.None? ==> unchanged(pend)
      ensures p.Some? ==> p.value == InPend(if old(pend.FitsAtWr(raw)) then old(pend.wr) else 0)
      ensures p.Some? ==> IsTail(p.value, raw) && pend.Held() == old(pend.Held()) + raw
      ensures p.Some? ==> |chunk| == raw && Stream() == old(Stream()) + chunk
    {
      ghost var head, queue := Filled(), pend.Contents();
      var off := pend.Produce(raw);
      if off.None? {
        return None, [];
      }
      p, chunk := Some(InPend(off.value)), pend.data[off.value..off.value + raw];
      AppendAssoc(head, queue, chunk);
      AppendAssoc(exposed, head + queue, chunk);
    }

    /** Advances the marker over space the current block still has. */
    method AdvanceMarker(raw: nat) returns (ghost chunk: seq<Byte>)
      requires Valid() && pend.Held() == 0 && Marker() + raw <= block0.Length
      modifies this`markers
      ensures Valid() && PrevMarker() == old(PrevMarker()) && Marker() == old(Marker()) + raw
      ensures IsTail(InBlock(old(Marker())), raw)
      ensures |chunk| == raw && Stream() == old(Stream()) + chunk
    {
      ghost var filled := Filled();
      SetMarker(Marker() + raw);
      chunk := Filled()[|filled|..];
      assert Filled() == filled + chunk;
      AppendAssoc(exposed, filled, chunk);
      assert Filled() + pend.Contents() == Filled() && filled + pend.Contents() == filled;
    }
  }

  /** A packet handed out by UpBufferGet and not yet put; `at` addresses its header. */
  datatype Reservation = Reservation(at: Ptr, core: nat, size: nat) {
    ghost function Raw(): nat { HEADER_SIZE + size }
  }

  class Proto {
    const up: UpPath
    var down: Ring
    // Packets put so far and their encoding; the packet between get and put and its bytes so far.
    ghost var sent: seq<Packet>
    ghost var encoded: seq<Byte>
    ghost var open: Option<Reservation>
    ghost var openBytes: seq<Byte>
    // Bytes accepted from the host, and the part of them handed to the user.
    ghost var received: seq<Byte>
    ghost var delivered: seq<Byte>

    /** The down ring never wraps early, and holds exactly what was accepted and not yet delivered. */
    ghost predicate DownOk()
      reads this, down, down.data
    {
      && down.Valid() && down.curSize == down.data.Length
      && received == delivered + down.Contents()
    }

    /** The two paths share no memory. */
    ghost predicate Apart()
      reads this, up
    {
      down != up.pend && down.data != up.pend.data && down.data != up.block0 && down.data != up.block1
    }

    ghost predicate Layout()
      reads this, up, up.pend, down, down.data
    {
      Apart() && up.Valid() && DownOk()
    }

    /** Pending bytes exist only behind a block that holds something. */
    ghost predicate NoOrphans()
      requires up.Valid()
      reads this, up, up.pend
    {
      up.pend.Held() > 0 ==> up.Marker() > 0
    }

    ghost predicate SentOk()
      reads this`sent, this`encoded
    {
      (forall p :: p in sent ==> p.Valid()) && encoded == Encode(sent)
    }

    /** The open packet sits at the end of the stream, behind a header that still says nothing was written. */
    ghost predicate OpenOk()
      requires up.Valid()
      reads this, up, up.pend
    {
      match open
      case None => openBytes == []
      case Some(r) =>
        && r.core <= 1 && r.size < CORE_BIT
        && up.IsTail(r.at, r.Raw()) && |openBytes| == r.Raw()
        && openBytes[..HEADER_SIZE] == Header(r.core, r.size, false)
    }

    /** One ordered stream: shown ++ block ++ pending is the encoding of the packets put, then the open one. */
    ghost predicate StreamOk()
      requires up.Valid()
      reads this, up, up.block0, up.block1, up.pend, up.pend.data
    {
      SentOk() && NoOrphans() && OpenOk() && up.Stream() == encoded + openBytes
    }

    ghost predicate Valid()
      reads this, up, up.block0, up.block1, up.pend, up.pend.data, down, down.data
    {
      Layout() && StreamOk()
    }

    /** Valid, and no packet is between get and put. */
    ghost predicate Ready()
      reads this, up, up.block0, up.block1, up.pend, up.pend.data, down, down.data
    {
      open.None? && Valid()
    }

    /** A successful swap: the filled part of the block reached the host and pending bytes moved up. */
    twostate predicate Swapped()
      requires old(up.Valid()) && up.Valid()
      reads this, up, up.block0, up.block1, up.pend
    {
      && up.exposed == old(up.exposed) + old(up.Filled())
      && up.Marker() + up.pend.Held() == old(up.pend.Held())
      && (up.pend.Held() > 0 ==> up.Marker() == up.block0.Length)
      && up.pend.RoomKept()
    }

    /** Neither the host nor the clock was involved. */
    twostate predicate Quiet(env: Environment)
      reads this`received, up`exposed, env
    {
      unchanged(env) && received == old(received) && up.exposed == old(up.exposed)
    }

    /** The host offered one message, and exactly what there was room for was received. */
    twostate predicate TookOffer(env: Environment)
      requires old(down.Valid())
      reads this`received, env
    {
      && env.offered != [] && env.offered[..|env.offered| - 1] == old(env.offered)
      && received == old(received) + Accepted(env.offered[|env.offered| - 1], old(down.Free()))
    }

    constructor (block0: array<Byte>, block1: array<Byte>, pendingData: array<Byte>, downData: array<Byte>)
      requires block0 != block1 && HEADER_SIZE <= block0.Length == block1.Length
      requires pendingData !in {block0, block1, downData} && downData !in {block0, block1}
      ensures Ready() && sent == [] && up.exposed == [] && received == [] && delivered == []
      ensures up.block0 == block0 && up.block1 == block1 && up.pend.data == pendingData && down.data == downData
      ensures fresh(up) && fresh(up.pend) && fresh(down)
    {
      up := new UpPath(block0, block1, pendingData);
      down := new Ring(downData);
      sent, encoded, openBytes, received, delivered := [], [], [], [], [];
      open := None;
    }

    /** Gives the down path new storage; what it held and its history are dropped. */
    method DownBufferConfig(storage: array<Byte>)
      requires Ready() && storage != up.block0 && storage != up.block1 && storage != up.pend.data
      modifies this`down, this`received, this`delivered
      ensures Ready() && fresh(down) && down.data == storage
      ensures down.Contents() == [] && received == [] && delivered == []
    {
      down := new Ring(storage);
      received, delivered := [], [];
    }

    /** Takes the host's message, if any, out of the block it handed back. */
    method ReceiveFromHost(block: array<Byte>, env: Environment)
      requires DownOk() && block != down.data && HEADER_SIZE <= block.Length
      modifies this`received, block, down, down.data, env`offered
      ensures DownOk() && TookOffer(env)
      ensures env.offered[|env.offered| - 1] != [] ==> block[..2] == [0, 0]
    {
      var pending := env.HostExchange(block);
      var size := FromLe16(block[..2]);
      if pending && size > 0 {
        var host := block[2..2 + size];
        AcceptMessage(host);
        Memcpy(block, 0, [0, 0]);
      }
    }

    /** Puts as much of a message into the down ring as it has room for. */
    method AcceptMessage(host: seq<Byte>)
      requires DownOk()
      modifies this`received, down, down.data
      ensures DownOk() && received == old(received) + Accepted(host, old(down.Free()))
    {
      ghost var held := down.Contents();
      var n := DownBufferWrite(down, host);
      received := received + host[..n];
      AppendAssoc(delivered, held, host[..n]);
    }

    method Swap(env: Environment) returns (ok: bool)
      requires Ready()
      modifies this`received, up, up.block0, up.block1, up.pend, down, down.data, env`offered, env`answers
      ensures Ready() && old(received) <= received
      ensures env.answers == old(env.answers) + [ok]
      ensures ok ==> Swapped() && TookOffer(env)
      ensures !ok ==> unchanged(this, up, up.block0, up.block1, up.pend, down, down.data) && unchanged(env`offered)
    {
      ok := env.SwapStart();
      if ok {
        Exchange(env);
      }
    }

    /** Moves to the block the host handed back and takes the host's message out of it. */
    method Turn(env: Environment)
      requires Layout()
      modifies this`received, up`markers, up`inBlock, up.Prev(), down, down.data, env`offered
      ensures Layout() && TookOffer(env)
      ensures up.Marker() == 0 && up.Prev() == old(up.Cur()) && up.PrevMarker() == old(up.Marker())
      ensures up.Cur() == old(up.Prev())
    {
      up.Switch();
      ReceiveFromHost(up.Cur(), env);
    }

    /** The swap proper, once the host permitted it. */
    method Exchange(env: Environment)
      requires Layout()
      modifies this`received, up, up.block0, up.block1, up.pend, down, down.data, env`offered
      ensures Layout() && TookOffer(env)
      ensures Swapped() && up.Stream() == old(up.Stream())
    {
      ghost var shown, filled, queue := up.exposed, up.Filled(), up.pend.Contents();
      Turn(env);
      up.Complete();
      AppendAssoc(shown, filled, queue);
    }

    /** Retries a refused swap until the timeout fires: one check of the time behind every refusal. */
    method SwapWait(env: Environment) returns (ok: bool)
      requires Ready()
      modifies this`received, up, up.block0, up.block1, up.pend, down, down.data, env`offered, env`answers, env`left
      ensures Ready() && old(received) <= received && env.left <= old(env.left)
      ensures Waited(old(env.answers), env.answers, old(env.left) - env.left, ok)
      ensures ok ==> Swapped() && TookOffer(env)
      ensures !ok ==> env.left == 0
      ensures !ok ==> unchanged(this, up, up.block0, up.block1, up.pend, down, down.data) && unchanged(env`offered)
    {
      hide StreamOk, Apart;
      ghost var before, n := env.answers, 0;
      while true
        invariant Ready() && env.left + n == old(env.left)
        invariant env.answers == before + Refusals(n)
        invariant unchanged(this, up, up.block0, up.block1, up.pend, down, down.data) && unchanged(env`offered)
        decreases env.left
      {
        ok := Swap(env);
        if ok {
          return;
        }
        var again := env.TimeoutCheck();
        if !again {
          return;
        }
        OneMoreRefusal(before, n);
        n := n + 1;
      }
    }

    /** What a wait for room comes to. The timeout fires and nothing has changed, or one swap is
        permitted, and then the block is used if all that was pending and `raw` bytes fit it, the
        pending ring otherwise. */
    twostate predicate AfterWait(new p: Option<Ptr>, raw: nat, env: Environment)
      requires old(up.Valid()) && up.Valid()
      reads this, up, up.block0, up.block1, up.pend, env
    {
      && old(env.answers) < env.answers
      && var ok := env.answers[|env.answers| - 1];
      && Waited(old(env.answers), env.answers, old(env.left) - env.left, ok)
      && (!ok ==> p.None? && env.left == 0 && unchanged(up, up.pend, this`received))
      && (ok ==> up.exposed == old(up.exposed) + old(up.Filled()))
      && (ok && old(up.pend.Held()) + raw <= up.block0.Length ==> p == Some(InBlock(old(up.pend.Held()))))
      && (ok && old(up.pend.Held()) + raw > up.block0.Length ==> p.None? || p.value.InPend?)
      && (ok && p.None? ==> !up.pend.HasRoom(raw) && !up.RoomInBlock(raw))
    }

    /** Waits for a swap, then finds room; space in the block is not yet taken by advancing the marker. */
    method Wait4Buf(raw: nat, env: Environment) returns (p: Option<Ptr>, pended: bool)
      requires Ready() && HEADER_SIZE <= raw <= up.block0.Length
      modifies this`openBytes, this`received, up, up.block0, up.block1, up.pend, down, down.data
      modifies env`offered, env`answers, env`left
      ensures Layout() && old(received) <= received && env.left <= old(env.left)
      ensures p.None? || !pended ==> Ready()
      ensures p.Some? && pended ==> Reserved(p.value, raw) && p.value.InPend?
      ensures p.Some? && !pended ==> up.RoomInBlock(raw) && p.value == InBlock(up.Marker())
      ensures AfterWait(p, raw, env)
      ensures p.Some? && pended ==> up.pend.Held() > raw || up.Marker() + raw > up.block0.Length
    {
      hide StreamOk, DownOk, Apart, Reserved;
      pended := false;
      var ok := SwapWait(env);
      if !ok {
        return None, false;
      }
      if up.pend.ReadSize() > 0 {
        pended := true;
        p := Reserve(raw);
      } else if up.Marker() + raw > up.block0.Length {
        pended := true;
        p := Reserve(raw);
      } else {
        p := Some(InBlock(up.Marker()));
      }
    }

    /** `raw` bytes are reserved at p, at the end of the stream, and not yet opened. */
    ghost predicate Reserved(p: Ptr, raw: nat)
      requires up.Valid()
      reads this, up, up.block0, up.block1, up.pend, up.pend.data
    {
      && open.None? && SentOk() && NoOrphans() && up.IsTail(p, raw)
      && |openBytes| == raw && up.Stream() == encoded + openBytes
    }

    /** Reserves in the pending ring, behind a block that holds something. */
    method Reserve(raw: nat) returns (p: Option<Ptr>)
      requires Ready() && up.Marker() > 0
      modifies this`openBytes, up.pend
      ensures Layout()
      ensures p.None? ==> unchanged(up.pend, this) && Ready()
      ensures p.Some? ==> p.value == InPend(if old(up.pend.FitsAtWr(raw)) then old(up.pend.wr) else 0)
      ensures p.Some? ==> Reserved(p.value, raw) && up.pend.Held() == old(up.pend.Held()) + raw
      ensures p.None? <==> !old(up.pend.HasRoom(raw))
    {
      assert encoded + [] == encoded;
      ghost var chunk;
      p, chunk := up.ReservePending(raw);
      if p.Some? {
        openBytes := chunk;
      }
    }

    /** Reserves in the current block. */
    method ReserveInBlock(raw: nat) returns (p: Ptr)
      requires Ready() && up.pend.Held() == 0 && up.Marker() + raw <= up.block0.Length
      modifies this`openBytes, up`markers
      ensures Layout() && p == InBlock(old(up.Marker())) && Reserved(p, raw)
    {
      assert encoded + [] == encoded;
      p := InBlock(up.Marker());
      openBytes := up.AdvanceMarker(raw);
    }

    /** A store at offset x of the open bytes, at p. */
    method StoreOpen(ghost p: Ptr, ghost x: nat, at: Ptr, bytes: seq<Byte>)
      requires Layout() && NoOrphans() && up.IsTail(p, |openBytes|)
      requires up.Stream() == encoded + openBytes && x + |bytes| <= |openBytes|
      requires at.InPend? == p.InPend? && at.off == p.off + x
      modifies this`openBytes, up.Mem(at)
      ensures Layout() && NoOrphans() && up.IsTail(p, |openBytes|)
      ensures openBytes == Splice(old(openBytes), x, bytes) && up.Stream() == encoded + openBytes
    {
      up.Store(p, encoded, openBytes, x, at, bytes);
      openBytes := Splice(openBytes, x, bytes);
    }

    /** `user` addresses the first byte behind the header of the open packet. */
    ghost predicate IsUserPtr(user: Ptr)
      requires open.Some?
      reads this
    {
      user.InPend? == open.value.at.InPend? && user.off == open.value.at.off + HEADER_SIZE
    }

    /** The user's bytes follow the header. */
    function UserPtr(p: Ptr): Ptr {
      if p.InPend? then InPend(p.off + HEADER_SIZE) else InBlock(p.off + HEADER_SIZE)
    }

    /** Writes the header of a reserved packet and opens it; returns the address of the user's bytes. */
    method PktStart(p: Ptr, core: nat, size: nat) returns (user: Ptr)
      requires Layout() && core <= 1 && size < CORE_BIT
      requires Reserved(p, HEADER_SIZE + size)
      modifies this`open, this`openBytes, up.Mem(p)
      ensures Valid() && open == Some(Reservation(p, core, size)) && IsUserPtr(user)
      ensures user == UserPtr(p)
      ensures p.InBlock? ==> up.pend.Held() == 0
    {
      var header := Header(core, size, false);
      StoreOpen(p, 0, p, header);
      open := Some(Reservation(p, core, size));
      user := UserPtr(p);
    }

    /** Where `raw` bytes are reserved, by what there is room for before the call. Room in the block is
        taken at once, and so is room in the pending ring when nothing is pending. With neither, one
        permitted swap leaves the whole block, and without one the timeout has fired. */
    twostate predicate PlacedAtOnce(new p: Option<Ptr>, raw: nat, env: Environment)
      requires old(up.Valid()) && up.Valid()
      reads this, up, up.block0, up.block1, up.pend, env
    {
      && (old(up.RoomInBlock(raw)) ==> p == Some(InBlock(old(up.Marker()))) && Quiet(env) && unchanged(up.pend))
      && (old(up.pend.Held()) == 0 && !old(up.RoomInBlock(raw)) && old(up.pend.HasRoom(raw)) ==>
            && p == Some(InPend(if old(up.pend.FitsAtWr(raw)) then old(up.pend.wr) else 0))
            && Quiet(env) && up.Marker() == old(up.Marker()))
      && (old(up.pend.Held()) == 0 && !old(up.RoomInBlock(raw)) && !old(up.pend.HasRoom(raw)) ==>
            && Waited(old(env.answers), env.answers, old(env.left) - env.left, p.Some?)
            && (p.Some? ==> p == Some(InBlock(0)) && up.exposed == old(up.exposed) + old(up.Filled()))
            && (p.None? ==> env.left == 0 && unchanged(up, up.pend, this`received)))
    }

    /** The same with bytes pending: one swap is tried first. If it succeeds and the block then holds
        all that was pending with room to spare, the block is used. If the ring had room before, the
        result is there without a wait. */
    twostate predicate PlacedBehindPending(new p: Option<Ptr>, raw: nat, env: Environment)
      requires old(up.Valid()) && up.Valid()
      reads this, up, up.block0, up.block1, up.pend, env
    {
      old(up.pend.Held()) > 0 ==>
        && old(env.answers) < env.answers
        && var first := env.answers[|old(env.answers)|];
        && var once := |env.answers| == |old(env.answers)| + 1 && env.left == old(env.left);
        && (first && old(up.pend.Held()) + raw <= up.block0.Length ==> once && p == Some(InBlock(old(up.pend.Held()))))
        && (old(up.pend.HasRoom(raw)) ==> once && p.Some?)
        && (once || |env.answers| == |old(env.answers)| + 2 + old(env.left) - env.left)
    }

    /** There is no result only if the ring refused, and then the wait timed out or the swap it ended
        with left room neither in the block nor in the ring. */
    twostate predicate Refused(raw: nat, env: Environment)
      requires old(up.Valid()) && up.Valid()
      reads this, up, up.pend, env
    {
      && !old(up.RoomInBlock(raw)) && !old(up.pend.HasRoom(raw))
      && !up.RoomInBlock(raw) && !up.pend.HasRoom(raw)
      && old(env.answers) < env.answers && (env.left == 0 || env.answers[|env.answers| - 1])
      && |env.answers| == |old(env.answers)| + 1 + old(env.left) - env.left + (if old(up.pend.Held()) > 0 then 1 else 0)
    }

    /** Allocates room for `size` user bytes and opens a packet there. */
    method UpBufferGet(core: nat, size: nat, env: Environment) returns (user: Option<Ptr>)
      requires Ready() && core <= 1 && (size < CORE_BIT || HEADER_SIZE + size > up.block0.Length)
      modifies this`open, this`openBytes, this`received, up, up.block0, up.block1, up.pend, up.pend.data, down
      modifies down.data, env`offered, env`answers, env`left
      ensures Valid() && old(received) <= received && old(up.exposed) <= up.exposed
      ensures user.None? ==> open.None?
      ensures user.Some? ==> open.Some? && open.value.core == core && open.value.size == size && IsUserPtr(user.value)
      ensures user.Some? && user.value.InBlock? ==> up.pend.Held() == 0
      ensures size + HEADER_SIZE > up.block0.Length ==> user.None? && unchanged(this, up, up.pend, down, env)
      ensures size + HEADER_SIZE <= up.block0.Length && user.None? ==> Refused(HEADER_SIZE + size, env)
      ensures size + HEADER_SIZE <= up.block0.Length ==>
                var at := if open.Some? then Some(open.value.at) else None;
                PlacedAtOnce(at, HEADER_SIZE + size, env) && PlacedBehindPending(at, HEADER_SIZE + size, env)
      ensures user.Some? && user.value.InPend? ==>
                up.pend.Held() > HEADER_SIZE + size || up.Marker() + HEADER_SIZE + size > up.block0.Length
    {
      if size > up.Cur().Length - HEADER_SIZE {
        return None;
      }
      user := GetFitting(core, size, env);
    }

    /** The same for a packet that is not larger than a block. */
    method GetFitting(core: nat, size: nat, env: Environment) returns (user: Option<Ptr>)
      requires Ready() && core <= 1 && size < CORE_BIT && HEADER_SIZE + size <= up.block0.Length
      modifies this`open, this`openBytes, this`received, up, up.block0, up.block1, up.pend, up.pend.data
      modifies down, down.data, env`offered, env`answers, env`left
      ensures Valid() && old(received) <= received && old(up.exposed) <= up.exposed
      ensures user.None? ==> open.None?
      ensures user.Some? ==> open.Some? && open.value.core == core && open.value.size == size && IsUserPtr(user.value)
      ensures user.Some? && user.value.InBlock? ==> up.pend.Held() == 0
      ensures user.None? ==> Refused(HEADER_SIZE + size, env)
      ensures var at := if open.Some? then Some(open.value.at) else None;
              PlacedAtOnce(at, HEADER_SIZE + size, env) && PlacedBehindPending(at, HEADER_SIZE + size, env)
      ensures user.Some? && user.value.InPend? ==>
                up.pend.Held() > HEADER_SIZE + size || up.Marker() + HEADER_SIZE + size > up.block0.Length
    {
      hide Layout, StreamOk, Reserved, SentOk, NoOrphans, OpenOk, IsUserPtr;
      var p := Place(HEADER_SIZE + size, env);
      if p.None? {
        return None;
      }
      var u := PktStart(p.value, core, size);
      user := Some(u);
    }

    /** Finds room for `raw` bytes: behind pending data, in the block, or by waiting for a swap. */
    method Place(raw: nat, env: Environment) returns (p: Option<Ptr>)
      requires Ready() && HEADER_SIZE <= raw <= up.block0.Length
      modifies this`openBytes, this`received, up, up.block0, up.block1, up.pend, down, down.data
      modifies env`offered, env`answers, env`left
      ensures Layout() && old(received) <= received && old(up.exposed) <= up.exposed
      ensures p.None? ==> Ready() && Refused(raw, env)
      ensures p.Some? ==> Reserved(p.value, raw)
      ensures PlacedAtOnce(p, raw, env) && PlacedBehindPending(p, raw, env)
      ensures p.Some? && p.value.InPend? ==> up.pend.Held() > raw || up.Marker() + raw > up.block0.Length
    {
      hide StreamOk, DownOk, Apart, Reserved;
      if up.pend.ReadSize() > 0 {
        var _ := Swap(env);
      }
      p := Take(raw, env);
    }

    /** The pending ring if anything is pending or the block is too full, the block otherwise. */
    method Take(raw: nat, env: Environment) returns (p: Option<Ptr>)
      requires Ready() && HEADER_SIZE <= raw <= up.block0.Length
      modifies this`openBytes, this`received, up, up.block0, up.block1, up.pend, down, down.data
      modifies env`offered, env`answers, env`left
      ensures Layout() && old(received) <= received && old(up.exposed) <= up.exposed
      ensures p.None? ==> Ready() && !up.RoomInBlock(raw) && !up.pend.HasRoom(raw)
      ensures p.Some? ==> Reserved(p.value, raw)
      ensures old(up.RoomInBlock(raw)) ==>
                p == Some(InBlock(old(up.Marker()))) && Quiet(env) && unchanged(up.pend)
      ensures !old(up.RoomInBlock(raw)) && old(up.pend.HasRoom(raw)) ==>
                && p == Some(InPend(if old(up.pend.FitsAtWr(raw)) then old(up.pend.wr) else 0))
                && Quiet(env) && up.Marker() == old(up.Marker())
      ensures !old(up.RoomInBlock(raw)) && !old(up.pend.HasRoom(raw)) ==> AfterWait(p, raw, env)
      ensures p.Some? && p.value.InPend? ==> up.pend.Held() > raw || up.Marker() + raw > up.block0.Length
    {
      hide SentOk, DownOk, Apart, OpenOk, Reserved;
      if up.pend.ReadSize() > 0 || up.Marker() + raw > up.Cur().Length {
        p := ReserveOrWait(raw, env);
      } else {
        var q := ReserveInBlock(raw);
        p := Some(q);
      }
    }

    /** The pending ring first; if it refuses, whatever the next swap leaves room for. */
    method ReserveOrWait(raw: nat, env: Environment) returns (p: Option<Ptr>)
      requires Ready() && HEADER_SIZE <= raw <= up.block0.Length && !up.RoomInBlock(raw)
      modifies this`openBytes, this`received, up, up.block0, up.block1, up.pend, down, down.data
      modifies env`offered, env`answers, env`left
      ensures Layout() && old(received) <= received && old(up.exposed) <= up.exposed
      ensures p.None? ==> Ready() && !up.RoomInBlock(raw) && !up.pend.HasRoom(raw)
      ensures p.Some? ==> Reserved(p.value, raw)
      ensures old(up.pend.HasRoom(raw)) ==>
                && p == Some(InPend(if old(up.pend.FitsAtWr(raw)) then old(up.pend.wr) else 0))
                && Quiet(env) && up.Marker() == old(up.Marker()) && up.pend.Held() == old(up.pend.Held()) + raw
      ensures !old(up.pend.HasRoom(raw)) ==> AfterWait(p, raw, env)
      ensures p.Some? && p.value.InPend? ==> up.pend.Held() > raw || up.Marker() + raw > up.block0.Length
    {
      hide SentOk, OpenOk, DownOk, Apart, Reserved;
      p := Reserve(raw);
      if p.None? {
        p := GetFromWait(raw, env);
      }
    }

    /** Wait4Buf, then the marker update both callers make for a block reservation. */
    method GetFromWait(raw: nat, env: Environment) returns (p: Option<Ptr>)
      requires Ready() && HEADER_SIZE <= raw <= up.block0.Length
      modifies this`openBytes, this`received, up, up.block0, up.block1, up.pend, down, down.data
      modifies env`offered, env`answers, env`left
      ensures Layout() && old(received) <= received && AfterWait(p, raw, env)
      ensures p.None? ==> Ready()
      ensures p.Some? ==> Reserved(p.value, raw)
      ensures p.Some? && p.value.InPend? ==> up.pend.Held() > raw || up.Marker() + raw > up.block0.Length
    {
      hide StreamOk, DownOk, Apart, Reserved;
      var pended;
      p, pended := Wait4Buf(raw, env);
      if p.Some? && !pended {
        var q := ReserveInBlock(raw);
      }
    }

    /** The user's memcpy into the packet it holds. */
    method Fill(user: Ptr, at: nat, bytes: seq<Byte>)
      requires Valid() && open.Some? && at + |bytes| <= open.value.size
      requires IsUserPtr(user)
      modifies this`openBytes, up.Mem(user)
      ensures Valid()
      ensures UserBytes() == Splice(old(UserBytes()), at, bytes)
    {
      var target := if user.InPend? then InPend(user.off + at) else InBlock(user.off + at);
      HeaderKept(openBytes, at, bytes);
      StoreOpen(open.value.at, HEADER_SIZE + at, target, bytes);
    }

    lemma HeaderKept(packet: seq<Byte>, at: nat, bytes: seq<Byte>)
      requires HEADER_SIZE + at + |bytes| <= |packet|
      ensures var after := Splice(packet, HEADER_SIZE + at, bytes);
              && after[..HEADER_SIZE] == packet[..HEADER_SIZE]
              && after[HEADER_SIZE..] == Splice(packet[HEADER_SIZE..], at, bytes)
    {
    }

    /** What the user has written into the open packet so far. */
    ghost function UserBytes(): (s: seq<Byte>)
      requires up.Valid() && open.Some? && OpenOk()
      reads this, up, up.pend
      ensures |s| == open.value.size
    {
      openBytes[HEADER_SIZE..]
    }

    /** The pointer the user holds addresses those bytes. */
    lemma OpenMemory()
      requires Valid() && open.Some?
      ensures var r := open.value;
              r.at.off + r.Raw() <= up.Mem(r.at).Length && up.Mem(r.at)[r.at.off..r.at.off + r.Raw()] == openBytes
    {
      up.TailMemory(open.value.at, encoded, openBytes);
    }

    /** Completes the open packet: the written size becomes the allocated size. */
    method UpBufferPut(user: Ptr)
      requires Valid() && open.Some?
      requires IsUserPtr(user)
      modifies this`open, this`openBytes, this`sent, this`encoded, up.Mem(user)
      ensures Ready()
      ensures sent == old(sent) + [Packet(old(open.value.core), old(UserBytes()))]
    {
      ghost var p := Packet(open.value.core, UserBytes());
      hide DownOk, Apart, Splice, Header, EncodeOne, Encode;
      Closed(openBytes, p);
      PktEnd(user);
      Close(p);
    }

    /** The open bytes have become the encoding of a packet. */
    ghost method Close(p: Packet)
      requires Layout() && NoOrphans() && SentOk() && p.Valid() && openBytes == EncodeOne(p)
      requires up.Stream() == encoded + openBytes
      modifies this`open, this`openBytes, this`sent, this`encoded
      ensures Ready() && sent == old(sent) + [p]
    {
      hide Encode, EncodeOne;
      Log(p);
      open, openBytes := None, [];
      assert encoded + [] == encoded;
    }

    /** Copies the header's block_sz into its wr_sz. */
    method PktEnd(user: Ptr)
      requires Valid() && open.Some? && IsUserPtr(user)
      modifies this`openBytes, up.Mem(user)
      ensures Layout() && NoOrphans() && |old(openBytes)| >= HEADER_SIZE
      ensures openBytes == Splice(old(openBytes), 2, old(openBytes)[..2]) && up.Stream() == encoded + openBytes
    {
      hide SentOk, DownOk, Apart, Header, Splice;
      OpenHeader(user);
      var mem, h := up.Mem(user), user.off - HEADER_SIZE;
      var half := mem[h..h + 2];
      var target := if user.InPend? then InPend(h + 2) else InBlock(h + 2);
      StoreOpen(open.value.at, 2, target, half);
    }

    /** What lies in front of the user's bytes is block_sz of the open packet. */
    lemma OpenHeader(user: Ptr)
      requires Valid() && open.Some? && IsUserPtr(user)
      ensures user.off >= HEADER_SIZE && user.off - HEADER_SIZE + 2 <= up.Mem(user).Length && |openBytes| >= HEADER_SIZE
      ensures up.Mem(user)[user.off - HEADER_SIZE..user.off - HEADER_SIZE + 2] == openBytes[..2]
    {
      var at := open.value.at;
      assert up.Mem(user) == up.Mem(at) && user.off == at.off + HEADER_SIZE;
      OpenMemory();
      HeaderHalf(up.Mem(at), at.off, openBytes);
    }

    lemma HeaderHalf(mem: array<Byte>, h: nat, packet: seq<Byte>)
      requires h + |packet| <= mem.Length && mem[h..h + |packet|] == packet && |packet| >= 2
      ensures mem[h..h + 2] == packet[..2]
    {
    }

    lemma Closed(packet: seq<Byte>, p: Packet)
      requires p.Valid() && |packet| == HEADER_SIZE + |p.payload|
      requires packet[..HEADER_SIZE] == Header(p.core, |p.payload|, false) && packet[HEADER_SIZE..] == p.payload
      ensures Splice(packet, 2, packet[..2]) == EncodeOne(p)
    {
      assert packet[..2] == packet[..HEADER_SIZE][..2] == Le16(BlockSz(p.core, |p.payload|));
    }

    ghost method Log(p: Packet)
      requires SentOk() && p.Valid()
      modifies this`sent, this`encoded
      ensures SentOk() && sent == old(sent) + [p] && encoded == old(encoded) + EncodeOne(p)
    {
      sent := sent + [p];
      assert sent[..|sent| - 1] == old(sent);
      encoded := encoded + EncodeOne(p);
    }

    /** Swaps until at most minSz bytes are left in the current block, with as many permitted swaps as
        that takes; it fails only once the timeout has fired, with more left. With minSz = 0 the host was shown
        every packet put so far, and reading the stream back yields exactly those packets. */
    method Flush(minSz: nat, env: Environment) returns (ok: bool)
      requires Ready()
      modifies this`received, up, up.block0, up.block1, up.pend, down, down.data, env`offered, env`answers, env`left
      ensures Ready() && old(received) <= received && old(up.exposed) <= up.exposed
      ensures ok <==> up.Marker() <= minSz
      ensures !ok ==> env.left == 0
      ensures var needed := SwapsNeeded(old(up.Marker()), old(up.pend.Held()), up.block0.Length, minSz);
              var swaps := |env.offered| - |old(env.offered)|;
              && swaps <= needed && (ok <==> swaps == needed)
              && |env.answers| - |old(env.answers)| == swaps + old(env.left) - env.left + (if ok then 0 else 1)
      ensures ok && minSz == 0 ==> up.Body() == [] && up.exposed == Encode(sent) && Parse(up.exposed) == Done(sent)
      ensures old(up.Marker()) <= minSz ==> ok && unchanged(this, up, up.pend, down, env)
    {
      hide StreamOk, DownOk, Apart, SwapsNeeded;
      NoSwaps(up.Marker(), up.pend.Held(), up.block0.Length, minSz);
      if up.Marker() < minSz {
        return true;
      }
      ok := true;
      while up.Marker() > minSz
        invariant Ready() && old(received) <= received && old(up.exposed) <= up.exposed
        invariant ok
        invariant |env.offered| - |old(env.offered)|
               == SwapsNeeded(old(up.Marker()), old(up.pend.Held()), up.block0.Length, minSz)
                  - SwapsNeeded(up.Marker(), up.pend.Held(), up.block0.Length, minSz)
        invariant |env.answers| - |old(env.answers)|
               == |env.offered| - |old(env.offered)| + old(env.left) - env.left
        invariant old(up.Marker()) <= minSz ==> unchanged(this, up, up.pend, down, env)
        decreases up.Marker() + up.pend.Held()
      {
        OneMoreSwap(up.Marker(), up.pend.Held(), up.block0.Length, minSz);
        ok := SwapWait(env);
        if !ok {
          return;
        }
      }
      NoSwaps(up.Marker(), up.pend.Held(), up.block0.Length, minSz);
      if minSz == 0 {
        Flushed();
      }
    }

    /** At any time the host can recover a prefix of the packets put, and all those it was shown in full. */
    lemma Recovered()
      requires Valid()
      ensures Parse(up.exposed).packets <= sent
      ensures forall k :: 0 <= k <= |sent| && Encode(sent[..k]) <= up.exposed ==> k <= |Parse(up.exposed).packets|
    {
      assert |openBytes| <= |up.Body()|;
      ShownPrefix(up.exposed, up.Body(), encoded, openBytes);
      PrefixRecovers(up.exposed, sent);
    }

    lemma ShownPrefix(shown: seq<Byte>, body: seq<Byte>, front: seq<Byte>, tail: seq<Byte>)
      requires shown + body == front + tail && |tail| <= |body|
      ensures shown <= front
    {
      assert shown == (shown + body)[..|shown|] == (front + tail)[..|shown|] == front[..|shown|];
    }

    lemma Flushed()
      requires Ready() && up.Marker() == 0
      ensures up.Body() == [] && up.exposed == Encode(sent) && Parse(up.exposed) == Done(sent)
    {
      assert up.Filled() == [] && up.pend.Contents() == [];
      assert up.exposed + [] == up.exposed && encoded + [] == encoded;
      RoundTrip(up.exposed, sent);
    }

    /** Hands out the next bytes from the host: a prefix of what was accepted and not yet delivered, as
        long as asked for, or up to where the ring wraps. None is the timeout, with nothing to deliver;
        until then a swap is tried each time the host announces data. */
    method DownBufferGet(want: nat, env: Environment) returns (chunk: Option<seq<Byte>>)
      requires Ready()
      modifies this`received, this`delivered, up, up.block0, up.block1, up.pend, down, down.data
      modifies env
      ensures Ready() && old(received) <= received && old(up.exposed) <= up.exposed
      ensures chunk.None? ==> delivered == old(delivered)
      ensures chunk.Some? ==> delivered == old(delivered) + chunk.value && |chunk.value| <= want
      ensures chunk.Some? && want > 0 ==> |chunk.value| > 0
      ensures chunk.Some? && |chunk.value| < want ==> down.rd == 0 || down.Held() == 0
      ensures chunk.None? ==> down.Held() == 0 && env.left == 0
      ensures old(down.Held()) > 0 ==>
                && chunk.Some? && |chunk.value| == Min(want, old(down.ReadSize()))
                && received == old(received) && unchanged(up, env)
      ensures |env.answers| - |old(env.answers)| >= env.announced - old(env.announced)
      ensures env.announced == old(env.announced) ==> env.answers == old(env.answers) && received == old(received)
    {
      while true
        invariant Ready() && old(received) <= received && old(up.exposed) <= up.exposed
        invariant delivered == old(delivered)
        invariant old(down.Held()) > 0 ==>
                    && received == old(received) && unchanged(up, env)
                    && down.Held() > 0 && down.ReadSize() == old(down.ReadSize())
        invariant env.announced >= old(env.announced)
        invariant |env.answers| - |old(env.answers)| >= env.announced - old(env.announced)
        invariant env.announced == old(env.announced) ==> env.answers == old(env.answers) && received == old(received)
        decreases env.left
      {
        var n := down.ReadSize();
        if n != 0 {
          chunk := Deliver(Min(want, n));
          return;
        }
        var more := AwaitData(env);
        if !more {
          return None;
        }
      }
    }

    /** Fetches the data the host announced, or checks the time. */
    method AwaitData(env: Environment) returns (more: bool)
      requires Ready()
      modifies this`received, up, up.block0, up.block1, up.pend, down, down.data, env
      ensures Ready() && old(received) <= received && old(up.exposed) <= up.exposed
      ensures env.left <= old(env.left) && (more ==> env.left < old(env.left))
      ensures !more ==> env.left == 0 && unchanged(this, up, up.pend, down)
      ensures old(env.announced) <= env.announced <= old(env.announced) + 1 && old(env.answers) <= env.answers
      ensures env.announced > old(env.announced) ==> old(env.answers) < env.answers
      ensures env.announced == old(env.announced) ==> env.answers == old(env.answers) && received == old(received)
    {
      more := env.HostDataPending();
      if more {
        var _ := SwapWait(env);
      } else {
        more := env.TimeoutCheck();
      }
    }

    method Deliver(n: nat) returns (chunk: Option<seq<Byte>>)
      requires Ready() && n <= down.ReadSize()
      modifies this`delivered, down
      ensures Ready() && chunk.Some? && |chunk.value| == n && delivered == old(delivered) + chunk.value
      ensures n == old(down.ReadSize()) ==> down.rd == 0 || down.Held() == 0
    {
      ghost var queue := down.Contents();
      var off := down.Consume(n);
      var bytes := down.data[off.value..off.value + n];
      assert delivered + queue == (delivered + bytes) + queue[n..];
      delivered := delivered + bytes;
      chunk := Some(bytes);
    }
  }
}
