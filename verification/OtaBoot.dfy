/**
 Which OTA slot boots next: the two otadata copies, how esp_ota_ops.c rewrites one of them, and how
 otatool.py does the same from the host.
 The checksum over a sequence number is a parameter.
 */
module OtaBoot {
  import opened Modular
  import opened Wrappers

  const UINT32_MAX := 0xFFFF_FFFF
  const IMG_NEW := 0
  const IMG_INVALID := 3
  const IMG_ABORTED := 4
  const IMG_UNDEFINED := UINT32_MAX
  const MAX_SLOTS := 16

  type Crc = nat -> nat

  datatype Entry = Entry(seqNo: nat, state: nat, crc: nat)

  /** An erased copy. */
  const BLANK := Entry(UINT32_MAX, UINT32_MAX, UINT32_MAX)

  predicate StateOk(e: Entry) {
    e.state != IMG_INVALID && e.state != IMG_ABORTED
  }

  predicate SelectInvalid(e: Entry) {
    e.seqNo == UINT32_MAX || !StateOk(e)
  }

  predicate SelectValid(crc: Crc, e: Entry) {
    !SelectInvalid(e) && e.crc == crc(e.seqNo)
  }

  /** The copy in force: the larger sequence number of two valid ones, copy 0 on a tie. */
  function Active(crc: Crc, e0: Entry, e1: Entry): Option<nat> {
    if SelectValid(crc, e0) && SelectValid(crc, e1) then
      if e0.seqNo >= e1.seqNo then Some(0) else Some(1)
    else if SelectValid(crc, e0) then Some(0)
    else if SelectValid(crc, e1) then Some(1)
    else None
  }

  /** ota_seq - 1 in 32 bits, modulo the number of slots. */
  function SlotOf(seqNo: nat, count: nat): nat
    requires count > 0
  {
    (if seqNo == 0 then UINT32_MAX else seqNo - 1) % count
  }

  /** esp_ota_get_boot_partition: an OTA slot, or None for the default partition. */
  function BootSlot(crc: Crc, e0: Entry, e1: Entry, count: nat): Option<nat> {
    if (SelectInvalid(e0) && SelectInvalid(e1)) || count == 0 then None
    else
      match Active(crc, e0, e1)
      case None => None
      case Some(i) => Some(SlotOf(if i == 0 then e0.seqNo else e1.seqNo, count))
  }

  /** s is the least number from seqNo on that is congruent to slot + 1. */
  predicate IsNextSeq(seqNo: nat, slot: nat, count: nat, s: nat)
    requires count > 0
  {
    seqNo <= s < seqNo + count && s % count == (slot + 1) % count
  }

  // ---------- choosing the next sequence number ----------

  /** At most one number meets IsNextSeq. */
  lemma NextSeqUnique(seqNo: nat, slot: nat, count: nat, s: nat, s': nat)
    requires 0 < count && IsNextSeq(seqNo, slot, count, s) && IsNextSeq(seqNo, slot, count, s')
    ensures s == s'
  {
    var r := (slot + 1) % count;
    DivMod(s, count);
    DivMod(s', count);
    var q, q' := s / count, s' / count;
    Distribute(q, q', count);
    Distribute(q', q, count);
    if q > q' {
      AtLeastOnce(q - q', count);
    } else if q' > q {
      AtLeastOnce(q' - q, count);
    }
  }

  /** A number congruent to slot + 1 boots that slot, except that 0 does so only when the number of slots
      divides 2^32: the subtraction wraps. */
  lemma SlotOfNext(slot: nat, count: nat, s: nat)
    requires slot < count && s % count == (slot + 1) % count
    ensures s > 0 ==> SlotOf(s, count) == slot
    ensures s == 0 ==> (SlotOf(s, count) == slot <==> 0x1_0000_0000 % count == 0)
  {
    ModSmall(slot, count);
    ModSucc(slot, count);
    if s > 0 {
      ModSucc(s - 1, count);
    } else {
      ModSmall(0, count);
      ModSucc(UINT32_MAX, count);
    }
  }

  /** The loop both programs run. */
  method NextSeq(seqNo: nat, slot: nat, count: nat) returns (s: nat)
    requires slot < count
    ensures IsNextSeq(seqNo, slot, count, s)
  {
    var r, i := (slot + 1) % count, 0;
    DivMod(slot + 1, count);
    while seqNo > (slot + 1) % count + i * count
      invariant i > 0 ==> seqNo > r + (i - 1) * count
      decreases seqNo - r - i
    {
      Distribute(i + 1, 1, count);
      AtLeast(i, count);
      i := i + 1;
    }
    s := (slot + 1) % count + i * count;
    Product(i, count);
    ModIs(s, count, i, r);
    Distribute(i, 1, count);
  }

  // ---------- the device ----------

  datatype Err = Ok | InvalidArg | FlashFailed

  /** Copy and sequence number a program decides to write. */
  datatype Choice = Choice(copy: nat, seqNo: nat)

  /** What switching to `slot` has to write, given the sequence number in force, if any. */
  ghost predicate IsChoice(base: Option<Choice>, slot: nat, count: nat, c: Choice)
    requires count > 0
  {
    match base
    case None => c == Choice(0, slot + 1)
    case Some(b) => c.copy == 1 - b.copy && IsNextSeq(b.seqNo, slot, count, c.seqNo)
  }

  /** The copy in force with its sequence number. */
  function InForce(crc: Crc, e0: Entry, e1: Entry): Option<Choice> {
    match Active(crc, e0, e1)
    case None => None
    case Some(i) => Some(Choice(i, if i == 0 then e0.seqNo else e1.seqNo))
  }

  /** The otadata partition: two copies, one per sector. */
  class OtaData {
    var e0: Entry
    var e1: Entry
    const crc: Crc
    // Every erase and every write of the driver succeeds.
    const faultFree: bool

    constructor (e0: Entry, e1: Entry, crc: Crc, faultFree: bool)
      ensures this.e0 == e0 && this.e1 == e1 && this.crc == crc && this.faultFree == faultFree
    {
      this.e0, this.e1, this.crc, this.faultFree := e0, e1, crc, faultFree;
    }

    function Copy(copy: nat): Entry
      reads this
    {
      if copy == 0 then e0 else e1
    }

    ghost function Boot(count: nat): Option<nat>
      reads this
    {
      BootSlot(crc, e0, e1, count)
    }

    method Put(copy: nat, e: Entry)
      requires copy < 2
      modifies this
      ensures Copy(copy) == e && Copy(1 - copy) == old(Copy(1 - copy))
    {
      if copy == 0 {
        e0 := e;
      } else {
        e1 := e;
      }
    }

    /** Erases the sector of a copy. An operation that fails, or power lost before or during it, leaves the
        copy as it was or leaves `torn` there. */
    method EraseCopy(copy: nat, torn: Entry) returns (ok: bool)
      requires copy < 2
      modifies this
      ensures faultFree ==> ok
      ensures if ok then Copy(copy) == BLANK else Copy(copy) in {old(Copy(copy)), torn}
      ensures Copy(1 - copy) == old(Copy(1 - copy))
    {
      ok := *;
      ok := ok || faultFree;
      var begun := *;
      if ok || begun {
        Put(copy, if ok then BLANK else torn);
      }
    }

    /** Programs a copy: only an erased one takes the entry, any other ends up as some mixture. Failures are
        as for the erase. */
    method WriteCopy(copy: nat, e: Entry, torn: Entry) returns (ok: bool)
      requires copy < 2
      modifies this
      ensures faultFree ==> ok
      ensures ok && old(Copy(copy)) == BLANK ==> Copy(copy) == e
      ensures !ok ==> Copy(copy) in {old(Copy(copy)), torn}
      ensures Copy(1 - copy) == old(Copy(1 - copy))
    {
      ok := *;
      ok := ok || faultFree;
      var begun := *;
      if ok {
        var mixture := *;
        Put(copy, if Copy(copy) == BLANK then e else mixture);
      } else if begun {
        Put(copy, torn);
      }
    }

    /** rewrite_ota_seq: erase, then write. */
    method RewriteSeq(c: Choice, state: nat, torn: Entry) returns (r: Err)
      requires !SelectValid(crc, torn)
      modifies this
      ensures c.copy > 1 ==> r == InvalidArg && unchanged(this)
      ensures c.copy <= 1 ==> r in {Ok, FlashFailed} && Copy(1 - c.copy) == old(Copy(1 - c.copy))
      ensures c.copy <= 1 && faultFree ==> r == Ok
      ensures r == Ok ==> Copy(c.copy) == Entry(c.seqNo, state, crc(c.seqNo))
      ensures r == FlashFailed ==> Copy(c.copy) == old(Copy(c.copy)) || !SelectValid(crc, Copy(c.copy))
    {
      if c.copy > 1 {
        return InvalidArg;
      }
      var ok := EraseCopy(c.copy, torn);
      if !ok {
        return FlashFailed;
      }
      ok := WriteCopy(c.copy, Entry(c.seqNo, state, crc(c.seqNo)), torn);
      r := if ok then Ok else FlashFailed;
    }

    /** esp_rewrite_ota_data. Without faults it fails only for a slot that does not exist. On success the copy
        written has state IMG_NEW exactly with rollback enabled, and the requested slot boots; after a failure,
        or a crash before or between the erase and the write, what boots is what booted before. */
    method SwitchTo(slot: nat, count: nat, rollback: bool, torn: Entry) returns (r: Err)
      requires !SelectValid(crc, torn)
      requires e0.seqNo + MAX_SLOTS < UINT32_MAX || !SelectValid(crc, e0)
      requires e1.seqNo + MAX_SLOTS < UINT32_MAX || !SelectValid(crc, e1)
      requires count <= MAX_SLOTS
      modifies this
      ensures r == InvalidArg <==> slot >= count
      ensures r == InvalidArg ==> unchanged(this)
      ensures faultFree ==> (r == Ok <==> slot < count)
      ensures r == Ok ==> exists c ::
                && IsChoice(old(InForce(crc, e0, e1)), slot, count, c) && c.copy < 2
                && Copy(c.copy).seqNo == c.seqNo && Copy(c.copy).crc == crc(c.seqNo)
                && Copy(c.copy).state == (if rollback then IMG_NEW else IMG_UNDEFINED)
                && Copy(1 - c.copy) == old(if c.copy == 0 then e1 else e0)
      ensures r == Ok ==> (Boot(count) == Some(slot) <==> !old(WrapsToZero(slot, count)))
      ensures r == FlashFailed ==> Boot(count) == old(Boot(count))
    {
      if slot >= count {
        return InvalidArg;
      }
      var base := InForce(crc, e0, e1);
      var c;
      if base.Some? {
        var s := NextSeq(base.value.seqNo, slot, count);
        c := Choice(1 - base.value.copy, s);
      } else {
        c := Choice(0, slot + 1);
      }
      Effective(crc, e0, e1, slot, count, c,
                Entry(c.seqNo, if rollback then IMG_NEW else IMG_UNDEFINED, crc(c.seqNo)));
      r := RewriteSeq(c, if rollback then IMG_NEW else IMG_UNDEFINED, torn);
    }

    /** switch_ota_partition of otatool.py on a dump of the partition: the sequence number and the checksum of
        the chosen copy are overwritten in place, and the dump goes back whole. */
    method ToolSwitch(slot: nat, count: nat)
      requires slot < count <= MAX_SLOTS && e0.seqNo <= UINT32_MAX && e1.seqNo <= UINT32_MAX
      requires e0.seqNo + MAX_SLOTS < UINT32_MAX || !ToolValid(crc, e0)
      requires e1.seqNo + MAX_SLOTS < UINT32_MAX || !ToolValid(crc, e1)
      modifies this
      ensures exists c ::
                && IsChoice(old(ToolBase(crc, e0, e1)), slot, count, c) && c.copy < 2
                && (c.copy == 0 ==> e0 == Entry(c.seqNo, old(e0.state), crc(c.seqNo)) && e1 == old(e1))
                && (c.copy == 1 ==> e1 == Entry(c.seqNo, old(e1.state), crc(c.seqNo)) && e0 == old(e0))
      ensures StateOk(old(e0)) && StateOk(old(e1)) ==>
                (Boot(count) == Some(slot) <==> !old(WrapsToZero(slot, count)))
    {
      var c := ToolChoose(crc, e0, e1, slot, count);
      ToolEffective(crc, e0, e1, slot, count, c);
      if c.copy == 0 {
        e0 := e0.(seqNo := c.seqNo, crc := crc(c.seqNo));
      } else {
        e1 := e1.(seqNo := c.seqNo, crc := crc(c.seqNo));
      }
    }

    ghost predicate WrapsToZero(slot: nat, count: nat)
      requires count > 0
      reads this
    {
      WrapsToZeroFrom(InForce(crc, e0, e1), slot, count)
    }
  }

  /** The one case in which the sequence number in force does not lead to the slot asked for: it is 0, the
      slot is the last, and the number of slots does not divide 2^32. */
  predicate WrapsToZeroFrom(base: Option<Choice>, slot: nat, count: nat)
    requires count > 0
  {
    base.Some? && base.value.seqNo == 0 && slot + 1 == count && 0x1_0000_0000 % count != 0
  }

  /** Writing the chosen entry makes `slot` boot, unless the number wraps. */
  lemma Effective(crc: Crc, e0: Entry, e1: Entry, slot: nat, count: nat, c: Choice, e: Entry)
    requires slot < count <= MAX_SLOTS && IsChoice(InForce(crc, e0, e1), slot, count, c) && c.copy < 2
    requires e.seqNo == c.seqNo < UINT32_MAX && StateOk(e) && e.crc == crc(c.seqNo)
    ensures var after := if c.copy == 0 then BootSlot(crc, e, e1, count) else BootSlot(crc, e0, e, count);
            after == Some(slot) <==> !WrapsToZeroFrom(InForce(crc, e0, e1), slot, count)
  {
    var base := InForce(crc, e0, e1);
    if base.Some? {
      SlotOfNext(slot, count, c.seqNo);
      ZeroNext(base.value.seqNo, slot, count, c.seqNo);
    } else {
      ModSmall(slot, count);
    }
  }

  /** The next number is 0 only from 0, and only for the last slot. */
  lemma ZeroNext(seqNo: nat, slot: nat, count: nat, s: nat)
    requires slot < count && IsNextSeq(seqNo, slot, count, s)
    ensures s == 0 <==> seqNo == 0 && slot + 1 == count
  {
    ModSmall(slot, count);
    ModSucc(slot, count);
    ModSmall(0, count);
    if seqNo == 0 {
      ModSmall(s, count);
    }
  }

  // ---------- the host tool ----------

  /** otatool.py looks at the checksum and the erased value only, not at the state. */
  predicate ToolValid(crc: Crc, e: Entry) {
    e.seqNo < UINT32_MAX && e.crc == crc(e.seqNo)
  }

  function ToolBase(crc: Crc, e0: Entry, e1: Entry): Option<Choice> {
    if ToolValid(crc, e0) && ToolValid(crc, e1) then
      if e0.seqNo >= e1.seqNo then Some(Choice(0, e0.seqNo)) else Some(Choice(1, e1.seqNo))
    else if ToolValid(crc, e0) then Some(Choice(0, e0.seqNo))
    else if ToolValid(crc, e1) then Some(Choice(1, e1.seqNo))
    else None
  }

  /** The choice part of switch_ota_partition. */
  method ToolChoose(crc: Crc, e0: Entry, e1: Entry, slot: nat, count: nat) returns (c: Choice)
    requires slot < count <= MAX_SLOTS
    ensures IsChoice(ToolBase(crc, e0, e1), slot, count, c) && c.copy < 2
  {
    var base := ToolBase(crc, e0, e1);
    var s := slot + 1;
    if base.Some? {
      s := NextSeq(base.value.seqNo, slot, count);
    }
    c := Choice(if base.Some? && base.value.copy == 0 then 1 else 0, s);
  }

  /** The tool overwrites the sequence number and the checksum of a copy; its state stays. */
  function ToolWritten(crc: Crc, e: Entry, c: Choice): Entry {
    e.(seqNo := c.seqNo, crc := crc(c.seqNo))
  }

  /** Exactly when tool and device write the same number to the same copy: the tool found no valid copy, or the
      copy it goes on from is not marked invalid or aborted, or that copy is 1, the device sees no valid copy at
      all, and the number after the marked one happens to be slot + 1. */
  lemma ToolMatchesDevice(crc: Crc, e0: Entry, e1: Entry, slot: nat, count: nat, c: Choice, d: Choice)
    requires slot < count && e0.seqNo <= UINT32_MAX && e1.seqNo <= UINT32_MAX
    requires IsChoice(ToolBase(crc, e0, e1), slot, count, c) && IsChoice(InForce(crc, e0, e1), slot, count, d)
    ensures var base := ToolBase(crc, e0, e1);
            c == d <==>
              || base.None?
              || StateOk(if base.value.copy == 0 then e0 else e1)
              || (base.value.copy == 1 && !SelectValid(crc, e0) && e1.seqNo <= slot + 1 < e1.seqNo + count)
  {
    var base := ToolBase(crc, e0, e1);
    if base.Some? {
      if base == InForce(crc, e0, e1) {
        NextSeqUnique(base.value.seqNo, slot, count, c.seqNo, d.seqNo);
      } else if base.value.seqNo <= slot + 1 < base.value.seqNo + count {
        NextSeqUnique(base.value.seqNo, slot, count, c.seqNo, slot + 1);
      }
    }
  }

  /** Exactly when the tool's switch takes effect: the copy it writes is not marked invalid or aborted (and the
      number does not wrap to 0), or else the other copy is in force and boots the slot already. */
  lemma ToolEffective(crc: Crc, e0: Entry, e1: Entry, slot: nat, count: nat, c: Choice)
    requires slot < count <= MAX_SLOTS && c.copy < 2
    requires e0.seqNo <= UINT32_MAX && e1.seqNo <= UINT32_MAX
    requires IsChoice(ToolBase(crc, e0, e1), slot, count, c) && c.seqNo < UINT32_MAX
    ensures var base := ToolBase(crc, e0, e1);
            var written, other := if c.copy == 0 then e0 else e1, if c.copy == 0 then e1 else e0;
            var after := if c.copy == 0 then BootSlot(crc, ToolWritten(crc, e0, c), e1, count)
                         else BootSlot(crc, e0, ToolWritten(crc, e1, c), count);
            after == Some(slot) <==>
              if StateOk(written) then !WrapsToZeroFrom(base, slot, count)
              else base.Some? && StateOk(other) && SlotOf(other.seqNo, count) == slot
  {
    var base := ToolBase(crc, e0, e1);
    if base.Some? {
      SlotOfNext(slot, count, c.seqNo);
      ZeroNext(base.value.seqNo, slot, count, c.seqNo);
    } else {
      ModSmall(slot, count);
    }
  }

  /** The two can differ: copy 1 holds the larger number but was marked aborted, so the device goes on from
      copy 0 and rewrites copy 1, while the tool goes on from copy 1 and rewrites copy 0. */
  lemma ToolIgnoresStates(crc: Crc, c: Choice, d: Choice)
    requires var e0, e1 := Entry(1, IMG_UNDEFINED, crc(1)), Entry(4, IMG_ABORTED, crc(4));
             IsChoice(ToolBase(crc, e0, e1), 0, 2, c) && IsChoice(InForce(crc, e0, e1), 0, 2, d)
    ensures c == Choice(0, 5) && d == Choice(1, 1)
  {
  }

  /** The tool's switch can be without effect: it writes number 3 into copy 0, which stays marked aborted, so of
      two slots the device still boots slot 1 from copy 1, not slot 0. */
  lemma ToolWithoutEffect(crc: Crc, c: Choice)
    requires var e0, e1 := Entry(1, IMG_ABORTED, crc(1)), Entry(2, IMG_UNDEFINED, crc(2));
             IsChoice(ToolBase(crc, e0, e1), 0, 2, c)
    ensures var e0, e1 := Entry(1, IMG_ABORTED, crc(1)), Entry(2, IMG_UNDEFINED, crc(2));
            c == Choice(0, 3) && BootSlot(crc, ToolWritten(crc, e0, c), e1, 2) == Some(1)
  {
    ToolEffective(crc, Entry(1, IMG_ABORTED, crc(1)), Entry(2, IMG_UNDEFINED, crc(2)), 0, 2, c);
  }
}
