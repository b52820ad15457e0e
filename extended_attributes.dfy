/**
 * The extended-attribute chain step FSP_NEXT_EA.
 *
 * An extended-attribute list is a run of FILE_FULL_EA_INFORMATION records in
 * one byte buffer. Each record starts with a 32-bit little-endian
 * NextEntryOffset, counted in bytes from the start of that record; 0 marks
 * the last record. Pointers into the buffer are modelled as byte offsets.
 */
module ExtendedAttributes {

  newtype byte = x: int | 0 <= x < 0x100

  /** Size in bytes of the NextEntryOffset field at the head of every record. */
  const OffsetFieldSize: nat := 4

  /** The NextEntryOffset field of the record at `ea`, an unsigned 32-bit value. */
  function NextEntryOffset(buf: seq<byte>, ea: nat): (off: nat)
    requires ea + OffsetFieldSize <= |buf|
    ensures off < 0x1_0000_0000
    ensures off == 0 <==> buf[ea] == 0 && buf[ea + 1] == 0 && buf[ea + 2] == 0 && buf[ea + 3] == 0
  {
    buf[ea] as nat + 0x100 * buf[ea + 1] as nat + 0x1_0000 * buf[ea + 2] as nat + 0x100_0000 * buf[ea + 3] as nat
  }

  /**
   * FSP_NEXT_EA(Ea, EaEnd): the record after `ea`, or `eaEnd` when `ea` is the
   * last record. From a record before the end the step always moves forward.
   */
  function NextEa(buf: seq<byte>, ea: nat, eaEnd: nat): (next: nat)
    requires ea + OffsetFieldSize <= |buf|
    ensures ea < eaEnd ==> ea < next
    ensures next == eaEnd || next - ea == NextEntryOffset(buf, ea) > 0
    ensures NextEntryOffset(buf, ea) == 0 ==> next == eaEnd
    ensures NextEntryOffset(buf, ea) != 0 ==> next == ea + NextEntryOffset(buf, ea)
  {
    if 0 != NextEntryOffset(buf, ea) then ea + NextEntryOffset(buf, ea) else eaEnd
  }

  /**
   * Every record a walk `for (; ea < eaEnd; ea = FSP_NEXT_EA(ea, eaEnd))`
   * reaches has its NextEntryOffset field inside the buffer.
   */
  predicate Readable(buf: seq<byte>, ea: nat, eaEnd: nat)
    decreases eaEnd - ea
  {
    ea < eaEnd ==>
      ea + OffsetFieldSize <= |buf| && Readable(buf, NextEa(buf, ea, eaEnd), eaEnd)
  }

  /**
   * The records such a walk visits, in order. Its termination rests on
   * NextEa moving strictly forward while `ea < eaEnd`.
   */
  function Walk(buf: seq<byte>, ea: nat, eaEnd: nat): (visited: seq<nat>)
    requires Readable(buf, ea, eaEnd)
    ensures forall i :: 0 <= i < |visited| ==> ea <= visited[i] < eaEnd
    ensures forall i, j :: 0 <= i < j < |visited| ==> visited[i] < visited[j]
    ensures |visited| <= if ea < eaEnd then eaEnd - ea else 0
    ensures ea < eaEnd <==> |visited| > 0
    decreases eaEnd - ea
  {
    if ea < eaEnd then [ea] + Walk(buf, NextEa(buf, ea, eaEnd), eaEnd) else []
  }

  /**
   * The walk follows the links: it starts at `ea`, each visited record is
   * followed by the record its nonzero NextEntryOffset names, and the walk
   * stops after a record whose offset is 0 or points at or beyond `eaEnd`.
   */
  lemma {:induction false} WalkFollowsLinks(buf: seq<byte>, ea: nat, eaEnd: nat)
    requires Readable(buf, ea, eaEnd)
    ensures var v := Walk(buf, ea, eaEnd);
      (|v| > 0 ==> v[0] == ea) &&
      (forall i :: 0 <= i < |v| ==> v[i] + OffsetFieldSize <= |buf|) &&
      (forall i :: 0 <= i < |v| - 1 ==>
         NextEntryOffset(buf, v[i]) != 0 && v[i + 1] == v[i] + NextEntryOffset(buf, v[i])) &&
      (|v| > 0 ==>
         var last := v[|v| - 1];
         NextEntryOffset(buf, last) == 0 || last + NextEntryOffset(buf, last) >= eaEnd)
    decreases eaEnd - ea
  {
    if ea < eaEnd {
      var next := NextEa(buf, ea, eaEnd);
      WalkFollowsLinks(buf, next, eaEnd);
      var v := Walk(buf, ea, eaEnd);
      var rest := Walk(buf, next, eaEnd);
      assert v == [ea] + rest;
      if rest == [] {
        assert next >= eaEnd;
      } else {
        assert rest[0] == next;
      }
    }
  }

  /** A record whose NextEntryOffset is 0 is the last one the walk visits. */
  lemma ZeroOffsetEndsWalk(buf: seq<byte>, ea: nat, eaEnd: nat)
    requires ea < eaEnd && Readable(buf, ea, eaEnd)
    requires NextEntryOffset(buf, ea) == 0
    ensures Walk(buf, ea, eaEnd) == [ea]
  {
  }
}
