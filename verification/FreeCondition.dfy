/** When giving a block back is right: the exact condition under which
    `define_free_memory` (physical_memory_manager.rs) adds the block to the free bytes. */
module FreeCondition {
  import opened DataType
  import opened Ranges

  /** The block touches no free byte. */
  ghost predicate Disjoint(rs: seq<Range>, s: int, e: int) {
    forall i :: 0 <= i < |rs| ==> rs[i].Misses(s, e)
  }

  /** The block is free already. */
  ghost predicate Inside(rs: seq<Range>, s: int, e: int) {
    exists i :: 0 <= i < |rs| && rs[i].Contains(s, e)
  }

  /** The block starts in an entry other than the first and its rest touches no free byte. */
  ghost predicate TailBeyond(rs: seq<Range>, i: nat, s: int, e: int) {
    && 1 <= i < |rs|
    && rs[i].start <= s <= rs[i].end < e
    && (i + 1 < |rs| ==> e < rs[i + 1].start)
  }

  /** The block starts before the first entry and ends exactly where it ends. */
  ghost predicate EndsWithFirst(rs: seq<Range>, s: int, e: int) {
    rs != [] && s < rs[0].start && e == rs[0].end
  }

  ghost predicate CanFree(rs: seq<Range>, s: int, e: int) {
    || Disjoint(rs, s, e)
    || Inside(rs, s, e)
    || (exists i: nat :: TailBeyond(rs, i, s, e))
    || EndsWithFirst(rs, s, e)
  }

  /** What a free should do: refuse a block that is free already, else add exactly the block
      and count exactly the bytes that became free. */
  ghost predicate Faithful(rs: seq<Range>, s: int, e: int, o: FreeOutcome) {
    match o
    case AlreadyFree => forall x :: s <= x <= e ==> Covered(rs, x)
    case Freed(out, added) =>
      && Coalesced(out)
      && (forall x :: Covered(out, x) <==> Covered(rs, x) || s <= x <= e)
      && added == Total(out) - Total(rs)
  }

  /** A stretch of free bytes lies in one entry. */
  lemma AllInOne(rs: seq<Range>, s: int, e: int)
    requires Coalesced(rs) && s <= e && forall x :: s <= x <= e ==> Covered(rs, x)
    ensures Inside(rs, s, e)
  {
    assert Covered(rs, s);
    var i :| 0 <= i < |rs| && rs[i].start <= s <= rs[i].end;
    GapAfter(rs, i);
    assert rs[i].Contains(s, e);
  }

  lemma GapAfter(rs: seq<Range>, i: nat)
    requires Coalesced(rs) && i < |rs|
    ensures !Covered(rs, rs[i].end + 1)
  {
  }

  /** Where a block that touches no free byte belongs. */
  lemma SlotOf(rs: seq<Range>, s: int, e: int) returns (i: nat)
    requires Coalesced(rs) && s <= e && Disjoint(rs, s, e)
    ensures Slot(rs, i, s, e) && i == FirstFrom(rs, s)
  {
    i := FirstFrom(rs, s);
  }

  lemma FirstFromAt(rs: seq<Range>, s: int, i: nat)
    requires Coalesced(rs) && i <= |rs|
    requires i > 0 ==> rs[i - 1].start < s
    requires i < |rs| ==> s <= rs[i].start
    ensures FirstFrom(rs, s) == i
  {
  }

  lemma SettleFront(rs: seq<Range>, s: int, e: int)
    requires Coalesced(rs) && rs != [] && Slot(rs, 0, s, e)
    ensures Settle(rs, 0, s, e) == Freed(Merge(rs, 0, s, e), SizeOf(s, e))
  {
    hide Settle, Merge;
    if |rs| > 1 { SettleBeforeTwo(rs, s, e); } else { SettleBeforeOne(rs, s, e); }
  }

  lemma SettleBeforeOne(rs: seq<Range>, s: int, e: int)
    requires Coalesced(rs) && |rs| == 1 && Slot(rs, 0, s, e)
    ensures Settle(rs, 0, s, e) == Freed(Merge(rs, 0, s, e), SizeOf(s, e))
  {
    assert rs == [rs[0]];
  }

  lemma SettleBeforeTwo(rs: seq<Range>, s: int, e: int)
    requires Coalesced(rs) && |rs| > 1 && Slot(rs, 0, s, e)
    ensures Settle(rs, 0, s, e) == Freed(Merge(rs, 0, s, e), SizeOf(s, e))
  {
    hide Settle, Merge;
    if rs[0].start == e + 1 { SettleTouching(rs, s, e); } else { SettleApart(rs, s, e); }
  }

  lemma SettleTouching(rs: seq<Range>, s: int, e: int)
    requires Coalesced(rs) && |rs| > 1 && s <= e && rs[0].start == e + 1
    ensures Settle(rs, 0, s, e) == Freed(Merge(rs, 0, s, e), SizeOf(s, e))
  {
    assert rs[1..] == [rs[1]] + rs[2..];
    assert Merge(rs, 0, s, e) == [Range(s, rs[0].end)] + rs[1..];
  }

  lemma SettleApart(rs: seq<Range>, s: int, e: int)
    requires Coalesced(rs) && |rs| > 1 && s <= e && rs[0].start > e + 1
    ensures Settle(rs, 0, s, e) == Freed(Merge(rs, 0, s, e), SizeOf(s, e))
  {
    assert rs == [rs[0], rs[1]] + rs[2..];
    assert Merge(rs, 0, s, e) == [Range(s, e)] + rs;
  }

  lemma SettleLast(rs: seq<Range>, s: int, e: int)
    requires Coalesced(rs) && rs != [] && Slot(rs, |rs|, s, e)
    ensures Settle(rs, |rs| - 1, s, e) == Freed(Merge(rs, |rs|, s, e), SizeOf(s, e))
  {
  }

  lemma SettleBetween(rs: seq<Range>, i: nat, s: int, e: int)
    requires Coalesced(rs) && 0 < i < |rs| && Slot(rs, i, s, e)
    ensures Settle(rs, i - 1, s, e) == Freed(Merge(rs, i, s, e), SizeOf(s, e))
  {
    var pre, post := rs[..i - 1], rs[i + 1..];
    assert rs[..i] == pre + [rs[i - 1]] && rs[i..] == [rs[i]] + post;
    var out := Settle(rs, i - 1, s, e).ranges;
    if rs[i - 1].end + 1 == s {
      if rs[i].start == e + 1 {
        assert out == pre + [Range(rs[i - 1].start, rs[i].end)] + post;
      } else {
        assert out == pre + [Range(rs[i - 1].start, e)] + [rs[i]] + post;
      }
    } else if rs[i].start == e + 1 {
      assert out == pre + [rs[i - 1]] + [Range(s, rs[i].end)] + post;
    } else {
      assert out == pre + [rs[i - 1], Range(s, e)] + [rs[i]] + post;
    }
  }

  lemma StepSlot(rs: seq<Range>, i: nat, s: int, e: int)
    requires Coalesced(rs) && rs != [] && Slot(rs, i, s, e)
    ensures Step(rs, s, e) == Done(Freed(Merge(rs, i, s, e), SizeOf(s, e)))
  {
    FirstFromAt(rs, s, i);
    if i == 0 {
      SettleFront(rs, s, e);
    } else if i == |rs| {
      SettleLast(rs, s, e);
    } else {
      SettleBetween(rs, i, s, e);
    }
  }

  lemma PreviousWithin(rs: seq<Range>, i: nat, s: int)
    requires Coalesced(rs) && i < |rs| && rs[i].start <= s <= rs[i].end
    ensures PreviousIndex(rs, s) == i || PreviousIndex(rs, s) == i - 1
  {
    FirstFromAt(rs, s, if s == rs[i].start then i else i + 1);
  }

  lemma StepInside(rs: seq<Range>, i: nat, s: int, e: int)
    requires Coalesced(rs) && s <= e && i < |rs| && rs[i].Contains(s, e)
    ensures Step(rs, s, e) == Done(AlreadyFree)
  {
    PreviousWithin(rs, i, s);
    assert i > 0 ==> rs[i - 1].end < rs[i].start;
  }

  /** A block that starts in an entry other than the first loses the part that is free. */
  lemma StepTail(rs: seq<Range>, i: nat, s: int, e: int)
    requires Coalesced(rs) && 1 <= i < |rs| && rs[i].start <= s <= rs[i].end < e
    ensures Step(rs, s, e) == Again(rs[i].end + 1, e)
  {
    PreviousWithin(rs, i, s);
    assert rs[i - 1].end < rs[i].start;
  }

  lemma StepEndsWithFirst(rs: seq<Range>, s: int, e: int)
    requires Coalesced(rs) && EndsWithFirst(rs, s, e)
    ensures Step(rs, s, e) == Again(s, rs[0].start - 1)
  {
    FirstFromAt(rs, s, 0);
  }
  
  // ---------------------------------------------------------------- the blocks that go wrong

  ghost predicate Overlaps(rs: seq<Range>, k: nat) {
    k + 1 < |rs| && rs[k + 1].start <= rs[k].end + 1
  }

  lemma OverlapBreaks(rs: seq<Range>, k: nat)
    requires Overlaps(rs, k)
    ensures !Coalesced(rs)
  {
  }

  /** Bridging the first two entries from inside the first one counts the overlap as new bytes. */
  lemma MiscountedBridge(rs: seq<Range>, s: int, e: int)
    requires Coalesced(rs) && |rs| > 1 && rs[0].start <= s <= rs[0].end && rs[1].start == e + 1
    ensures var o := Settle(rs, 0, s, e); o.added != Total(o.ranges) - Total(rs)
  {
    var out := Settle(rs, 0, s, e).ranges;
    assert out == [Range(rs[0].start, rs[1].end)] + rs[2..];
    TotalFirst(Range(rs[0].start, rs[1].end), rs[2..]);
    assert rs == [rs[0]] + ([rs[1]] + rs[2..]);
    TotalFirst(rs[0], [rs[1]] + rs[2..]);
    TotalFirst(rs[1], rs[2..]);
  }

  /** A block that starts in the first entry and reaches beyond it. */
  lemma FirstOverlapFails(rs: seq<Range>, s: int, e: int)
    requires Coalesced(rs) && rs != [] && rs[0].start <= s <= rs[0].end < e
    ensures Step(rs, s, e).Done? && !Faithful(rs, s, e, Step(rs, s, e).outcome)
  {
    PreviousWithin(rs, 0, s);
    var out := Settle(rs, 0, s, e).ranges;
    if |rs| > 1 && rs[1].start == e + 1 {
      MiscountedBridge(rs, s, e);
    } else {
      OverlapBreaks(out, 0);
    }
  }

  /** A block that starts between entries and reaches into the next one. */
  lemma SwallowFails(rs: seq<Range>, i: nat, s: int, e: int)
    requires Coalesced(rs) && 0 < i < |rs| && rs[i - 1].end < s < rs[i].start <= e
    ensures Step(rs, s, e).Done? && !Faithful(rs, s, e, Step(rs, s, e).outcome)
  {
    hide Step, Settle, Coalesced, Covered, Total;
    SwallowStep(rs, i, s, e);
    SwallowBreaks(rs, i, s, e);
  }

  lemma SwallowStep(rs: seq<Range>, i: nat, s: int, e: int)
    requires Coalesced(rs) && 0 < i < |rs| && rs[i - 1].end < s < rs[i].start <= e
    ensures Step(rs, s, e) == Done(Settle(rs, i - 1, s, e))
  {
    hide Settle;
    FirstFromAt(rs, s, i);
  }

  lemma SwallowBreaks(rs: seq<Range>, i: nat, s: int, e: int)
    requires Coalesced(rs) && 0 < i < |rs| && rs[i - 1].end < s < rs[i].start <= e
    ensures Settle(rs, i - 1, s, e).Freed? && !Coalesced(Settle(rs, i - 1, s, e).ranges)
  {
    var out := Settle(rs, i - 1, s, e).ranges;
    OverlapBreaks(out, if rs[i - 1].end + 1 == s then i - 1 else i);
  }

  lemma SwallowFirstFails(rs: seq<Range>, s: int, e: int)
    requires Coalesced(rs) && rs != [] && s < rs[0].start <= e && e != rs[0].end
    ensures Step(rs, s, e).Done? && !Faithful(rs, s, e, Step(rs, s, e).outcome)
  {
    FirstFromAt(rs, s, 0);
    var out := Settle(rs, 0, s, e).ranges;
    if |rs| > 1 && rs[1].start == e + 1 {
      assert out == [Range(rs[0].start, rs[1].end)] + rs[2..];
      assert forall k :: 0 <= k < |out| ==> s < out[k].start;
      assert !Covered(out, s);
    } else {
      OverlapBreaks(out, 0);
    }
  }

  // ---------------------------------------------------------------- the theorem

  lemma SlotFaithful(rs: seq<Range>, i: nat, s: int, e: int)
    requires Coalesced(rs) && rs != [] && Slot(rs, i, s, e)
    ensures Faithful(rs, s, e, FreeEffect(rs, s, e))
    ensures FreeEffect(rs, s, e) == Freed(Merge(rs, i, s, e), SizeOf(s, e))
  {
    StepSlot(rs, i, s, e);
    MergeCoalesced(rs, i, s, e);
    MergeTotal(rs, i, s, e);
    forall x ensures Covered(Merge(rs, i, s, e), x) <==> Covered(rs, x) || s <= x <= e {
      MergeCovered(rs, i, s, e, x);
    }
  }

  lemma InsideFaithful(rs: seq<Range>, i: nat, s: int, e: int)
    requires Coalesced(rs) && s <= e && i < |rs| && rs[i].Contains(s, e)
    ensures FreeEffect(rs, s, e) == AlreadyFree && Faithful(rs, s, e, AlreadyFree)
  {
    StepInside(rs, i, s, e);
  }

  /** Dropping a part that is free already changes nothing about the outcome being right. */
  lemma DropFreePart(rs: seq<Range>, i: nat, s: int, e: int, s': int, e': int, o: FreeOutcome)
    requires i < |rs| && s <= s' <= e' <= e
    requires s < s' ==> rs[i].start <= s && s' <= rs[i].end + 1
    requires e' < e ==> rs[i].start <= e' + 1 && e <= rs[i].end
    ensures Faithful(rs, s, e, o) <==> Faithful(rs, s', e', o)
  {
    forall x ensures (s <= x <= e ==> Covered(rs, x)) <==> (s' <= x <= e' ==> Covered(rs, x))
             ensures Covered(rs, x) || s <= x <= e <==> Covered(rs, x) || s' <= x <= e'
    {
      if s <= x <= e && !(s' <= x <= e') {
        assert rs[i].start <= x <= rs[i].end;
      }
    }
  }

  /** The first entry that a block touches. */
  lemma FirstTouched(rs: seq<Range>, s: int, e: int) returns (i: nat)
    requires Coalesced(rs) && s <= e && !Disjoint(rs, s, e)
    ensures i < |rs| && s <= rs[i].end && rs[i].start <= e
    ensures i > 0 ==> rs[i - 1].end < s
  {
    var k := FirstFrom(rs, s);
    i := if k > 0 && rs[k - 1].end >= s then k - 1 else k;
    var j :| 0 <= j < |rs| && !rs[j].Misses(s, e);
    assert j >= i;
  }

  lemma StartsBetween(rs: seq<Range>, i: nat, s: int, e: int)
    requires Coalesced(rs) && i < |rs| && s < rs[i].start <= e
    requires i > 0 ==> rs[i - 1].end < s
    ensures Faithful(rs, s, e, FreeEffect(rs, s, e)) <==> EndsWithFirst(rs, s, e)
  {
    hide Faithful, Step, Merge;
    if i > 0 {
      SwallowFails(rs, i, s, e);
    } else if e != rs[0].end {
      SwallowFirstFails(rs, s, e);
    } else {
      StepEndsWithFirst(rs, s, e);
      SlotFaithful(rs, 0, s, rs[0].start - 1);
      DropFreePart(rs, 0, s, e, s, rs[0].start - 1, FreeEffect(rs, s, e));
    }
  }

  lemma StartsWithin(rs: seq<Range>, i: nat, s: int, e: int)
    requires Coalesced(rs) && i < |rs| && rs[i].start <= s <= rs[i].end < e
    ensures Faithful(rs, s, e, FreeEffect(rs, s, e)) <==> TailBeyond(rs, i, s, e)
  {
    hide Faithful, Step, Merge;
    if i == 0 {
      FirstOverlapFails(rs, s, e);
    } else {
      var s' := rs[i].end + 1;
      StepTail(rs, i, s, e);
      DropFreePart(rs, i, s, e, s', e, FreeEffect(rs, s, e));
      if i + 1 < |rs| && rs[i + 1].start <= e {
        SwallowFails(rs, i + 1, s', e);
      } else {
        SlotFaithful(rs, i + 1, s', e);
      }
    }
  }

  /** define_free_memory refuses or adds exactly the block, if and only if `CanFree` holds. */
  lemma FreeIsRightIff(rs: seq<Range>, s: int, e: int)
    requires Coalesced(rs) && rs != [] && s <= e
    ensures Faithful(rs, s, e, FreeEffect(rs, s, e)) <==> CanFree(rs, s, e)
  {
    hide Faithful, Step, Merge, FreeEffect;
    if Disjoint(rs, s, e) {
      var i := SlotOf(rs, s, e);
      SlotFaithful(rs, i, s, e);
    } else if Inside(rs, s, e) {
      var i :| 0 <= i < |rs| && rs[i].Contains(s, e);
      InsideFaithful(rs, i, s, e);
    } else {
      var i := FirstTouched(rs, s, e);
      if rs[i].start <= s {
        assert !rs[i].Contains(s, e);
        StartsWithin(rs, i, s, e);
        assert forall j: nat :: TailBeyond(rs, j, s, e) ==> j == i;
      } else {
        StartsBetween(rs, i, s, e);
        assert forall j: nat :: TailBeyond(rs, j, s, e) ==> j == i;
      }
    }
  }

  /** A block that reaches past the end of the only entry is appended in front of it. */
  lemma OverlappingFreeGoesWrong()
    ensures FreeEffect([Range(0, 8191)], 4096, 12287) == Freed([Range(4096, 12287), Range(0, 8191)], 8192)
    ensures !CanFree([Range(0, 8191)], 4096, 12287)
  {
    var rs := [Range(0, 8191)];
    PreviousWithin(rs, 0, 4096);
    FirstOverlapFails(rs, 4096, 12287);
    FreeIsRightIff(rs, 4096, 12287);
  }

  /** When a right free calls itself, the rest of the block touches no free byte. */
  lemma AgainIsDisjoint(rs: seq<Range>, s: int, e: int)
    requires Coalesced(rs) && rs != [] && s <= e && CanFree(rs, s, e) && Step(rs, s, e).Again?
    ensures var a := Step(rs, s, e); Disjoint(rs, a.s, a.e)
  {
    hide Step, Merge;
    if Disjoint(rs, s, e) {
      var i := SlotOf(rs, s, e);
      StepSlot(rs, i, s, e);
    } else if Inside(rs, s, e) {
      var i :| 0 <= i < |rs| && rs[i].Contains(s, e);
      StepInside(rs, i, s, e);
    } else if i: nat :| TailBeyond(rs, i, s, e) {
      StepTail(rs, i, s, e);
    } else {
      StepEndsWithFirst(rs, s, e);
    }
  }

  /** When a right free goes on to the merging branches, the block touches no free byte. */
  lemma SettledIsDisjoint(rs: seq<Range>, s: int, e: int)
    requires Coalesced(rs) && rs != [] && s <= e && CanFree(rs, s, e) && Step(rs, s, e).Done?
    requires Step(rs, s, e).outcome.Freed?
    ensures Disjoint(rs, s, e)
  {
    hide Step, Merge;
    if Inside(rs, s, e) {
      var i :| 0 <= i < |rs| && rs[i].Contains(s, e);
      StepInside(rs, i, s, e);
    } else if i: nat :| TailBeyond(rs, i, s, e) {
      StepTail(rs, i, s, e);
    } else if EndsWithFirst(rs, s, e) {
      StepEndsWithFirst(rs, s, e);
    }
  }

  /** What remains free is made of ranges of at least two bytes, as `set_range` asserts. */
  ghost predicate WideAfter(rs: seq<Range>, s: int, e: int)
    requires Coalesced(rs) && rs != [] && s <= e
  {
    var o := FreeEffect(rs, s, e);
    o.Freed? ==> Wide(o.ranges)
  }

  lemma PreviousOfSlot(rs: seq<Range>, i: nat, s: int, e: int)
    requires Coalesced(rs) && rs != [] && Slot(rs, i, s, e)
    ensures PreviousIndex(rs, s) == i - 1
  {
    FirstFromAt(rs, s, i);
  }
}
