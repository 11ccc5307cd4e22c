/** The physical free list seen in page frames: what the address space takes and gives as frames is what the
    physical memory manager carves and merges as byte ranges. */
module Frames {
  import Ranges
  import opened AddressSpace

  /** Every byte of the frame is free. */
  ghost predicate FrameFree(rs: seq<Ranges.Range>, f: nat) {
    forall x: int :: Ranges.Within(x, f * 4096, f * 4096 + 4095) ==> Ranges.Covered(rs, x)
  }

  lemma BytesOfBlock(b: nat, count: nat, f: nat, x: int)
    requires Ranges.Within(x, f * 4096, f * 4096 + 4095)
    ensures Ranges.Within(x, b * 4096, (b + count) * 4096 - 1) <==> InBlock(b, count, f)
  {
  }

  /** Carving a run of frames out removes exactly those frames. */
  lemma CarvedFrames(rs: seq<Ranges.Range>, i: nat, b: nat, count: nat, f: nat)
    requires Ranges.Coalesced(rs) && i < |rs| && count > 0 && rs[i].Contains(b * 4096, (b + count) * 4096 - 1)
    ensures FrameFree(Ranges.Carve(rs, i, b * 4096, (b + count) * 4096 - 1), f) <==>
      FrameFree(rs, f) && !InBlock(b, count, f)
  {
    hide Ranges.Carve, Ranges.Coalesced, Ranges.Covered, InBlock;
    var rs' := Ranges.Carve(rs, i, b * 4096, (b + count) * 4096 - 1);
    forall x: int | Ranges.Within(x, f * 4096, f * 4096 + 4095)
      ensures Ranges.Covered(rs', x) <==> Ranges.Covered(rs, x) && !InBlock(b, count, f)
    {
      BytesOfBlock(b, count, f, x);
      Ranges.CarveCovered(rs, i, b * 4096, (b + count) * 4096 - 1, x);
    }
    var x: int := f * 4096;
    assert Ranges.Within(x, f * 4096, f * 4096 + 4095);
    assert Ranges.Covered(rs', x) ==> !InBlock(b, count, f);
  }

  /** Merging a run of frames in adds exactly those frames, when none of its bytes was free. */
  lemma MergedFrames(rs: seq<Ranges.Range>, i: nat, b: nat, count: nat, f: nat)
    requires Ranges.Coalesced(rs) && count > 0 && i <= |rs| && Ranges.Slot(rs, i, b * 4096, (b + count) * 4096 - 1)
    ensures FrameFree(Ranges.Merge(rs, i, b * 4096, (b + count) * 4096 - 1), f) <==>
      FrameFree(rs, f) || InBlock(b, count, f)
  {
    hide Ranges.Merge, Ranges.Coalesced, Ranges.Covered, InBlock, Ranges.Slot;
    var rs' := Ranges.Merge(rs, i, b * 4096, (b + count) * 4096 - 1);
    forall x: int | Ranges.Within(x, f * 4096, f * 4096 + 4095)
      ensures Ranges.Covered(rs', x) <==> Ranges.Covered(rs, x) || InBlock(b, count, f)
    {
      BytesOfBlock(b, count, f, x);
      Ranges.MergeCovered(rs, i, b * 4096, (b + count) * 4096 - 1, x);
    }
  }
}
