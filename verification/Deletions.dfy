/** Linker relaxation: deleting ranges of a section, and where offsets and symbol sizes go. */
module Deletions {
  import opened Bytes

  /** A deletion of `count` bytes at an input offset. */
  datatype Deletion = Deletion(at: nat, count: nat) {
    function End(): nat { at + count }
  }

  /** Ascending, non-overlapping, non-empty deletions inside a section of `size` bytes. */
  predicate WellFormed(ds: seq<Deletion>, size: nat) {
    && (forall k :: 0 <= k < |ds| ==> ds[k].count > 0 && ds[k].End() <= size)
    && (forall j, k :: 0 <= j < k < |ds| ==> ds[j].End() <= ds[k].at)
  }

  predicate Deleted(ds: seq<Deletion>, i: nat) { exists k :: 0 <= k < |ds| && ds[k].at <= i < ds[k].End() }

  /** The bytes of `data[lo..hi]` that are not deleted, in order. */
  function Kept(data: seq<Byte>, ds: seq<Deletion>, lo: nat, hi: nat): seq<Byte>
    requires hi <= |data|
    decreases hi
  {
    if hi <= lo then []
    else Kept(data, ds, lo, hi - 1) + (if Deleted(ds, hi - 1) then [] else [data[hi - 1]])
  }

  /** How many of the first `i` bytes are deleted. */
  function DeletedBefore(ds: seq<Deletion>, i: nat): (n: nat)
    ensures n <= i
  {
    if i == 0 then 0 else DeletedBefore(ds, i - 1) + (if Deleted(ds, i - 1) then 1 else 0)
  }

  lemma {:induction false} KeptGap(data: seq<Byte>, ds: seq<Deletion>, lo: nat, from: nat, hi: nat)
    requires lo <= from <= hi <= |data|
    requires forall i :: from <= i < hi ==> !Deleted(ds, i)
    ensures Kept(data, ds, lo, hi) == Kept(data, ds, lo, from) + data[from..hi]
    decreases hi
  {
    if from < hi {
      KeptGap(data, ds, lo, from, hi - 1);
      assert data[from..hi] == data[from..hi - 1] + [data[hi - 1]];
    }
  }

  lemma {:induction false} KeptHole(data: seq<Byte>, ds: seq<Deletion>, lo: nat, from: nat, hi: nat)
    requires lo <= from <= hi <= |data|
    requires forall i :: from <= i < hi ==> Deleted(ds, i)
    ensures Kept(data, ds, lo, hi) == Kept(data, ds, lo, from)
    decreases hi
  {
    if from < hi {
      KeptHole(data, ds, lo, from, hi - 1);
    }
  }

  lemma {:induction false} KeptLength(data: seq<Byte>, ds: seq<Deletion>, hi: nat)
    requires hi <= |data|
    ensures |Kept(data, ds, 0, hi)| == hi - DeletedBefore(ds, hi)
    decreases hi
  {
    if hi > 0 {
      KeptLength(data, ds, hi - 1);
    }
  }

  /** Every surviving byte is at its offset less the bytes deleted before it. */
  lemma {:induction false} SurvivorIsAt(data: seq<Byte>, ds: seq<Deletion>, i: nat, hi: nat)
    requires i < hi <= |data| && !Deleted(ds, i)
    ensures var kept := Kept(data, ds, 0, hi);
            i - DeletedBefore(ds, i) < |kept| && kept[i - DeletedBefore(ds, i)] == data[i]
    decreases hi
  {
    hide Deleted;
    KeptLength(data, ds, i);
    if i < hi - 1 {
      SurvivorIsAt(data, ds, i, hi - 1);
    }
  }

  /** The place before deletion `k`: the end of the one before it. */
  function StartOf(ds: seq<Deletion>, k: nat): nat
    requires k <= |ds|
  {
    if k == 0 then 0 else ds[k - 1].End()
  }

  lemma {:induction false} GapIsKept(ds: seq<Deletion>, size: nat, k: nat, i: nat)
    requires WellFormed(ds, size) && k <= |ds| && StartOf(ds, k) <= i && (k < |ds| ==> i < ds[k].at)
    ensures !Deleted(ds, i)
  {
    forall j | 0 <= j < |ds| ensures !(ds[j].at <= i < ds[j].End()) {
      if j < k - 1 { assert ds[j].End() <= ds[k - 1].at; }
      if j > k { assert ds[k].End() <= ds[j].at; }
    }
  }

  lemma {:induction false} Bounds(ds: seq<Deletion>, size: nat, k: nat)
    requires WellFormed(ds, size) && k <= |ds|
    ensures StartOf(ds, k) <= size
    ensures k < |ds| ==> StartOf(ds, k) <= ds[k].at && ds[k].at < ds[k].End() <= size && StartOf(ds, k + 1) == ds[k].End()
  {
  }

  /** One turn of the copy loop: the gap is copied and the deletion skipped. */
  lemma {:induction false} CopyStep(data: seq<Byte>, ds: seq<Deletion>, k: nat)
    requires WellFormed(ds, |data|) && k < |ds|
    ensures StartOf(ds, k) <= ds[k].at && ds[k].End() <= |data|
    ensures Kept(data, ds, 0, ds[k].End()) == Kept(data, ds, 0, StartOf(ds, k)) + data[StartOf(ds, k)..ds[k].at]
  {
    hide WellFormed, Deleted, Kept;
    Bounds(ds, |data|, k);
    var from, at := StartOf(ds, k), ds[k].at;
    forall i | from <= i < at ensures !Deleted(ds, i) {
      GapIsKept(ds, |data|, k, i);
    }
    KeptGap(data, ds, 0, from, at);
    forall i | at <= i < ds[k].End() ensures Deleted(ds, i) {
      InDeletion(ds, k, i);
    }
    KeptHole(data, ds, 0, at, ds[k].End());
  }

  lemma {:induction false} InDeletion(ds: seq<Deletion>, k: nat, i: nat)
    requires k < |ds| && ds[k].at <= i < ds[k].End()
    ensures Deleted(ds, i)
  {
  }

  lemma {:induction false} CopyRest(data: seq<Byte>, ds: seq<Deletion>)
    requires WellFormed(ds, |data|)
    ensures StartOf(ds, |ds|) <= |data|
    ensures Kept(data, ds, 0, |data|) == Kept(data, ds, 0, StartOf(ds, |ds|)) + data[StartOf(ds, |ds|)..]
  {
    hide WellFormed, Deleted, Kept;
    Bounds(ds, |data|, |ds|);
    var from := StartOf(ds, |ds|);
    forall i | from <= i < |data| ensures !Deleted(ds, i) {
      GapIsKept(ds, |data|, |ds|, i);
    }
    KeptGap(data, ds, 0, from, |data|);
    assert data[from..|data|] == data[from..];
  }

  lemma {:induction false} KeptGrows(data: seq<Byte>, ds: seq<Deletion>, lo: nat, i: nat, hi: nat)
    requires i <= hi <= |data|
    ensures |Kept(data, ds, lo, i)| <= |Kept(data, ds, lo, hi)|
    decreases hi
  {
    if i < hi {
      KeptGrows(data, ds, lo, i, hi - 1);
    }
  }

  /** The copy loop of `write_section_raw`: the output is the input without the deleted ranges, then zeros. */
  method CopySection(data: seq<Byte>, ds: seq<Deletion>, out: array<Byte>)
    requires WellFormed(ds, |data|) && |Kept(data, ds, 0, |data|)| <= out.Length
    modifies out
    ensures var kept := Kept(data, ds, 0, |data|);
            out[..] == kept + seq(out.Length - |kept|, _ => 0)
  {
    hide WellFormed, Deleted, Kept;
    var inputPos, outputPos := 0, 0;
    KeptNone(data, ds);
    for k := 0 to |ds|
      invariant inputPos == StartOf(ds, k) <= |data|
      invariant outputPos == |Kept(data, ds, 0, inputPos)| <= out.Length
      invariant out[..outputPos] == Kept(data, ds, 0, inputPos)
    {
      var skipStart := ds[k].at;
      CopyStep(data, ds, k);
      KeptGrows(data, ds, 0, ds[k].End(), |data|);
      CopyInto(out, outputPos, data[inputPos..skipStart]);
      outputPos := outputPos + (skipStart - inputPos);
      inputPos := skipStart + ds[k].count;
    }
    CopyRest(data, ds);
    CopyInto(out, outputPos, data[inputPos..]);
    outputPos := outputPos + (|data| - inputPos);
    CopyInto(out, outputPos, seq(out.Length - outputPos, _ => 0));
  }

  lemma {:induction false} KeptNone(data: seq<Byte>, ds: seq<Deletion>)
    ensures Kept(data, ds, 0, 0) == []
  {
  }

  /** `copy_from_slice`. */
  method CopyInto(out: array<Byte>, at: nat, s: seq<Byte>)
    requires at + |s| <= out.Length
    modifies out
    ensures out[..at + |s|] == old(out[..at]) + s
    ensures out[at + |s|..] == old(out[at + |s|..])
  {
    for k := 0 to |s|
      invariant forall i :: 0 <= i < at ==> out[i] == old(out[i])
      invariant forall i :: 0 <= i < k ==> out[at + i] == s[i]
      invariant forall i :: at + k <= i < out.Length ==> out[i] == old(out[i])
    {
      out[at + k] := s[k];
    }
  }

  // ---------------------------------------------------------------- offsets

  /** The bytes deleted by the first `k` deletions: the `cumulative_delta` of entry `k - 1`. */
  function SumTo(ds: seq<Deletion>, k: nat): nat
    requires k <= |ds|
  {
    if k == 0 then 0 else SumTo(ds, k - 1) + ds[k - 1].count
  }

  /** `partition_point`: the first deletion at or after `i`. */
  function Partition(ds: seq<Deletion>, i: nat, from: nat): (k: nat)
    requires from <= |ds|
    ensures from <= k <= |ds|
    ensures k < |ds| ==> ds[k].at >= i
    ensures k > from ==> ds[k - 1].at < i
    decreases |ds| - from
  {
    if from == |ds| || ds[from].at >= i then from else Partition(ds, i, from + 1)
  }

  /** `input_to_output_offset`. */
  function InputToOutput(ds: seq<Deletion>, i: nat): int { i - SumTo(ds, Partition(ds, i, 0)) }

  /** The bytes of an enclosing deletion that lie at or after `i`, when `i` is strictly inside it. */
  function Overshoot(ds: seq<Deletion>, i: nat): nat {
    var k := Partition(ds, i, 0);
    if k > 0 && ds[k - 1].End() > i then ds[k - 1].End() - i else 0
  }

  predicate StrictlyInside(ds: seq<Deletion>, i: nat) { exists k :: 0 <= k < |ds| && ds[k].at < i < ds[k].End() }

  lemma {:induction false} PartitionIs(ds: seq<Deletion>, size: nat, i: nat, from: nat, k: nat)
    requires WellFormed(ds, size) && from <= k <= |ds|
    requires (k > from ==> ds[k - 1].at < i) && (k < |ds| ==> ds[k].at >= i)
    ensures Partition(ds, i, from) == k
    decreases |ds| - from
  {
    hide WellFormed;
    if from < k {
      Apart(ds, size, from, k - 1);
      PartitionIs(ds, size, i, from + 1, k);
    }
  }

  lemma {:induction false} Apart(ds: seq<Deletion>, size: nat, j: int, k: int)
    requires WellFormed(ds, size)
    ensures 0 <= j < k < |ds| ==> ds[j].End() <= ds[k].at
    ensures 0 <= k < |ds| ==> ds[k].at < ds[k].End() <= size
  {
  }

  lemma {:induction false} PartitionStep(ds: seq<Deletion>, size: nat, i: nat)
    requires WellFormed(ds, size)
    ensures var k := Partition(ds, i, 0);
            Partition(ds, i + 1, 0) == if k < |ds| && ds[k].at == i then k + 1 else k
  {
    hide Partition, WellFormed;
    PartitionSpec(ds, i);
    var k := Partition(ds, i, 0);
    if k < |ds| && ds[k].at == i {
      Apart(ds, size, k, k + 1);
      Apart(ds, size, k, k);
      PartitionIs(ds, size, i + 1, 0, k + 1);
    } else {
      PartitionIs(ds, size, i + 1, 0, k);
    }
  }

  lemma {:induction false} PartitionSpec(ds: seq<Deletion>, i: nat)
    ensures var k := Partition(ds, i, 0);
            k <= |ds| && (k < |ds| ==> ds[k].at >= i) && (k > 0 ==> ds[k - 1].at < i)
  {
  }

  lemma {:induction false} DeletedIs(ds: seq<Deletion>, size: nat, i: nat)
    requires WellFormed(ds, size)
    ensures var k := Partition(ds, i, 0);
            Deleted(ds, i) <==> (k > 0 && ds[k - 1].End() > i) || (k < |ds| && ds[k].at == i)
  {
    hide Partition, WellFormed;
    PartitionSpec(ds, i);
    var k: int := Partition(ds, i, 0);
    Apart(ds, size, k, k);
    if Deleted(ds, i) {
      var j :| 0 <= j < |ds| && ds[j].at <= i < ds[j].End();
      Apart(ds, size, j, k - 1);
      Apart(ds, size, k, j);
    }
  }

  /** The offset translation counts the deleted bytes before an offset, and the rest of a deletion it is strictly inside of. */
  lemma {:induction false} TranslationCounts(ds: seq<Deletion>, size: nat, i: nat)
    requires WellFormed(ds, size)
    ensures SumTo(ds, Partition(ds, i, 0)) == DeletedBefore(ds, i) + Overshoot(ds, i)
    decreases i
  {
    hide Partition, Deleted, WellFormed;
    PartitionSpec(ds, i);
    if i == 0 {
      return;
    }
    TranslationCounts(ds, size, i - 1);
    PartitionSpec(ds, i - 1);
    PartitionStep(ds, size, i - 1);
    DeletedIs(ds, size, i - 1);
    CountStep(ds, size, i);
  }

  lemma {:induction false} CountStep(ds: seq<Deletion>, size: nat, i: nat)
    requires i > 0 && WellFormed(ds, size)
    requires var k := Partition(ds, i - 1, 0);
             && Partition(ds, i, 0) == (if k < |ds| && ds[k].at == i - 1 then k + 1 else k)
             && (Deleted(ds, i - 1) <==> (k > 0 && ds[k - 1].End() > i - 1) || (k < |ds| && ds[k].at == i - 1))
             && SumTo(ds, k) == DeletedBefore(ds, i - 1) + Overshoot(ds, i - 1)
    ensures SumTo(ds, Partition(ds, i, 0)) == DeletedBefore(ds, i) + Overshoot(ds, i)
  {
    hide Partition, Deleted, WellFormed;
    var k: int := Partition(ds, i - 1, 0);
    Apart(ds, size, k - 1, k);
  }

  lemma {:induction false} OvershootIsInside(ds: seq<Deletion>, size: nat, i: nat)
    requires WellFormed(ds, size)
    ensures Overshoot(ds, i) > 0 <==> StrictlyInside(ds, i)
  {
    hide Partition, WellFormed;
    PartitionSpec(ds, i);
    var k: int := Partition(ds, i, 0);
    if StrictlyInside(ds, i) {
      var j :| 0 <= j < |ds| && ds[j].at < i < ds[j].End();
      Apart(ds, size, j, k - 1);
      Apart(ds, size, k, j);
    }
  }

  /** A surviving byte is copied to the place its offset translates to. */
  lemma {:induction false} SurvivorTranslates(data: seq<Byte>, ds: seq<Deletion>, i: nat)
    requires WellFormed(ds, |data|) && i < |data| && !Deleted(ds, i)
    ensures var kept := Kept(data, ds, 0, |data|);
            0 <= InputToOutput(ds, i) < |kept| && kept[InputToOutput(ds, i)] == data[i]
  {
    hide Partition, WellFormed, Kept, Deleted;
    TranslationCounts(ds, |data|, i);
    OvershootIsInside(ds, |data|, i);
    assert !StrictlyInside(ds, i) by { NotInside(ds, i); }
    SurvivorIsAt(data, ds, i, |data|);
  }

  lemma {:induction false} DeletedBeforeGrows(ds: seq<Deletion>, i: nat, j: nat)
    requires i <= j
    ensures i - DeletedBefore(ds, i) <= j - DeletedBefore(ds, j)
    ensures i < j && !Deleted(ds, i) ==> i - DeletedBefore(ds, i) < j - DeletedBefore(ds, j)
    decreases j
  {
    hide Deleted;
    if i < j {
      DeletedBeforeGrows(ds, i, j - 1);
    }
  }

  /** Offsets that are not strictly inside a deletion keep their order, and a surviving byte stays before whatever follows. */
  lemma {:induction false} TranslationKeepsOrder(ds: seq<Deletion>, size: nat, i: nat, j: nat)
    requires WellFormed(ds, size) && i <= j && !StrictlyInside(ds, i) && !StrictlyInside(ds, j)
    ensures InputToOutput(ds, i) <= InputToOutput(ds, j)
    ensures i < j && !Deleted(ds, i) ==> InputToOutput(ds, i) < InputToOutput(ds, j)
  {
    hide Partition, WellFormed, Deleted, DeletedBefore, StrictlyInside;
    TranslationCounts(ds, size, i);
    TranslationCounts(ds, size, j);
    OvershootIsInside(ds, size, i);
    OvershootIsInside(ds, size, j);
    DeletedBeforeGrows(ds, i, j);
  }

  lemma {:induction false} NotInside(ds: seq<Deletion>, i: nat)
    requires !Deleted(ds, i)
    ensures !StrictlyInside(ds, i)
  {
  }

  /** The survivors of `[from, from + size)`. */
  function Survivors(ds: seq<Deletion>, from: nat, size: nat): int {
    size - (DeletedBefore(ds, from + size) - DeletedBefore(ds, from))
  }

  /** The size `write_symbols` records. */
  function AdjustedSize(ds: seq<Deletion>, from: nat, size: nat): int {
    InputToOutput(ds, from + size) - InputToOutput(ds, from)
  }

  /** The adjusted size of a symbol counts its surviving bytes if and only if its two ends overshoot deletions equally,
      in particular when neither end is strictly inside a deletion. */
  lemma {:induction false} SizeCountsSurvivors(ds: seq<Deletion>, limit: nat, from: nat, size: nat)
    requires WellFormed(ds, limit)
    ensures AdjustedSize(ds, from, size) == Survivors(ds, from, size) <==> Overshoot(ds, from) == Overshoot(ds, from + size)
    ensures !StrictlyInside(ds, from) && !StrictlyInside(ds, from + size)
            ==> AdjustedSize(ds, from, size) == Survivors(ds, from, size)
  {
    hide Partition, WellFormed, Deleted, DeletedBefore;
    TranslationCounts(ds, limit, from);
    TranslationCounts(ds, limit, from + size);
    OvershootIsInside(ds, limit, from);
    OvershootIsInside(ds, limit, from + size);
  }

  /** A symbol that ends inside a deletion gets a size that is too small. */
  lemma {:induction false} EndInsideIsWrong()
    ensures var ds := [Deletion(4, 4)];
            WellFormed(ds, 8) && AdjustedSize(ds, 0, 6) == 2 && Survivors(ds, 0, 6) == 4
  {
    var ds := [Deletion(4, 4)];
    assert !Deleted(ds, 0) && !Deleted(ds, 1) && !Deleted(ds, 2) && !Deleted(ds, 3);
    assert Deleted(ds, 4) by { assert ds[0].at <= 4 < ds[0].End(); }
    assert Deleted(ds, 5) by { assert ds[0].at <= 5 < ds[0].End(); }
    assert DeletedBefore(ds, 4) == 0 by {
      assert DeletedBefore(ds, 1) == 0 && DeletedBefore(ds, 2) == 0 && DeletedBefore(ds, 3) == 0;
    }
    assert DeletedBefore(ds, 5) == 1;
    assert SumTo(ds, 1) == 4 && Partition(ds, 6, 1) == 1;
  }

  /** `SectionDeltas::new`: the running totals. */
  method CumulativeDeltas(ds: seq<Deletion>) returns (totals: seq<nat>)
    ensures |totals| == |ds| && forall k :: 0 <= k < |ds| ==> totals[k] == SumTo(ds, k + 1)
  {
    var running := 0;
    totals := [];
    for k := 0 to |ds|
      invariant running == SumTo(ds, k) && |totals| == k
      invariant forall j :: 0 <= j < k ==> totals[j] == SumTo(ds, j + 1)
    {
      running := running + ds[k].count;
      totals := totals + [running];
    }
  }
}
