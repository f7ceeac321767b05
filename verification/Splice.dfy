/**
 * The edit-list splice shared by the post-write rewriters: positions are in the old file, edits are
 * applied in one streaming pass, and `MapOffset` re-maps old offsets to new ones.
 */
module Splice {
  import opened Bytes

  datatype Edit = Edit(position: nat, delete: nat, insert: seq<Byte>) {
    function End(): nat { position + delete }
  }

  datatype MapKind = Before | After

  /** Sorted, non-overlapping edits that start at or after `from` and end inside a file of `size`. */
  predicate Ordered(edits: seq<Edit>, from: nat, size: nat) {
    if edits == [] then from <= size
    else from <= edits[0].position && Ordered(edits[1..], edits[0].End(), size)
  }

  /** What the streaming pass must output once its cursor is at `from`. */
  function Spliced(data: seq<Byte>, edits: seq<Edit>, from: nat): seq<Byte>
    requires Ordered(edits, from, |data|)
  {
    if edits == [] then data[from..]
    else
      OrderedFirst(edits, from, |data|);
      data[from..edits[0].position] + edits[0].insert + Spliced(data, edits[1..], edits[0].End())
  }

  /** Every byte of an old window `[p, p + len)` survives and no edit falls strictly inside it. */
  predicate Undisturbed(edits: seq<Edit>, p: nat, len: nat) {
    forall i :: 0 <= i < |edits| ==> edits[i].End() <= p || p + len <= edits[i].position
  }

  predicate Survives(edits: seq<Edit>, p: nat) {
    forall i :: 0 <= i < |edits| ==> !(edits[i].position <= p < edits[i].End())
  }

  /** The running delta of `map_offset`, which stops at the first edit that does not count. */
  function Delta(p: nat, edits: seq<Edit>, kind: MapKind): int {
    if edits == [] then 0
    else if edits[0].position < p then
      |edits[0].insert| - edits[0].delete + Delta(p, edits[1..], kind)
    else if edits[0].position == p && edits[0].delete == 0 && kind == After then
      |edits[0].insert| + Delta(p, edits[1..], kind)
    else 0
  }

  function Mapped(p: nat, edits: seq<Edit>, kind: MapKind): int {
    p + Delta(p, edits, kind)
  }

  /** The bytes that a list of edits adds, less those it removes. */
  function Net(edits: seq<Edit>): int {
    if edits == [] then 0 else |edits[0].insert| - edits[0].delete + Net(edits[1..])
  }

  predicate DistinctPositions(edits: seq<Edit>) {
    forall i, j :: 0 <= i < j < |edits| ==> edits[i].position != edits[j].position
  }

  // ---------------------------------------------------------------- order

  lemma {:induction false} OrderedBounds(edits: seq<Edit>, from: nat, size: nat)
    requires Ordered(edits, from, size)
    ensures from <= size
    ensures forall i :: 0 <= i < |edits| ==> from <= edits[i].position && edits[i].End() <= size
  {
    if edits != [] {
      OrderedBounds(edits[1..], edits[0].End(), size);
      assert forall i :: 0 < i < |edits| ==> edits[i] == edits[1..][i - 1];
    }
  }

  lemma {:induction false} OrderedFirst(edits: seq<Edit>, from: nat, size: nat)
    requires edits != [] && Ordered(edits, from, size)
    ensures from <= edits[0].position && edits[0].End() <= size
    ensures Ordered(edits[1..], edits[0].End(), size)
  {
    OrderedBounds(edits, from, size);
  }

  lemma {:induction false} SplicedFirst(data: seq<Byte>, edits: seq<Edit>, from: nat)
    requires edits != [] && Ordered(edits, from, |data|)
    ensures from <= edits[0].position && edits[0].End() <= |data|
    ensures Ordered(edits[1..], edits[0].End(), |data|)
    ensures Spliced(data, edits, from)
         == data[from..edits[0].position] + edits[0].insert + Spliced(data, edits[1..], edits[0].End())
  {
    OrderedFirst(edits, from, |data|);
  }

  lemma {:induction false} OrderedPairwise(edits: seq<Edit>, from: nat, size: nat)
    requires Ordered(edits, from, size)
    ensures forall i, j :: 0 <= i < j < |edits| ==> edits[i].End() <= edits[j].position
  {
    if edits != [] {
      OrderedPairwise(edits[1..], edits[0].End(), size);
      OrderedBounds(edits[1..], edits[0].End(), size);
      assert forall i :: 0 < i < |edits| ==> edits[i] == edits[1..][i - 1];
    }
  }

  lemma {:induction false} SplicedLength(data: seq<Byte>, edits: seq<Edit>, from: nat)
    requires Ordered(edits, from, |data|)
    ensures |Spliced(data, edits, from)| == |data| - from + Net(edits)
  {
    OrderedBounds(edits, from, |data|);
    if edits != [] {
      SplicedLength(data, edits[1..], edits[0].End());
    }
  }

  lemma {:induction false} SplicedNone(data: seq<Byte>, from: nat)
    requires from <= |data|
    ensures Ordered([], from, |data|)
    ensures Spliced(data, [], from) == data[from..|data|]
  {
  }

  // ---------------------------------------------------------------- where old bytes go

  /** What the output after the first edit holds, the whole output holds further on. */
  lemma {:induction false} HoldsPastFirst(data: seq<Byte>, edits: seq<Edit>, from: nat, inTail: int, w: seq<Byte>)
    requires edits != [] && Ordered(edits, from, |data|)
    requires Holds(Spliced(data, edits[1..], edits[0].End()), inTail, w)
    ensures Holds(Spliced(data, edits, from), edits[0].position - from + |edits[0].insert| + inTail, w)
  {
    OrderedFirst(edits, from, |data|);
    var head := data[from..edits[0].position] + edits[0].insert;
    var all := Spliced(data, edits, from);
    hide Spliced;
    HoldsInTail(head, Spliced(data, edits[1..], edits[0].End()), inTail, w);
  }

  /** A window before the first edit does not move. */
  lemma {:induction false} WindowStays(data: seq<Byte>, edits: seq<Edit>, from: nat, p: nat, len: nat)
    requires Ordered(edits, from, |data|)
    requires from <= p && p + len <= |data|
    requires edits == [] || p + len <= edits[0].position
    ensures Holds(Spliced(data, edits, from), p - from, data[p..p + len])
  {
    OrderedBounds(edits, from, |data|);
    if edits == [] {
      HoldsInSlice(data, from, |data|, p, len);
      assert data[from..|data|] == Spliced(data, edits, from);
    } else {
      var gap := data[from..edits[0].position];
      HoldsInSlice(data, from, edits[0].position, p, len);
      HoldsInHead(gap, edits[0].insert, p - from, data[p..p + len]);
      HoldsInHead(gap + edits[0].insert, Spliced(data, edits[1..], edits[0].End()), p - from, data[p..p + len]);
    }
  }

  /** Does the first edit leave a window that starts at `p` where it is? */
  predicate Stays(edits: seq<Edit>, p: nat) {
    edits == [] || p < edits[0].End() || (p == edits[0].position && edits[0].delete != 0)
  }

  lemma {:induction false} StayingStep(edits: seq<Edit>, from: nat, size: nat, p: nat, len: nat)
    requires Ordered(edits, from, size) && Undisturbed(edits, p, len) && Stays(edits, p)
    ensures Mapped(p, edits, After) == p
    ensures edits == [] || p + len <= edits[0].position <= size
  {
    if edits != [] { OrderedFirst(edits, from, size); }
  }

  lemma {:induction false} MovingStep(edits: seq<Edit>, from: nat, size: nat, p: nat, len: nat)
    requires Ordered(edits, from, size) && Undisturbed(edits, p, len) && !Stays(edits, p)
    ensures edits != [] && from <= edits[0].position && edits[0].End() <= p
    ensures Ordered(edits[1..], edits[0].End(), size) && Undisturbed(edits[1..], p, len)
    ensures Mapped(p, edits, After) == Mapped(p, edits[1..], After) + |edits[0].insert| - edits[0].delete
  {
    OrderedFirst(edits, from, size);
  }

  /** A window that no edit disturbs is found, byte for byte, at its start mapped with `After`. */
  lemma {:induction false} WindowLands(data: seq<Byte>, edits: seq<Edit>, from: nat, p: nat, len: nat)
    requires Ordered(edits, from, |data|)
    requires from <= p && p + len <= |data|
    requires Undisturbed(edits, p, len)
    ensures Holds(Spliced(data, edits, from), Mapped(p, edits, After) - from, data[p..p + len])
  {
    hide *;
    if Stays(edits, p) {
      StayingStep(edits, from, |data|, p, len);
      WindowStays(data, edits, from, p, len);
    } else {
      MovingStep(edits, from, |data|, p, len);
      WindowLands(data, edits[1..], edits[0].End(), p, len);
      HoldsPastFirst(data, edits, from, Mapped(p, edits[1..], After) - edits[0].End(), data[p..p + len]);
      EditEnd(edits[0]);
    }
  }

  lemma {:induction false} EditEnd(e: Edit)
    ensures e.End() == e.position + e.delete
  {
  }

  /** Each surviving byte is found at its own offset mapped with `After`. */
  lemma {:induction false} SurvivorLands(data: seq<Byte>, edits: seq<Edit>, p: nat)
    requires Ordered(edits, 0, |data|)
    requires p < |data| && Survives(edits, p)
    ensures 0 <= Mapped(p, edits, After) < |Spliced(data, edits, 0)|
    ensures Spliced(data, edits, 0)[Mapped(p, edits, After)] == data[p]
  {
    WindowLands(data, edits, 0, p, 1);
    var at := Mapped(p, edits, After);
    assert Spliced(data, edits, 0)[at] == Spliced(data, edits, 0)[at..at + 1][0];
  }

  /** `After` keeps the order of surviving bytes strictly. */
  lemma {:induction false} AfterIsMonotone(edits: seq<Edit>, from: nat, size: nat, p: nat, q: nat)
    requires Ordered(edits, from, size)
    requires from <= p < q < size
    requires Survives(edits, p) && Survives(edits, q)
    ensures Mapped(p, edits, After) < Mapped(q, edits, After)
  {
    if edits != [] {
      var e := edits[0];
      OrderedBounds(edits, from, size);
      if e.End() <= p && (e.position < p || e.delete == 0) {
        AfterIsMonotone(edits[1..], e.End(), size, p, q);
      } else {
        LowerByDeleted(edits, p + 1, size, q);
      }
    }
  }

  /** From `from` on, the map never falls below `from`. */
  lemma {:induction false} LowerByDeleted(edits: seq<Edit>, from: nat, size: nat, q: nat)
    requires Ordered(edits, from, size)
    requires from <= q < size && Survives(edits, q)
    ensures from <= Mapped(q, edits, After)
  {
    if edits != [] {
      var e := edits[0];
      if e.position < q || (e.position == q && e.delete == 0) {
        LowerByDeleted(edits[1..], e.End(), size, q);
      }
    }
  }

  // ---------------------------------------------------------------- patching and splicing commute

  /** Bytes before the cursor are not read any more. */
  lemma {:induction false} PatchBehindCursor(data: seq<Byte>, edits: seq<Edit>, from: nat, p: nat, w: seq<Byte>)
    requires Ordered(edits, from, |data|)
    requires p + |w| <= from <= |data|
    ensures Spliced(Patch(data, p, w), edits, from) == Spliced(data, edits, from)
  {
    if edits == [] {
      SliceBesidePatch(data, p, w, from, |data|);
      assert Patch(data, p, w)[from..] == Patch(data, p, w)[from..|data|];
      assert data[from..] == data[from..|data|];
    } else {
      OrderedFirst(edits, from, |data|);
      SliceBesidePatch(data, p, w, from, edits[0].position);
      PatchBehindCursor(data, edits[1..], edits[0].End(), p, w);
    }
  }

  /** Overwriting an undisturbed window and then splicing is splicing and then overwriting. */
  lemma {:induction false} PatchCommutes(data: seq<Byte>, edits: seq<Edit>, from: nat, p: nat, w: seq<Byte>)
    requires Ordered(edits, from, |data|)
    requires from <= p && p + |w| <= |data|
    requires Undisturbed(edits, p, |w|)
    ensures Holds(Spliced(data, edits, from), Mapped(p, edits, After) - from, data[p..p + |w|])
    ensures Spliced(Patch(data, p, w), edits, from)
         == Patch(Spliced(data, edits, from), Mapped(p, edits, After) - from, w)
  {
    hide *;
    WindowLands(data, edits, from, p, |w|);
    HoldsFits(Spliced(data, edits, from), Mapped(p, edits, After) - from, data[p..p + |w|]);
    if Stays(edits, p) {
      StayingStep(edits, from, |data|, p, |w|);
      PatchInGap(data, edits, from, p, w);
    } else {
      MovingStep(edits, from, |data|, p, |w|);
      WindowLands(data, edits[1..], edits[0].End(), p, |w|);
      var inTail := Mapped(p, edits[1..], After) - edits[0].End();
      HoldsFits(Spliced(data, edits[1..], edits[0].End()), inTail, data[p..p + |w|]);
      PatchCommutes(data, edits[1..], edits[0].End(), p, w);
      PatchPastFirst(data, edits, from, p, w, inTail);
      EditEnd(edits[0]);
    }
  }

  lemma {:induction false} PatchInGap(data: seq<Byte>, edits: seq<Edit>, from: nat, p: nat, w: seq<Byte>)
    requires Ordered(edits, from, |data|)
    requires from <= p && p + |w| <= |data|
    requires edits == [] || p + |w| <= edits[0].position <= |data|
    requires p - from + |w| <= |Spliced(data, edits, from)|
    ensures Spliced(Patch(data, p, w), edits, from) == Patch(Spliced(data, edits, from), p - from, w)
  {
    hide *;
    if edits == [] {
      SplicedNone(data, from);
      SplicedNone(Patch(data, p, w), from);
      SliceAroundPatch(data, p, w, from, |data|);
    } else {
      SplicedFirst(data, edits, from);
      SplicedFirst(Patch(data, p, w), edits, from);
      var gap := data[from..edits[0].position];
      var tail := Spliced(data, edits[1..], edits[0].End());
      SliceAroundPatch(data, p, w, from, edits[0].position);
      EditEnd(edits[0]);
      PatchBehindCursor(data, edits[1..], edits[0].End(), p, w);
      PatchInHead(gap, edits[0].insert, p - from, w);
      PatchInHead(gap + edits[0].insert, tail, p - from, w);
    }
  }

  lemma {:induction false} PatchPastFirst(data: seq<Byte>, edits: seq<Edit>, from: nat, p: nat, w: seq<Byte>, inTail: nat)
    requires edits != [] && Ordered(edits, from, |data|)
    requires edits[0].End() <= p && p + |w| <= |data|
    requires inTail + |w| <= |Spliced(data, edits[1..], edits[0].End())|
    requires Spliced(Patch(data, p, w), edits[1..], edits[0].End())
          == Patch(Spliced(data, edits[1..], edits[0].End()), inTail, w)
    ensures edits[0].position - from + |edits[0].insert| + inTail + |w| <= |Spliced(data, edits, from)|
    ensures Spliced(Patch(data, p, w), edits, from)
         == Patch(Spliced(data, edits, from), edits[0].position - from + |edits[0].insert| + inTail, w)
  {
    hide Spliced, Patch, Ordered;
    SplicedFirst(data, edits, from);
    SplicedFirst(Patch(data, p, w), edits, from);
    SliceBesidePatch(data, p, w, from, edits[0].position);
    var head := data[from..edits[0].position] + edits[0].insert;
    PatchInTail(head, Spliced(data, edits[1..], edits[0].End()), inTail, w);
  }

  // ---------------------------------------------------------------- where inserts go

  /** Each insert starts where its own position maps with `Before`, if no two positions coincide. */
  lemma {:induction false} InsertLands(data: seq<Byte>, edits: seq<Edit>, from: nat, k: nat)
    requires Ordered(edits, from, |data|) && DistinctPositions(edits)
    requires k < |edits|
    ensures Holds(Spliced(data, edits, from), Mapped(edits[k].position, edits, Before) - from, edits[k].insert)
  {
    if k == 0 {
      FirstInsertLands(data, edits, from);
    } else {
      hide Spliced, Holds, DistinctPositions, Delta, Ordered;
      FirstIsEarlier(edits, from, |data|, k);
      OrderedFirst(edits, from, |data|);
      InsertLands(data, edits[1..], edits[0].End(), k - 1);
      var inTail := Mapped(edits[k].position, edits[1..], Before) - edits[0].End();
      assert Mapped(edits[k].position, edits, Before) - from
          == edits[0].position - from + |edits[0].insert| + inTail;
      HoldsPastFirst(data, edits, from, inTail, edits[k].insert);
    }
  }

  lemma {:induction false} FirstInsertLands(data: seq<Byte>, edits: seq<Edit>, from: nat)
    requires edits != [] && Ordered(edits, from, |data|)
    ensures Holds(Spliced(data, edits, from), edits[0].position - from, edits[0].insert)
  {
    OrderedFirst(edits, from, |data|);
    var gap := data[from..edits[0].position];
    HoldsInTail(gap, edits[0].insert, 0, edits[0].insert);
    HoldsInHead(gap + edits[0].insert, Spliced(data, edits[1..], edits[0].End()), |gap|, edits[0].insert);
  }

  lemma {:induction false} FirstIsEarlier(edits: seq<Edit>, from: nat, size: nat, k: nat)
    requires Ordered(edits, from, size) && DistinctPositions(edits)
    requires 0 < k < |edits|
    ensures edits[0].position < edits[k].position
    ensures Mapped(edits[k].position, edits, Before)
         == Mapped(edits[k].position, edits[1..], Before) + |edits[0].insert| - edits[0].delete
    ensures DistinctPositions(edits[1..]) && edits[1..][k - 1] == edits[k]
  {
    OrderedPairwise(edits, from, size);
  }

  // ---------------------------------------------------------------- tiling

  /** Where a byte of the new file comes from: an old offset, or a byte of the k-th insert. */
  datatype Origin = Old(p: nat) | New(k: nat, j: nat)

  function OriginOf(edits: seq<Edit>, from: nat, size: nat, q: nat): Origin
    requires Ordered(edits, from, size)
  {
    if edits == [] then Old(from + q)
    else
      var gap := edits[0].position - from;
      var ins := |edits[0].insert|;
      if q < gap then Old(from + q)
      else if q < gap + ins then New(0, q - gap)
      else
        match OriginOf(edits[1..], edits[0].End(), size, q - gap - ins)
        case Old(p) => Old(p)
        case New(k, j) => New(k + 1, j)
  }

  lemma {:induction false} SurvivesFirst(edits: seq<Edit>, p: nat)
    requires edits != [] && edits[0].End() <= p && Survives(edits[1..], p)
    ensures Survives(edits, p)
  {
    assert forall i :: 0 < i < |edits| ==> edits[i] == edits[1..][i - 1];
  }

  lemma {:induction false} AllLaterSurvive(edits: seq<Edit>, from: nat, size: nat, p: nat)
    requires Ordered(edits, from, size)
    requires edits == [] || p < edits[0].position
    ensures Survives(edits, p)
    ensures edits == [] || edits[0].position <= size
  {
    if edits != [] {
      OrderedBounds(edits, edits[0].position, size);
    }
  }

  /** Every byte of the new file is a surviving byte at its mapped place or a byte of an insert. */
  lemma {:induction false} OriginIsReal(edits: seq<Edit>, from: nat, size: nat, q: nat)
    requires Ordered(edits, from, size) && DistinctPositions(edits)
    requires q < size - from + Net(edits)
    ensures match OriginOf(edits, from, size, q)
            case Old(p) => from <= p < size && Survives(edits, p) && Mapped(p, edits, After) - from == q
            case New(k, j) => k < |edits| && j < |edits[k].insert|
                              && Mapped(edits[k].position, edits, Before) - from + j == q
  {
    hide Survives;
    if edits == [] || q < edits[0].position - from {
      AllLaterSurvive(edits, from, size, from + q);
    } else {
      OrderedFirst(edits, from, size);
      var gap := edits[0].position - from;
      var ins := |edits[0].insert|;
      if q >= gap + ins {
        OriginIsReal(edits[1..], edits[0].End(), size, q - gap - ins);
        match OriginOf(edits[1..], edits[0].End(), size, q - gap - ins)
        case Old(p) =>
          SurvivesFirst(edits, p);
        case New(k, j) =>
          FirstIsEarlier(edits, from, size, k + 1);
      }
    }
  }

  /** No two surviving bytes share a place, and none shares a place with an insert. */
  lemma {:induction false} OriginOfSurvivor(edits: seq<Edit>, from: nat, size: nat, p: nat)
    requires Ordered(edits, from, size)
    requires from <= p < size && Survives(edits, p)
    ensures from <= Mapped(p, edits, After)
    ensures OriginOf(edits, from, size, Mapped(p, edits, After) - from) == Old(p)
  {
    if edits != [] {
      OrderedFirst(edits, from, size);
      if p >= edits[0].position {
        LowerByDeleted(edits[1..], edits[0].End(), size, p);
        OriginOfSurvivor(edits[1..], edits[0].End(), size, p);
      }
    }
  }

  lemma {:induction false} OriginOfInsert(edits: seq<Edit>, from: nat, size: nat, k: nat, j: nat)
    requires Ordered(edits, from, size) && DistinctPositions(edits)
    requires k < |edits| && j < |edits[k].insert|
    ensures from <= Mapped(edits[k].position, edits, Before)
    ensures OriginOf(edits, from, size, Mapped(edits[k].position, edits, Before) - from + j) == New(k, j)
  {
    OrderedFirst(edits, from, size);
    if k > 0 {
      FirstIsEarlier(edits, from, size, k);
      OriginOfInsert(edits[1..], edits[0].End(), size, k - 1, j);
    }
  }

  // ---------------------------------------------------------------- the loops

  /** The streaming splice: fails on overlapping edits and on ranges outside the file. */
  method Stream(data: seq<Byte>, edits: seq<Edit>) returns (r: Option<seq<Byte>>)
    ensures r.Some? <==> Ordered(edits, 0, |data|)
    ensures r.Some? ==> r.value == Spliced(data, edits, 0)
  {
    var out: seq<Byte> := [];
    var cursor: nat := 0;
    assert edits[0..] == edits;
    for k := 0 to |edits|
      invariant Ordered(edits, 0, |data|) <==> Ordered(edits[k..], cursor, |data|)
      invariant Ordered(edits, 0, |data|) ==> Spliced(data, edits, 0) == out + Spliced(data, edits[k..], cursor)
    {
      var e := edits[k];
      assert edits[k..][0] == e && edits[k..][1..] == edits[k + 1..];
      if e.position < cursor || |data| < e.position {
        if Ordered(edits[k..], cursor, |data|) { OrderedFirst(edits[k..], cursor, |data|); }
        return None;
      }
      if Ordered(edits[k..], cursor, |data|) {
        StepSplices(data, edits, k, cursor, out);
      }
      out := out + data[cursor..e.position] + e.insert;
      cursor := e.position + e.delete;
    }
    assert edits[|edits|..] == [];
    if |data| < cursor {
      return None;
    }
    return Some(out + data[cursor..]);
  }

  lemma {:induction false} StepSplices(data: seq<Byte>, edits: seq<Edit>, k: nat, cursor: nat, out: seq<Byte>)
    requires k < |edits| && Ordered(edits[k..], cursor, |data|)
    ensures cursor <= edits[k].position <= |data|
    ensures Ordered(edits[k + 1..], edits[k].End(), |data|)
    ensures out + Spliced(data, edits[k..], cursor)
         == out + data[cursor..edits[k].position] + edits[k].insert
          + Spliced(data, edits[k + 1..], edits[k].End())
  {
    OrderedFirst(edits[k..], cursor, |data|);
    assert edits[k..][1..] == edits[k + 1..];
  }

  /** `map_offset`. */
  method MapOffset(p: nat, edits: seq<Edit>, kind: MapKind) returns (q: int)
    ensures q == Mapped(p, edits, kind)
  {
    var delta := 0;
    var k := 0;
    assert edits[0..] == edits;
    while k < |edits|
      invariant 0 <= k <= |edits|
      invariant Delta(p, edits, kind) == delta + Delta(p, edits[k..], kind)
    {
      var e := edits[k];
      assert edits[k..][0] == e && edits[k..][1..] == edits[k + 1..];
      if e.position < p {
        delta := delta + |e.insert| - e.delete;
      } else if e.position == p && e.delete == 0 && kind == After {
        delta := delta + |e.insert|;
      } else {
        break;
      }
      k := k + 1;
    }
    q := p + delta;
  }

  // ---------------------------------------------------------------- sorting

  /** Stable insertion by position. */
  function Insert(e: Edit, edits: seq<Edit>): seq<Edit> {
    if edits == [] then [e]
    else if e.position < edits[0].position then [e] + edits
    else [edits[0]] + Insert(e, edits[1..])
  }

  /** `sort_by_key(|op| op.position)`, a stable sort. */
  function Sorted(edits: seq<Edit>): seq<Edit> {
    if edits == [] then [] else Insert(edits[|edits| - 1], Sorted(edits[..|edits| - 1]))
  }

  lemma {:induction false} InsertMembers(e: Edit, edits: seq<Edit>)
    ensures forall x :: x in Insert(e, edits) <==> x == e || x in edits
    ensures |Insert(e, edits)| == |edits| + 1
  {
    if edits != [] && edits[0].position <= e.position {
      InsertMembers(e, edits[1..]);
      assert edits == [edits[0]] + edits[1..];
    }
  }

  lemma {:induction false} SortedMembers(edits: seq<Edit>)
    ensures forall x :: x in Sorted(edits) <==> x in edits
    ensures |Sorted(edits)| == |edits|
  {
    if edits != [] {
      var n := |edits| - 1;
      SortedMembers(edits[..n]);
      InsertMembers(edits[n], Sorted(edits[..n]));
      assert edits == edits[..n] + [edits[n]];
    }
  }

  predicate Apart(d: Edit, e: Edit) {
    d.End() <= e.position || e.End() <= d.position
  }

  /** Inserting a replacement that meets no other edit keeps the list ordered. */
  lemma {:induction false} InsertKeepsOrder(e: Edit, edits: seq<Edit>, from: nat, size: nat)
    requires Ordered(edits, from, size)
    requires from <= e.position && e.End() <= size && 0 < e.delete
    requires forall i :: 0 <= i < |edits| ==> 0 < edits[i].delete && Apart(e, edits[i])
    ensures Ordered(Insert(e, edits), from, size)
  {
    if edits != [] {
      OrderedFirst(edits, from, size);
      if e.position < edits[0].position {
        assert ([e] + edits)[1..] == edits;
      } else {
        InsertKeepsOrder(e, edits[1..], edits[0].End(), size);
        assert ([edits[0]] + Insert(e, edits[1..]))[1..] == Insert(e, edits[1..]);
      }
    }
  }

  lemma {:induction false} ReplacementsHaveDistinctPositions(edits: seq<Edit>, from: nat, size: nat)
    requires Ordered(edits, from, size)
    requires forall i :: 0 <= i < |edits| ==> 0 < edits[i].delete
    ensures DistinctPositions(edits)
  {
    OrderedPairwise(edits, from, size);
  }
}
