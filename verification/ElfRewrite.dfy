/** Splicing an ELF image and rewriting its section header table and `e_shoff` in place. */
module ElfRewrite {
  import opened Bytes
  import opened Splice
  import opened ElfImage

  /** The table and `e_shoff` overwritten in a file whose table starts at `at`. */
  function Reheaded(f: seq<Byte>, at: nat, shoff: nat, hs: seq<Shdr>): (g: seq<Byte>)
    requires EHDR_SIZE <= at && at + SHDR_SIZE * |hs| <= |f|
    ensures |g| == |f|
  {
    Patch(Patch(f, at, Table(hs)), 40, ToLe(shoff, 8))
  }

  /** Edits that keep clear of the file header and of a table of `n` headers at `shoff`. */
  predicate SafeEdits(f: seq<Byte>, shoff: nat, n: nat, edits: seq<Edit>) {
    && EHDR_SIZE <= shoff && shoff + SHDR_SIZE * n <= |f|
    && Ordered(edits, EHDR_SIZE, |f|)
    && Undisturbed(edits, shoff, SHDR_SIZE * n)
  }

  lemma {:induction false} WeakerFrom(edits: seq<Edit>, from: nat, size: nat)
    requires Ordered(edits, from, size)
    ensures Ordered(edits, 0, size)
    ensures forall lo: nat, len: nat :: lo + len <= from ==> Undisturbed(edits, lo, len)
    ensures forall lo: nat :: lo < from ==> Mapped(lo, edits, After) == lo
  {
    OrderedBounds(edits, from, size);
  }

  /** Rewriting headers after the splice is rewriting them before it. */
  lemma {:induction false} ReheadCommutes(f: seq<Byte>, shoff: nat, hs: seq<Shdr>, edits: seq<Edit>, at: nat)
    requires SafeEdits(f, shoff, |hs|, edits)
    requires at == Mapped(shoff, edits, After)
    ensures Ordered(edits, 0, |f|)
    ensures EHDR_SIZE <= at && at + SHDR_SIZE * |hs| <= |Spliced(f, edits, 0)|
    ensures Reheaded(Spliced(f, edits, 0), at, at, hs) == Spliced(Reheaded(f, shoff, at, hs), edits, 0)
  {
    hide *;
    SafeParts(f, shoff, |hs|, edits);
    PatchCommutes(f, edits, 0, shoff, Table(hs));
    HoldsFits(Spliced(f, edits, 0), at, f[shoff..shoff + SHDR_SIZE * |hs|]);
    MappedPast(edits, EHDR_SIZE, shoff, |f|, After);
    PatchCommutes(Patch(f, shoff, Table(hs)), edits, 0, 40, ToLe(at, 8));
    ReheadedIs(f, shoff, at, hs);
    ReheadedIs(Spliced(f, edits, 0), at, at, hs);
  }

  lemma {:induction false} ReheadedIs(f: seq<Byte>, at: nat, shoff: nat, hs: seq<Shdr>)
    requires EHDR_SIZE <= at && at + SHDR_SIZE * |hs| <= |f|
    ensures Reheaded(f, at, shoff, hs) == Patch(Patch(f, at, Table(hs)), 40, ToLe(shoff, 8))
  {
  }

  lemma {:induction false} SafeParts(f: seq<Byte>, shoff: nat, n: nat, edits: seq<Edit>)
    requires SafeEdits(f, shoff, n, edits)
    ensures EHDR_SIZE <= shoff && shoff + SHDR_SIZE * n <= |f| && 64 <= |f|
    ensures Ordered(edits, EHDR_SIZE, |f|) && Ordered(edits, 0, |f|)
    ensures Undisturbed(edits, shoff, SHDR_SIZE * n)
    ensures Undisturbed(edits, 40, 8) && Mapped(40, edits, After) == 40
    ensures Undisturbed(edits, 60, 2) && Mapped(60, edits, After) == 60
  {
    WeakerFrom(edits, EHDR_SIZE, |f|);
  }

  lemma {:induction false} TableMovesUp(f: seq<Byte>, shoff: nat, n: nat, edits: seq<Edit>)
    requires SafeEdits(f, shoff, n, edits)
    ensures EHDR_SIZE <= Mapped(shoff, edits, After)
  {
    assert Undisturbed(edits, shoff, 0);
    MappedPast(edits, EHDR_SIZE, shoff, |f|, After);
  }

  lemma {:induction false} MappedPast(edits: seq<Edit>, from: nat, p: nat, size: nat, kind: MapKind)
    requires Ordered(edits, from, size) && from <= p
    requires Undisturbed(edits, p, 0)
    ensures from <= Mapped(p, edits, kind)
  {
    if edits != [] && edits[0].End() <= p && (edits[0].position < p || kind == After) {
      OrderedFirst(edits, from, size);
      MappedPast(edits[1..], edits[0].End(), p, size, kind);
    }
  }

  /** The rewritten file: spliced, with the header table `hs` and `e_shoff` written where they moved. */
  function Rewritten(f: seq<Byte>, shoff: nat, hs: seq<Shdr>, edits: seq<Edit>): seq<Byte>
    requires SafeEdits(f, shoff, |hs|, edits)
    requires 0 <= Mapped(shoff, edits, After)
  {
    WeakerFrom(edits, EHDR_SIZE, |f|);
    Spliced(Reheaded(f, shoff, Mapped(shoff, edits, After), hs), edits, 0)
  }

  /** Bytes beside the table and `e_shoff` are untouched by the header rewrite itself. */
  lemma {:induction false} ReheadedElsewhere(f: seq<Byte>, at: nat, shoff: nat, hs: seq<Shdr>, p: nat, len: nat)
    requires EHDR_SIZE <= at && at + SHDR_SIZE * |hs| <= |f| && p + len <= |f|
    requires p + len <= 40 || 48 <= p
    requires p + len <= at || at + SHDR_SIZE * |hs| <= p
    ensures Reheaded(f, at, shoff, hs)[p..p + len] == f[p..p + len]
  {
    SliceBesidePatch(f, at, Table(hs), p, p + len);
    SliceBesidePatch(Patch(f, at, Table(hs)), 40, ToLe(shoff, 8), p, p + len);
  }

  /** An undisturbed window beside the table is found at its mapped offset. */
  lemma {:induction false} RewrittenWindow(f: seq<Byte>, shoff: nat, hs: seq<Shdr>, edits: seq<Edit>, p: nat, len: nat)
    requires SafeEdits(f, shoff, |hs|, edits)
    requires 0 <= Mapped(shoff, edits, After)
    requires p + len <= |f| && Undisturbed(edits, p, len)
    requires p + len <= 40 || 48 <= p
    requires p + len <= shoff || shoff + SHDR_SIZE * |hs| <= p
    ensures Holds(Rewritten(f, shoff, hs, edits), Mapped(p, edits, After), f[p..p + len])
  {
    hide Undisturbed, Mapped, Holds, Spliced, Reheaded;
    WeakerFrom(edits, EHDR_SIZE, |f|);
    var at := Mapped(shoff, edits, After);
    ReheadedElsewhere(f, shoff, at, hs, p, len);
    WindowLands(Reheaded(f, shoff, at, hs), edits, 0, p, len);
  }

  lemma {:induction false} RewrittenInsert(f: seq<Byte>, shoff: nat, hs: seq<Shdr>, edits: seq<Edit>, k: nat)
    requires SafeEdits(f, shoff, |hs|, edits)
    requires 0 <= Mapped(shoff, edits, After)
    requires DistinctPositions(edits) && k < |edits|
    ensures Holds(Rewritten(f, shoff, hs, edits), Mapped(edits[k].position, edits, Before), edits[k].insert)
  {
    hide Undisturbed, Mapped, Holds, Spliced, Reheaded;
    WeakerFrom(edits, EHDR_SIZE, |f|);
    InsertLands(Reheaded(f, shoff, Mapped(shoff, edits, After), hs), edits, 0, k);
  }

  /** The rewritten file is an image whose table is exactly `hs`. */
  lemma {:induction false} RewrittenIsImage(f: seq<Byte>, shoff: nat, hs: seq<Shdr>, edits: seq<Edit>)
    requires SafeEdits(f, shoff, |hs|, edits)
    requires Holds(f, 60, ToLe(|hs|, 2))
    ensures 0 <= Mapped(shoff, edits, After)
    ensures IsImage(Rewritten(f, shoff, hs, edits), Mapped(shoff, edits, After), hs)
  {
    hide Undisturbed, Mapped, Spliced, Table, ToLe;
    SafeParts(f, shoff, |hs|, edits);
    TableMovesUp(f, shoff, |hs|, edits);
    var at := Mapped(shoff, edits, After);
    ReheadCommutes(f, shoff, hs, edits, at);
    var s := Spliced(f, edits, 0);
    var g := Rewritten(f, shoff, hs, edits);
    assert g == Patch(Patch(s, at, Table(hs)), 40, ToLe(at, 8));
    HoldsAfterPatch(Patch(s, at, Table(hs)), at, Table(hs), 40, ToLe(at, 8));
    HoldsIsSlice(f, 60, ToLe(|hs|, 2));
    RewrittenWindow(f, shoff, hs, edits, 60, 2);
  }
}
