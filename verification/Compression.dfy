/**
 * `--compress-debug-sections=zstd`: plan selection, splice, offset shift and header rewrite.
 * The codec is a parameter; nothing but `unzip(zip(x)) == x` is used of it.
 */
module Compression {
  import opened Bytes
  import opened Splice
  import opened ElfImage
  import opened ElfRewrite

  const CHDR_SIZE: nat := 24
  const ELFCOMPRESS_ZSTD: nat := 2
  const SHF_COMPRESSED: nat := 2048
  const SHF_ALLOC: nat := 2
  const MIN_COMPRESSIBLE: nat := 256

  type Codec = seq<Byte> -> seq<Byte>

  /** The input of the pass: the file, its parsed headers, and which names start with `.debug_`. */
  datatype Input = Input(f: seq<Byte>, shoff: nat, hs: seq<Shdr>, isDebug: seq<bool>)

  predicate Valid(x: Input) {
    && IsImage(x.f, x.shoff, x.hs)
    && WellLaidOut(x.f, x.shoff, x.hs)
    && |x.isDebug| == |x.hs|
    && forall i :: 0 <= i < |x.hs| && x.isDebug[i] ==> x.hs[i].HasBytes()
  }

  predicate HasFlag(flags: nat, bit: nat)
    requires bit > 0
  {
    (flags / bit) % 2 == 1
  }

  predicate Eligible(x: Input, i: nat)
    requires i < |x.hs| && i < |x.isDebug|
  {
    && x.isDebug[i]
    && !HasFlag(x.hs[i].flags, SHF_ALLOC) && !HasFlag(x.hs[i].flags, SHF_COMPRESSED)
    && MIN_COMPRESSIBLE <= x.hs[i].size
  }

  /** `write_chdr_zstd`. */
  function Chdr(size: nat, addralign: nat): (s: seq<Byte>)
    ensures |s| == CHDR_SIZE
  {
    ToLe(ELFCOMPRESS_ZSTD, 4) + ToLe(0, 4) + ToLe(size, 8) + ToLe(addralign, 8)
  }

  function Payload(x: Input, i: nat): seq<Byte>
    requires i < |x.hs| && x.hs[i].End() <= |x.f|
  {
    x.f[x.hs[i].offset..x.hs[i].End()]
  }

  function Packed(x: Input, zip: Codec, i: nat): seq<Byte>
    requires i < |x.hs| && x.hs[i].End() <= |x.f|
  {
    Chdr(x.hs[i].size, x.hs[i].addralign) + zip(Payload(x, i))
  }

  /** A section is compressed when it is eligible and compression strictly helps. */
  predicate Chosen(x: Input, zip: Codec, i: nat)
    requires i < |x.hs| && i < |x.isDebug|
    requires x.isDebug[i] ==> x.hs[i].End() <= |x.f|
  {
    Eligible(x, i) && CHDR_SIZE + |zip(Payload(x, i))| < x.hs[i].size
  }

  function PlanOf(x: Input, zip: Codec, i: nat): Edit
    requires i < |x.hs| && x.hs[i].End() <= |x.f|
  {
    Edit(x.hs[i].offset, x.hs[i].size, Packed(x, zip, i))
  }

  function Plans(x: Input, zip: Codec, n: nat): seq<Edit>
    requires Valid(x) && n <= |x.hs|
  {
    if n == 0 then []
    else if Chosen(x, zip, n - 1) then Insert(PlanOf(x, zip, n - 1), Plans(x, zip, n - 1))
    else Plans(x, zip, n - 1)
  }

  /** The bytes saved by the plans whose old range ends at or before `at`. */
  function ShiftAt(edits: seq<Edit>, at: nat): int {
    if edits == [] then 0
    else (if edits[0].End() <= at then edits[0].delete - |edits[0].insert| else 0) + ShiftAt(edits[1..], at)
  }

  function NewHeader(x: Input, zip: Codec, edits: seq<Edit>, i: nat): Shdr
    requires Valid(x) && i < |x.hs|
    requires 0 <= x.hs[i].offset - ShiftAt(edits, x.hs[i].offset)
  {
    var moved := x.hs[i].(offset := x.hs[i].offset - ShiftAt(edits, x.hs[i].offset));
    if Chosen(x, zip, i) then
      moved.(size := |Packed(x, zip, i)|, flags := moved.flags + SHF_COMPRESSED, addralign := 1)
    else moved
  }

  // ---------------------------------------------------------------- plans

  ghost predicate FromChosen(x: Input, zip: Codec, n: nat, e: Edit)
    requires Valid(x) && n <= |x.hs|
  {
    exists i :: 0 <= i < n && Chosen(x, zip, i) && e == PlanOf(x, zip, i)
  }

  lemma {:induction false} PlanMembers(x: Input, zip: Codec, n: nat)
    requires Valid(x) && n <= |x.hs|
    ensures forall e :: e in Plans(x, zip, n) <==> FromChosen(x, zip, n, e)
  {
    if n > 0 {
      PlanMembers(x, zip, n - 1);
      if Chosen(x, zip, n - 1) {
        InsertMembers(PlanOf(x, zip, n - 1), Plans(x, zip, n - 1));
      }
      forall e
        ensures e in Plans(x, zip, n) <==> FromChosen(x, zip, n, e)
      {
        assert FromChosen(x, zip, n, e) <==>
            FromChosen(x, zip, n - 1, e) || (Chosen(x, zip, n - 1) && e == PlanOf(x, zip, n - 1));
      }
    }
  }

  ghost predicate GoodPlans(x: Input, edits: seq<Edit>) {
    && Ordered(edits, EHDR_SIZE, |x.f|)
    && forall k :: 0 <= k < |edits| ==> |edits[k].insert| < edits[k].delete
  }

  lemma {:induction false} PlansAreGood(x: Input, zip: Codec, n: nat)
    requires Valid(x) && n <= |x.hs|
    ensures GoodPlans(x, Plans(x, zip, n))
  {
    if n > 0 {
      PlansAreGood(x, zip, n - 1);
      if Chosen(x, zip, n - 1) {
        var e := PlanOf(x, zip, n - 1);
        var before := Plans(x, zip, n - 1);
        PlanMembers(x, zip, n - 1);
        forall k | 0 <= k < |before|
          ensures Apart(e, before[k])
        {
          assert before[k] in before;
        }
        InsertKeepsOrder(e, before, EHDR_SIZE, |x.f|);
        InsertMembers(e, before);
        forall k | 0 <= k < |Insert(e, before)|
          ensures |Insert(e, before)[k].insert| < Insert(e, before)[k].delete
        {
          assert Insert(e, before)[k] in Insert(e, before);
        }
      }
    }
  }

  // ---------------------------------------------------------------- shifts

  lemma {:induction false} NoShiftBefore(edits: seq<Edit>, at: nat, size: nat)
    requires Ordered(edits, at, size)
    requires forall k :: 0 <= k < |edits| ==> |edits[k].insert| < edits[k].delete
    ensures ShiftAt(edits, at) == 0
  {
    if edits != [] {
      NoShiftBefore(edits[1..], at, size);
    }
  }

  /** For an offset outside every plan, `O - shift_at(O)` is the splice's own map. */
  lemma {:induction false} ShiftIsMap(edits: seq<Edit>, from: nat, size: nat, at: nat, kind: MapKind)
    requires Ordered(edits, from, size)
    requires forall k :: 0 <= k < |edits| ==> |edits[k].insert| < edits[k].delete
    requires Undisturbed(edits, at, 0)
    ensures at - ShiftAt(edits, at) == Mapped(at, edits, kind)
  {
    if edits != [] {
      OrderedFirst(edits, from, size);
      if edits[0].End() <= at {
        ShiftIsMap(edits[1..], edits[0].End(), size, at, kind);
      } else {
        NoShiftBefore(edits, at, size);
      }
    }
  }

  /** Shifting moves no offset below zero, whether or not it lies inside a plan. */
  lemma {:induction false} ShiftIsBounded(edits: seq<Edit>, from: nat, size: nat, at: nat)
    requires Ordered(edits, from, size)
    requires forall k :: 0 <= k < |edits| ==> |edits[k].insert| < edits[k].delete
    ensures 0 <= ShiftAt(edits, at) && (from <= at ==> from <= at - ShiftAt(edits, at))
    ensures at < from ==> ShiftAt(edits, at) == 0
  {
    if edits != [] {
      OrderedFirst(edits, from, size);
      ShiftIsBounded(edits[1..], edits[0].End(), size, at);
    }
  }

  // ---------------------------------------------------------------- what plans leave alone

  lemma {:induction false} PlansAvoid(x: Input, zip: Codec, lo: nat, len: nat)
    requires Valid(x)
    requires forall i :: 0 <= i < |x.hs| && Chosen(x, zip, i) ==>
               x.hs[i].End() <= lo || lo + len <= x.hs[i].offset
    ensures Undisturbed(Plans(x, zip, |x.hs|), lo, len)
  {
    PlanMembers(x, zip, |x.hs|);
    var edits := Plans(x, zip, |x.hs|);
    forall k | 0 <= k < |edits|
      ensures edits[k].End() <= lo || lo + len <= edits[k].position
    {
      assert edits[k] in edits;
    }
  }

  lemma {:induction false} SectionIsAvoided(x: Input, zip: Codec, j: nat)
    requires Valid(x) && j < |x.hs| && x.hs[j].HasBytes()
    ensures !Chosen(x, zip, j) ==> Undisturbed(Plans(x, zip, |x.hs|), x.hs[j].offset, x.hs[j].size)
    ensures Undisturbed(Plans(x, zip, |x.hs|), x.hs[j].offset, 0)
  {
    if !Chosen(x, zip, j) {
      PlansAvoid(x, zip, x.hs[j].offset, x.hs[j].size);
    }
    PlansAvoid(x, zip, x.hs[j].offset, 0);
  }

  lemma {:induction false} TableIsAvoided(x: Input, zip: Codec)
    requires Valid(x)
    ensures Undisturbed(Plans(x, zip, |x.hs|), x.shoff, SHDR_SIZE * |x.hs|)
    ensures Undisturbed(Plans(x, zip, |x.hs|), x.shoff, 0)
    ensures forall lo: nat, len: nat :: lo + len <= EHDR_SIZE ==> Undisturbed(Plans(x, zip, |x.hs|), lo, len)
  {
    PlansAvoid(x, zip, x.shoff, SHDR_SIZE * |x.hs|);
    PlansAvoid(x, zip, x.shoff, 0);
    PlansAreGood(x, zip, |x.hs|);
    OrderedBounds(Plans(x, zip, |x.hs|), EHDR_SIZE, |x.f|);
  }

  // ---------------------------------------------------------------- the compressed file

  function NewHeaders(x: Input, zip: Codec): (hs: seq<Shdr>)
    requires Valid(x)
    ensures |hs| == |x.hs|
  {
    PlansAreGood(x, zip, |x.hs|);
    var edits := Plans(x, zip, |x.hs|);
    seq(|x.hs|, i requires 0 <= i < |x.hs| =>
      ShiftIsBounded(edits, EHDR_SIZE, |x.f|, x.hs[i].offset);
      NewHeader(x, zip, edits, i))
  }

  function NewShoff(x: Input, zip: Codec): (r: nat)
    requires Valid(x)
  {
    PlansAreGood(x, zip, |x.hs|);
    ShiftIsBounded(Plans(x, zip, |x.hs|), EHDR_SIZE, |x.f|, x.shoff);
    x.shoff - ShiftAt(Plans(x, zip, |x.hs|), x.shoff)
  }

  lemma {:induction false} PlansAreSafe(x: Input, zip: Codec)
    requires Valid(x)
    ensures SafeEdits(x.f, x.shoff, |x.hs|, Plans(x, zip, |x.hs|))
    ensures NewShoff(x, zip) == Mapped(x.shoff, Plans(x, zip, |x.hs|), After)
    ensures DistinctPositions(Plans(x, zip, |x.hs|))
  {
    var edits := Plans(x, zip, |x.hs|);
    TableIsAvoided(x, zip);
    PlansAreGood(x, zip, |x.hs|);
    ShiftIsMap(edits, EHDR_SIZE, |x.f|, x.shoff, After);
    ReplacementsHaveDistinctPositions(edits, EHDR_SIZE, |x.f|);
  }

  function Result(x: Input, zip: Codec): seq<Byte>
    requires Valid(x)
  {
    PlansAreSafe(x, zip);
    Rewritten(x.f, x.shoff, NewHeaders(x, zip), Plans(x, zip, |x.hs|))
  }

  /** The new header of a section with bytes is the old one, moved by the splice's own map. */
  lemma {:induction false} HeaderMoves(x: Input, zip: Codec, i: nat, kind: MapKind)
    requires Valid(x) && i < |x.hs| && x.hs[i].HasBytes()
    ensures NewHeaders(x, zip)[i].offset == Mapped(x.hs[i].offset, Plans(x, zip, |x.hs|), kind)
    ensures NewHeaders(x, zip)[i].size == if Chosen(x, zip, i) then |Packed(x, zip, i)| else x.hs[i].size
  {
    PlansAreGood(x, zip, |x.hs|);
    SectionIsAvoided(x, zip, i);
    ShiftIsMap(Plans(x, zip, |x.hs|), EHDR_SIZE, |x.f|, x.hs[i].offset, kind);
  }

  /** The result is an image whose table is the rewritten one. */
  lemma {:induction false} ResultIsImage(x: Input, zip: Codec)
    requires Valid(x)
    ensures IsImage(Result(x, zip), NewShoff(x, zip), NewHeaders(x, zip))
  {
    PlansAreSafe(x, zip);
    RewrittenIsImage(x.f, x.shoff, NewHeaders(x, zip), Plans(x, zip, |x.hs|));
  }

  /** Every section that was not compressed keeps its bytes, at the offset its new header names. */
  lemma {:induction false} UntouchedSectionKept(x: Input, zip: Codec, i: nat)
    requires Valid(x) && i < |x.hs| && x.hs[i].HasBytes() && !Chosen(x, zip, i)
    ensures var h := NewHeaders(x, zip)[i];
            h == x.hs[i].(offset := h.offset) && Holds(Result(x, zip), h.offset, Payload(x, i))
  {
    PlansAreSafe(x, zip);
    SectionIsAvoided(x, zip, i);
    HeaderMoves(x, zip, i, After);
    RewrittenWindow(x.f, x.shoff, NewHeaders(x, zip), Plans(x, zip, |x.hs|), x.hs[i].offset, x.hs[i].size);
  }

  /** Every compressed section is a compression header and stream, exactly where its header says. */
  lemma {:induction false} CompressedSectionStored(x: Input, zip: Codec, i: nat)
    requires Valid(x) && i < |x.hs| && Chosen(x, zip, i)
    ensures var h := NewHeaders(x, zip)[i];
            && h.size == |Packed(x, zip, i)| < x.hs[i].size
            && HasFlag(h.flags, SHF_COMPRESSED) && h.addralign == 1
            && Holds(Result(x, zip), h.offset, Packed(x, zip, i))
  {
    hide Holds, Mapped, Plans, Rewritten;
    PlansAreSafe(x, zip);
    var k := PlanIndex(x, zip, i);
    HeaderMoves(x, zip, i, Before);
    RewrittenInsert(x.f, x.shoff, NewHeaders(x, zip), Plans(x, zip, |x.hs|), k);
    ChosenHeader(x, zip, i);
  }

  lemma {:induction false} PlanIndex(x: Input, zip: Codec, i: nat) returns (k: nat)
    requires Valid(x) && i < |x.hs| && Chosen(x, zip, i)
    ensures k < |Plans(x, zip, |x.hs|)| && Plans(x, zip, |x.hs|)[k] == PlanOf(x, zip, i)
  {
    PlanMembers(x, zip, |x.hs|);
    assert FromChosen(x, zip, |x.hs|, PlanOf(x, zip, i));
    k :| 0 <= k < |Plans(x, zip, |x.hs|)| && Plans(x, zip, |x.hs|)[k] == PlanOf(x, zip, i);
  }

  lemma {:induction false} ChosenHeader(x: Input, zip: Codec, i: nat)
    requires Valid(x) && i < |x.hs| && Chosen(x, zip, i)
    ensures var h := NewHeaders(x, zip)[i];
            HasFlag(h.flags, SHF_COMPRESSED) && h.addralign == 1
  {
    hide Valid, HasFlag, IsImage, Plans, Payload, Chosen;
    FlagIsAdded(x.hs[i].flags);
    ChosenIsPlain(x, zip, i);
  }

  lemma {:induction false} FlagIsAdded(flags: nat)
    ensures HasFlag(flags + SHF_COMPRESSED, SHF_COMPRESSED) <==> !HasFlag(flags, SHF_COMPRESSED)
  {
    assert (flags + 2048) / 2048 == flags / 2048 + 1;
  }

  lemma {:induction false} ChosenIsPlain(x: Input, zip: Codec, i: nat)
    requires Valid(x) && i < |x.hs| && Chosen(x, zip, i)
    ensures !HasFlag(x.hs[i].flags, SHF_COMPRESSED)
  {
  }

  /** What a reader of a compressed section does. */
  function ReadCompressed(s: seq<Byte>, unzip: Codec): Option<(seq<Byte>, nat, nat)> {
    if |s| < CHDR_SIZE || FromLe(s[0..4]) != ELFCOMPRESS_ZSTD then None
    else Some((unzip(s[CHDR_SIZE..]), FromLe(s[8..16]), FromLe(s[16..24])))
  }

  /** Reading a compressed section gives the old payload, its size and its alignment. */
  lemma {:induction false} CompressedSectionReadsBack(x: Input, zip: Codec, unzip: Codec, i: nat)
    requires Valid(x) && i < |x.hs| && Chosen(x, zip, i) && FieldsFit(x.hs[i])
    requires forall s :: unzip(zip(s)) == s
    ensures var h := NewHeaders(x, zip)[i];
            && h.End() <= |Result(x, zip)|
            && ReadCompressed(Result(x, zip)[h.offset..h.End()], unzip)
               == Some((Payload(x, i), x.hs[i].size, x.hs[i].addralign))
  {
    CompressedSectionStored(x, zip, i);
    HoldsIsSlice(Result(x, zip), NewHeaders(x, zip)[i].offset, Packed(x, zip, i));
    ChdrReadsBack(x.hs[i].size, x.hs[i].addralign, zip(Payload(x, i)));
  }

  lemma {:induction false} ChdrReadsBack(size: nat, addralign: nat, z: seq<Byte>)
    requires size < 0x1_0000_0000_0000_0000 && addralign < 0x1_0000_0000_0000_0000
    ensures var s := Chdr(size, addralign) + z;
            && FromLe(s[0..4]) == ELFCOMPRESS_ZSTD && s[CHDR_SIZE..] == z
            && FromLe(s[8..16]) == size && FromLe(s[16..24]) == addralign
  {
    var s := Chdr(size, addralign) + z;
    assert s[0..4] == ToLe(ELFCOMPRESS_ZSTD, 4);
    assert s[8..16] == ToLe(size, 8) && s[16..24] == ToLe(addralign, 8);
    FromToLe32(ELFCOMPRESS_ZSTD);
    FromToLe64(size);
    FromToLe64(addralign);
  }

  /** The total saved by a list of plans. */
  function Savings(edits: seq<Edit>): int {
    if edits == [] then 0 else edits[0].delete - |edits[0].insert| + Savings(edits[1..])
  }

  lemma {:induction false} SavingsAreNet(edits: seq<Edit>)
    ensures Savings(edits) == -Net(edits)
  {
    if edits != [] { SavingsAreNet(edits[1..]); }
  }

  lemma {:induction false} SavingsArePositive(edits: seq<Edit>)
    requires forall k :: 0 <= k < |edits| ==> |edits[k].insert| < edits[k].delete
    ensures |edits| <= Savings(edits)
  {
    if edits != [] { SavingsArePositive(edits[1..]); }
  }

  /** The file shrinks by exactly the sum of savings, at least one byte for every plan. */
  lemma {:induction false} ResultShrinks(x: Input, zip: Codec)
    requires Valid(x)
    ensures |Result(x, zip)| == |x.f| - Savings(Plans(x, zip, |x.hs|))
    ensures |Plans(x, zip, |x.hs|)| <= Savings(Plans(x, zip, |x.hs|))
  {
    var edits := Plans(x, zip, |x.hs|);
    PlansAreSafe(x, zip);
    PlansAreGood(x, zip, |x.hs|);
    WeakerFrom(edits, EHDR_SIZE, |x.f|);
    SplicedLength(Reheaded(x.f, x.shoff, Mapped(x.shoff, edits, After), NewHeaders(x, zip)), edits, 0);
    SavingsAreNet(edits);
    SavingsArePositive(edits);
  }

  // ---------------------------------------------------------------- the pass

  lemma {:induction false} NoneSorted(x: Input, zip: Codec)
    requires Valid(x)
    ensures Sorted([]) == Plans(x, zip, 0)
  {
  }

  lemma {:induction false} PlansStep(x: Input, zip: Codec, i: nat)
    requires Valid(x) && i < |x.hs|
    ensures Plans(x, zip, i + 1)
            == if Chosen(x, zip, i) then Insert(PlanOf(x, zip, i), Plans(x, zip, i)) else Plans(x, zip, i)
  {
  }

  lemma {:induction false} SortedMore(planned: seq<Edit>, e: Edit)
    ensures Sorted(planned + [e]) == Insert(e, Sorted(planned))
  {
    assert (planned + [e])[..|planned|] == planned;
  }

  /** Plan selection: candidates in header order, dropped where compression does not help, then sorted. */
  method CollectPlans(x: Input, zip: Codec) returns (plans: seq<Edit>)
    requires Valid(x)
    ensures plans == Plans(x, zip, |x.hs|)
  {
    hide Plans, Sorted, Insert, IsImage, Chdr;
    var planned: seq<Edit> := [];
    NoneSorted(x, zip);
    for i := 0 to |x.hs|
      invariant Sorted(planned) == Plans(x, zip, i)
    {
      PlansStep(x, zip, i);
      if Eligible(x, i) {
        var z := zip(x.f[x.hs[i].offset..x.hs[i].offset + x.hs[i].size]);
        if CHDR_SIZE + |z| < x.hs[i].size {
          var e := Edit(x.hs[i].offset, x.hs[i].size, Chdr(x.hs[i].size, x.hs[i].addralign) + z);
          SortedMore(planned, e);
          planned := planned + [e];
        }
      }
    }
    plans := Sorted(planned);
  }

  /** The rewrite loop, which copies the gap before each plan only when there is one. */
  method SplicePlans(f: seq<Byte>, plans: seq<Edit>) returns (out: seq<Byte>)
    requires Ordered(plans, 0, |f|)
    ensures out == Spliced(f, plans, 0)
  {
    hide Spliced;
    out := [];
    var cursor: nat := 0;
    ghost var whole := Spliced(f, plans, 0);
    assert plans[0..] == plans && out + whole == whole;
    for k := 0 to |plans|
      invariant Ordered(plans[k..], cursor, |f|)
      invariant whole == out + Spliced(f, plans[k..], cursor)
    {
      StepSplices(f, plans, k, cursor, out);
      out := CopyGap(out, f, cursor, plans[k].position);
      out := out + plans[k].insert;
      cursor := plans[k].End();
    }
    assert plans[|plans|..] == [];
    OrderedBounds([], cursor, |f|);
    SplicedNone(f, cursor);
    out := CopyGap(out, f, cursor, |f|);
  }

  /** Copies `f[from..to]` when there is anything to copy. */
  method CopyGap(out: seq<Byte>, f: seq<Byte>, from: nat, to: nat) returns (r: seq<Byte>)
    requires from <= to <= |f|
    ensures r == out + f[from..to]
  {
    r := out;
    if from < to {
      r := out + f[from..to];
    }
  }

  method ShiftOf(plans: seq<Edit>, at: nat) returns (shift: int)
    ensures shift == ShiftAt(plans, at)
  {
    shift := 0;
    assert plans[0..] == plans;
    for k := 0 to |plans|
      invariant ShiftAt(plans, at) == shift + ShiftAt(plans[k..], at)
    {
      assert plans[k..][0] == plans[k] && plans[k..][1..] == plans[k + 1..];
      if plans[k].End() <= at {
        shift := shift + plans[k].delete - |plans[k].insert|;
      }
    }
  }

  /** `compress_zstd_in_buffer`: nothing to do, or the rewritten file. */
  method CompressInBuffer(x: Input, zip: Codec) returns (r: Option<seq<Byte>>)
    requires Valid(x)
    ensures r.None? <==> forall i :: 0 <= i < |x.hs| ==> !Chosen(x, zip, i)
    ensures r.Some? ==> r.value == Result(x, zip) && |r.value| < |x.f|
  {
    var plans := CollectPlans(x, zip);
    NoPlans(x, zip);
    if plans == [] {
      return None;
    }
    ResultShrinks(x, zip);
    PlansAreSafe(x, zip);
    WeakerFrom(plans, EHDR_SIZE, |x.f|);
    var out := SplicePlans(x.f, plans);
    var shift := ShiftOf(plans, x.shoff);
    var shoff := x.shoff - shift;
    ReheadCommutes(x.f, x.shoff, NewHeaders(x, zip), plans, shoff);
    out := WriteTable(out, shoff, NewHeaders(x, zip));
    return Some(Patch(out, 40, ToLe(shoff, 8)));
  }

  lemma {:induction false} NoPlans(x: Input, zip: Codec)
    requires Valid(x)
    ensures Plans(x, zip, |x.hs|) == [] <==> forall i :: 0 <= i < |x.hs| ==> !Chosen(x, zip, i)
  {
    PlanMembers(x, zip, |x.hs|);
    var edits := Plans(x, zip, |x.hs|);
    if edits != [] {
      assert FromChosen(x, zip, |x.hs|, edits[0]);
    }
    forall i | 0 <= i < |x.hs| && Chosen(x, zip, i)
      ensures PlanOf(x, zip, i) in edits
    {
      assert FromChosen(x, zip, |x.hs|, PlanOf(x, zip, i));
    }
  }

  // ---------------------------------------------------------------- a file that is compressed

  /** A codec that inverts: 256 zeros become nothing, anything else gets a mark. */
  function Zeros(): seq<Byte> { seq(256, _ => 0) }

  function Zip(s: seq<Byte>): seq<Byte> { if s == Zeros() then [] else [1] + s }

  function Unzip(s: seq<Byte>): seq<Byte> { if s == [] then Zeros() else s[1..] }

  function Small(): Input {
    var hs := [Shdr(0, SHT_NULL, 0, 0, 0, 0, 0, 0, 0, 0), Shdr(0, SHT_PROGBITS, 0, 0, 64, 256, 0, 0, 1, 0)];
    Input(FileOf(Zeros(), hs), 320, hs, [false, true])
  }

  /** The preconditions of the main results are met by a concrete file and codec, with a section that is compressed. */
  lemma {:induction false} SmallIsCompressed()
    ensures Valid(Small()) && Chosen(Small(), Zip, 1) && FieldsFit(Small().hs[1])
    ensures forall s :: Unzip(Zip(s)) == s
  {
    hide FileOf, IsImage;
    var x := Small();
    FileIsImage(Zeros(), x.hs);
    HoldsIsSlice(x.f, 64, Zeros());
    assert Payload(x, 1) == Zeros();
    forall s: seq<Byte> ensures Unzip(Zip(s)) == s {
      assert s != Zeros() ==> ([1] + s)[1..] == s;
    }
  }
}
