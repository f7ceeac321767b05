/** `apply_rewrite`: splicing the new `.debug_line` and `.debug_line_str` into the file. */
module LineRewrite {
  import opened Bytes
  import opened Splice
  import opened ElfImage
  import opened ElfRewrite
  import opened Fields
  import LineV5

  /** `.debug_line_str` and its terminator. */
  const NAME: seq<Byte> := [46, 100, 101, 98, 117, 103, 95, 108, 105, 110, 101, 95, 115, 116, 114, 0]

  /** The file, its parsed headers, three section indexes, the `DW_AT_stmt_list` fields with their new
      values (positions in the file), and the new section contents. */
  datatype Input = Input(f: seq<Byte>, shoff: nat, hs: seq<Shdr>, info: nat, line: nat, names: nat,
                         stmts: seq<Field>, newLine: seq<Byte>, newStr: seq<Byte>)
  {
    function Info(): Shdr requires info < |hs| { hs[info] }
    function Line(): Shdr requires line < |hs| { hs[line] }
    function Names(): Shdr requires names < |hs| { hs[names] }
  }

  predicate Valid(x: Input) {
    && IsImage(x.f, x.shoff, x.hs)
    && WellLaidOut(x.f, x.shoff, x.hs)
    && x.info < |x.hs| && x.line < |x.hs| && x.names < |x.hs|
    && x.info != x.line && x.info != x.names && x.line != x.names
    && x.Info().HasBytes() && x.Line().HasBytes() && x.Names().HasBytes()
    && 0 < x.Line().size && 0 < x.Names().size
    && FieldsIn(x.stmts, x.Info().offset, x.Info().End())
    && forall i :: 0 <= i < |x.hs| ==> x.hs[i].offset <= x.Line().offset || x.Line().End() <= x.hs[i].offset
  }

  // ---------------------------------------------------------------- the three edits

  function Replace(x: Input): Edit requires Valid(x) { Edit(x.Line().offset, x.Line().size, x.newLine) }
  function AddStrings(x: Input): Edit requires Valid(x) { Edit(x.Line().End(), 0, x.newStr) }
  function AddName(x: Input): Edit requires Valid(x) { Edit(x.Names().End(), 0, NAME) }

  function Edits(x: Input): seq<Edit>
    requires Valid(x)
  {
    Sorted([Replace(x), AddStrings(x), AddName(x)])
  }

  /** Is `.shstrtab` before `.debug_line` in the file? */
  predicate NamesFirst(x: Input) requires Valid(x) { x.Names().End() <= x.Line().offset }

  lemma {:induction false} SortedThree(a: Edit, b: Edit, c: Edit)
    requires a.position < b.position
    ensures c.position < a.position ==> Sorted([a, b, c]) == [c, a, b]
    ensures a.position <= c.position < b.position ==> Sorted([a, b, c]) == [a, c, b]
    ensures b.position <= c.position ==> Sorted([a, b, c]) == [a, b, c]
  {
    assert [a, b, c][..2] == [a, b] && [a, b][..1] == [a] && [a][..0] == [];
    assert Sorted([a]) == Insert(a, Sorted([])) == [a];
    assert [a][1..] == [];
    assert Insert(b, []) == [b];
    assert Sorted([a, b]) == Insert(b, [a]) == [a, b];
    assert Sorted([a, b, c]) == Insert(c, [a, b]);
    assert [a, b][1..] == [b] && [b][1..] == [];
    assert Insert(c, []) == [c];
    assert Insert(c, [b]) == (if c.position < b.position then [c] + [b] else [b] + [c]);
    assert [a] + ([c] + [b]) == [a, c, b] && [a] + ([b] + [c]) == [a, b, c];
  }

  lemma {:induction false} EditsAre(x: Input)
    requires Valid(x)
    ensures x.Names().End() < x.Line().offset ==> Edits(x) == [AddName(x), Replace(x), AddStrings(x)]
    ensures x.Names().End() == x.Line().offset ==> Edits(x) == [Replace(x), AddName(x), AddStrings(x)]
    ensures !NamesFirst(x) ==>
              Edits(x) == [Replace(x), AddStrings(x), AddName(x)] && x.Line().End() < x.Names().End()
  {
    SortedThree(Replace(x), AddStrings(x), AddName(x));
    hide Sorted, IsImage;
  }

  lemma {:induction false} OrderedThree(a: Edit, b: Edit, c: Edit, from: nat, size: nat)
    ensures Ordered([a, b, c], from, size)
       <==> from <= a.position && a.End() <= b.position && b.End() <= c.position && c.End() <= size
  {
    assert [a, b, c][1..] == [b, c] && [b, c][1..] == [c] && [c][1..] == [];
    assert Ordered([c], b.End(), size) <==> b.End() <= c.position && Ordered([], c.End(), size);
    assert Ordered([b, c], a.End(), size) <==> a.End() <= b.position && Ordered([c], b.End(), size);
  }

  /** The pass succeeds exactly when `.shstrtab` does not end where `.debug_line` starts: there the
      appended name and the replaced section are reported as overlapping edits. */
  lemma {:induction false} SucceedsExactly(x: Input)
    requires Valid(x)
    ensures Ordered(Edits(x), 0, |x.f|) <==> x.Names().End() != x.Line().offset
    ensures Ordered(Edits(x), 0, |x.f|) ==> Ordered(Edits(x), EHDR_SIZE, |x.f|) && DistinctPositions(Edits(x))
  {
    EditsAre(x);
    hide Sorted, IsImage, Ordered, Edits, FieldsIn;
    var a, b, c := Replace(x), AddStrings(x), AddName(x);
    if NamesFirst(x) {
      if x.Names().End() == x.Line().offset {
        OrderedThree(a, c, b, 0, |x.f|);
      } else {
        OrderedThree(c, a, b, 0, |x.f|);
        OrderedThree(c, a, b, EHDR_SIZE, |x.f|);
      }
    } else {
      OrderedThree(a, b, c, 0, |x.f|);
      OrderedThree(a, b, c, EHDR_SIZE, |x.f|);
    }
  }

  // ---------------------------------------------------------------- the rewritten file

  ghost predicate Succeeds(x: Input) requires Valid(x) { Ordered(Edits(x), 0, |x.f|) }

  /** The file with every `DW_AT_stmt_list` patched. */
  function Patched(x: Input): (g: seq<Byte>)
    requires Valid(x)
    ensures |g| == |x.f|
  {
    PatchAll(x.f, x.stmts, x.Info().offset, x.Info().End())
  }

  /** No header offset lies strictly inside the replaced section, so none maps below zero. */
  lemma {:induction false} OffsetsMapUp(x: Input, p: nat, kind: MapKind)
    requires Valid(x) && Succeeds(x)
    requires p <= x.Line().offset || x.Line().End() <= p
    ensures Undisturbed(Edits(x), p, 0)
    ensures 0 <= Mapped(p, Edits(x), kind) && (EHDR_SIZE <= p ==> EHDR_SIZE <= Mapped(p, Edits(x), kind))
  {
    SucceedsExactly(x);
    EditsAre(x);
    hide Sorted, IsImage, FieldsIn, Ordered, Edits;
    MappedPast(Edits(x), 0, p, |x.f|, kind);
    if EHDR_SIZE <= p {
      MappedPast(Edits(x), EHDR_SIZE, p, |x.f|, kind);
    }
  }

  function NewOffset(x: Input, p: nat, kind: MapKind): nat
    requires Valid(x) && Succeeds(x)
    requires p <= x.Line().offset || x.Line().End() <= p
  {
    OffsetsMapUp(x, p, kind);
    Mapped(p, Edits(x), kind)
  }

  function NewHeader(x: Input, i: nat): Shdr
    requires Valid(x) && Succeeds(x) && i < |x.hs|
  {
    var h := x.hs[i];
    if i == x.line then h.(size := |x.newLine|, offset := NewOffset(x, h.offset, Before))
    else if i == x.names then h.(offset := NewOffset(x, h.offset, Before), size := h.size + |NAME|)
    else if h.offset > 0 then h.(offset := NewOffset(x, h.offset, After))
    else h
  }

  function NewHeaders(x: Input): (hs: seq<Shdr>)
    requires Valid(x) && Succeeds(x)
    ensures |hs| == |x.hs| + 1
  {
    seq(|x.hs|, i requires 0 <= i < |x.hs| => NewHeader(x, i))
    + [Shdr(x.Names().size, SHT_PROGBITS, 0x30, 0, NewOffset(x, x.Line().End(), Before), |x.newStr|, 0, 0, 1, 1)]
  }

  function Body(x: Input): seq<Byte>
    requires Valid(x) && Succeeds(x)
  {
    Spliced(Patched(x), Edits(x), 0)
  }

  /** Bytes before the first edit stay in place. */
  lemma {:induction false} PrefixStays(x: Input, p: nat, len: nat)
    requires Valid(x) && Succeeds(x)
    requires p + len <= x.Line().offset && p + len <= x.Names().End()
    ensures p + len <= |x.f| && Holds(Body(x), p, Patched(x)[p..p + len])
  {
    SucceedsExactly(x);
    EditsAre(x);
    hide Sorted, Edits, FieldsIn, PatchAll, Holds, Spliced, IsImage;
    WindowStays(Patched(x), Edits(x), 0, p, len);
  }

  lemma {:induction false} BodyIsLong(x: Input)
    requires Valid(x) && Succeeds(x)
    ensures EHDR_SIZE <= |Body(x)|
  {
    hide Edits, FieldsIn, PatchAll, Holds, Spliced, IsImage, Body;
    PrefixStays(x, 0, EHDR_SIZE);
    HoldsFits(Body(x), 0, Patched(x)[0..0 + EHDR_SIZE]);
  }

  /** A body followed by a table of `n` headers, with the two header fields that name the table. */
  function Headed(body: seq<Byte>, table: seq<Byte>, n: nat): (s: seq<Byte>)
    requires EHDR_SIZE <= |body|
  {
    Patch(Patch(body + table, 40, ToLe(|body|, 8)), 60, ToLe(n, 2))
  }

  lemma {:induction false} HeadedHolds(body: seq<Byte>, table: seq<Byte>, n: nat, at: nat, w: seq<Byte>)
    requires EHDR_SIZE <= |body| && Holds(body, at, w)
    requires (at + |w| <= 40 || 48 <= at) && (at + |w| <= 60 || 62 <= at)
    ensures Holds(Headed(body, table, n), at, w)
  {
    hide Holds, ToLe, Patch;
    HoldsInHead(body, table, at, w);
    HoldsFits(body + table, at, w);
    HoldsAfterPatch(body + table, at, w, 40, ToLe(|body|, 8));
    HoldsAfterPatch(Patch(body + table, 40, ToLe(|body|, 8)), at, w, 60, ToLe(n, 2));
  }

  lemma {:induction false} HeadedIsImage(body: seq<Byte>, hs: seq<Shdr>)
    requires EHDR_SIZE <= |body|
    ensures IsImage(Headed(body, Table(hs), |hs|), |body|, hs)
  {
    hide ToLe, Table, Patch, Holds;
    var t, w40, w60 := Table(hs), ToLe(|body|, 8), ToLe(|hs|, 2);
    assert Holds(t, 0, t) by { WholeIsHeld(t); }
    HoldsInTail(body, t, 0, t);
    HoldsAfterPatch(body + t, |body|, t, 40, w40);
    var mid := Patch(body + t, 40, w40);
    HoldsAfterPatch(mid, |body|, t, 60, w60);
    HoldsAfterPatch(mid, 40, w40, 60, w60);
  }

  function Result(x: Input): seq<Byte>
    requires Valid(x) && Succeeds(x)
  {
    BodyIsLong(x);
    Headed(Body(x), Table(NewHeaders(x)), |NewHeaders(x)|)
  }

  /** The result is an image: its header names the new table, one entry longer, at the end of the file. */
  lemma {:induction false} ResultIsImage(x: Input)
    requires Valid(x) && Succeeds(x)
    ensures IsImage(Result(x), |Body(x)|, NewHeaders(x))
  {
    hide *;
    BodyIsLong(x);
    HeadedIsImage(Body(x), NewHeaders(x));
    ResultIs(x);
  }

  lemma {:induction false} ResultIs(x: Input)
    requires Valid(x) && Succeeds(x)
    ensures EHDR_SIZE <= |Body(x)| && Result(x) == Headed(Body(x), Table(NewHeaders(x)), |NewHeaders(x)|)
  {
    hide Headed, Body, NewHeaders, Table;
    BodyIsLong(x);
  }

  /** What the body holds past the two patched fields, the result holds too. */
  lemma {:induction false} ResultHolds(x: Input, at: nat, w: seq<Byte>)
    requires Valid(x) && Succeeds(x) && Holds(Body(x), at, w)
    requires (at + |w| <= 40 || 48 <= at) && (at + |w| <= 60 || 62 <= at)
    ensures Holds(Result(x), at, w)
  {
    hide *;
    ResultIs(x);
    HeadedHolds(Body(x), Table(NewHeaders(x)), |NewHeaders(x)|, at, w);
  }

  /** Apart from the patched fields and the two header fields that name the table, every byte before the first edit stays
      in place. */
  lemma {:induction false} LoadedBytesStay(x: Input, p: nat, len: nat)
    requires Valid(x) && Succeeds(x)
    requires p + len <= x.Line().offset && p + len <= x.Names().End()
    requires (p + len <= 40 || 48 <= p) && (p + len <= 60 || 62 <= p)
    requires forall k :: 0 <= k < |x.stmts| ==> p + len <= x.stmts[k].at || x.stmts[k].at + 4 <= p
    ensures p + len <= |x.f| && Holds(Result(x), p, x.f[p..p + len])
  {
    hide Body, Result, Edits, Holds, PatchAll, IsImage;
    PrefixStays(x, p, len);
    PatchAllElsewhere(x.f, x.stmts, x.Info().offset, x.Info().End(), p, len);
    ResultHolds(x, p, Patched(x)[p..p + len]);
  }

  // ---------------------------------------------------------------- sections

  /** Every other section's moved header names its old (patched) bytes. */
  lemma {:induction false} OtherSectionKept(x: Input, i: nat)
    requires Valid(x) && Succeeds(x) && i < |x.hs| && i != x.line && i != x.names && x.hs[i].HasBytes()
    ensures NewHeaders(x)[i] == x.hs[i].(offset := NewHeaders(x)[i].offset)
    ensures Holds(Result(x), NewHeaders(x)[i].offset, Patched(x)[x.hs[i].offset..x.hs[i].End()])
    ensures i != x.info ==> Holds(Result(x), NewHeaders(x)[i].offset, x.f[x.hs[i].offset..x.hs[i].End()])
  {
    SectionUndisturbed(x, i);
    OffsetsMapUp(x, x.hs[i].offset, After);
    hide Edits, Holds, PatchAll, IsImage, Body, Result, Ordered, Mapped, Undisturbed;
    BodyWindow(x, x.hs[i].offset, x.hs[i].size);
    ResultHolds(x, NewHeaders(x)[i].offset, Patched(x)[x.hs[i].offset..x.hs[i].End()]);
    if i != x.info {
      SectionUnpatched(x, i);
    }
  }

  /** The patched fields are all in `.debug_info`. */
  lemma {:induction false} SectionUnpatched(x: Input, i: nat)
    requires Valid(x) && i < |x.hs| && i != x.info && x.hs[i].HasBytes()
    ensures x.hs[i].End() <= |x.f|
    ensures Patched(x)[x.hs[i].offset..x.hs[i].End()] == x.f[x.hs[i].offset..x.hs[i].End()]
  {
    hide PatchAll, IsImage;
    FieldsInBounds(x.stmts, x.Info().offset, x.Info().End());
    PatchAllElsewhere(x.f, x.stmts, x.Info().offset, x.Info().End(), x.hs[i].offset, x.hs[i].size);
  }

  lemma {:induction false} SectionUndisturbed(x: Input, i: nat)
    requires Valid(x) && Succeeds(x) && i < |x.hs| && i != x.line && x.hs[i].HasBytes()
    ensures Undisturbed(Edits(x), x.hs[i].offset, x.hs[i].size)
  {
    SucceedsExactly(x);
    EditsAre(x);
    hide Edits, Sorted, IsImage, FieldsIn, Ordered;
  }

  lemma {:induction false} BodyWindow(x: Input, p: nat, len: nat)
    requires Valid(x) && Succeeds(x) && p + len <= |x.f| && Undisturbed(Edits(x), p, len)
    ensures Holds(Body(x), Mapped(p, Edits(x), After), Patched(x)[p..p + len])
  {
    hide Edits, Holds, PatchAll, IsImage, Mapped, Undisturbed, Spliced, Valid;
    WindowLands(Patched(x), Edits(x), 0, p, len);
  }

  lemma {:induction false} BodyInsert(x: Input, e: Edit)
    requires Valid(x) && Succeeds(x) && e in [Replace(x), AddStrings(x), AddName(x)]
    ensures Holds(Body(x), Mapped(e.position, Edits(x), Before), e.insert)
  {
    hide Holds, PatchAll, IsImage, Mapped, Spliced, Valid, DistinctPositions, Edits, Sorted, Ordered;
    SucceedsExactly(x);
    var k := EditIndex(x, e);
    InsertLands(Patched(x), Edits(x), 0, k);
  }

  lemma {:induction false} EditIndex(x: Input, e: Edit) returns (k: nat)
    requires Valid(x) && e in [Replace(x), AddStrings(x), AddName(x)]
    ensures k < |Edits(x)| && Edits(x)[k] == e
  {
    hide Valid, Sorted;
    SortedMembers([Replace(x), AddStrings(x), AddName(x)]);
    k :| 0 <= k < |Edits(x)| && Edits(x)[k] == e;
  }

  /** The `.debug_line` header names exactly the new line programs. */
  lemma {:induction false} LineReplaced(x: Input)
    requires Valid(x) && Succeeds(x)
    ensures var h := NewHeaders(x)[x.line];
            h.size == |x.newLine| && Holds(Result(x), h.offset, x.newLine)
  {
    OffsetsMapUp(x, x.Line().offset, Before);
    BodyInsert(x, Replace(x));
    hide Edits, Holds, PatchAll, IsImage, Mapped, Body, Result;
    ResultHolds(x, NewHeaders(x)[x.line].offset, x.newLine);
  }

  /** The appended header names exactly the new strings. */
  lemma {:induction false} StringsAdded(x: Input)
    requires Valid(x) && Succeeds(x)
    ensures var h := NewHeaders(x)[|x.hs|];
            h.size == |x.newStr| && h.name == x.Names().size && Holds(Result(x), h.offset, x.newStr)
  {
    OffsetsMapUp(x, x.Line().End(), Before);
    BodyInsert(x, AddStrings(x));
    hide Edits, Holds, PatchAll, IsImage, Mapped, Body, Result;
    ResultHolds(x, NewHeaders(x)[|x.hs|].offset, x.newStr);
  }

  // ---------------------------------------------------------------- .shstrtab

  function Step(p: nat, e: Edit, kind: MapKind, rest: int): int {
    if e.position < p then |e.insert| - e.delete + rest
    else if e.position == p && e.delete == 0 && kind == After then |e.insert| + rest
    else 0
  }

  lemma {:induction false} DeltaOfThree(p: nat, a: Edit, b: Edit, c: Edit, kind: MapKind)
    ensures Delta(p, [a, b, c], kind) == Step(p, a, kind, Step(p, b, kind, Step(p, c, kind, 0)))
  {
    assert [a, b, c][1..] == [b, c] && [b, c][1..] == [c] && [c][1..] == [];
    assert Delta(p, [c], kind) == Step(p, c, kind, Delta(p, [], kind));
    assert Delta(p, [b, c], kind) == Step(p, b, kind, Delta(p, [c], kind));
  }

  /** How the start and the end of `.shstrtab` map. */
  lemma {:induction false} NamesMap(x: Input)
    requires Valid(x) && Succeeds(x)
    ensures Mapped(x.Names().End(), Edits(x), Before) == Mapped(x.Names().offset, Edits(x), After) + x.Names().size
    ensures Mapped(x.Names().offset, Edits(x), After) - Mapped(x.Names().offset, Edits(x), Before)
         == if x.Line().End() == x.Names().offset then |x.newStr| else 0
  {
    SucceedsExactly(x);
    EditsAre(x);
    hide Edits, Sorted, IsImage, FieldsIn, Ordered, Delta;
    var a, b, c := Replace(x), AddStrings(x), AddName(x);
    var p, q := x.Names().offset, x.Names().End();
    if NamesFirst(x) {
      DeltaOfThree(p, c, a, b, After);
      DeltaOfThree(p, c, a, b, Before);
      DeltaOfThree(q, c, a, b, Before);
    } else {
      DeltaOfThree(p, a, b, c, After);
      DeltaOfThree(p, a, b, c, Before);
      DeltaOfThree(q, a, b, c, Before);
    }
  }

  function NewNames(x: Input): seq<Byte>
    requires Valid(x)
  {
    x.f[x.Names().offset..x.Names().End()] + NAME
  }

  /** The old names and the appended one are stored, adjacent, where the old start maps with `After`. */
  lemma {:induction false} NamesStored(x: Input)
    requires Valid(x) && Succeeds(x)
    ensures 0 <= Mapped(x.Names().offset, Edits(x), After)
    ensures Holds(Result(x), Mapped(x.Names().offset, Edits(x), After), NewNames(x))
  {
    var p, n := x.Names().offset, x.Names().size;
    NamesPlaced(x);
    SectionUnpatched(x, x.names);
    hide *;
    var at := Mapped(p, Edits(x), After);
    JoinNames(x, at);
  }

  lemma {:induction false} JoinNames(x: Input, at: int)
    requires Valid(x) && Succeeds(x)
    requires var p, n := x.Names().offset, x.Names().size;
             64 <= at && p + n <= |x.f| && Holds(Body(x), at, x.f[p..p + n]) && Holds(Body(x), at + n, NAME)
    ensures Holds(Result(x), at, NewNames(x))
  {
    hide Edits, Holds, PatchAll, IsImage, Body, Result, Ordered, Mapped, Undisturbed, FieldsIn;
    var p, n := x.Names().offset, x.Names().size;
    HoldsJoin(Body(x), at, x.f[p..p + n], NAME);
    ResultHolds(x, at, NewNames(x));
  }

  /** The body holds the old names where their start maps, and the new name right after them. */
  lemma {:induction false} NamesPlaced(x: Input)
    requires Valid(x) && Succeeds(x)
    ensures var p, n, at := x.Names().offset, x.Names().size, Mapped(x.Names().offset, Edits(x), After);
            64 <= at && p + n <= |x.f| && Holds(Body(x), at, Patched(x)[p..p + n]) && Holds(Body(x), at + n, NAME)
  {
    hide Edits, Holds, PatchAll, IsImage, Body, Result, Ordered, Mapped, Undisturbed, FieldsIn;
    var p, n := x.Names().offset, x.Names().size;
    SectionUndisturbed(x, x.names);
    OffsetsMapUp(x, p, After);
    BodyInsert(x, AddName(x));
    NamesMap(x);
    BodyWindow(x, p, n);
  }

  /** The `.shstrtab` header has the right size always, and the right offset exactly when no non-empty
      insert falls on the section's start, that is unless `.debug_line` ends where `.shstrtab` begins. */
  lemma {:induction false} NamesHeaderExact(x: Input)
    requires Valid(x) && Succeeds(x)
    ensures var h := NewHeaders(x)[x.names];
            && h.size == |NewNames(x)|
            && (h.offset == Mapped(x.Names().offset, Edits(x), After)
                <==> (x.Line().End() != x.Names().offset || x.newStr == []))
            && (x.Line().End() != x.Names().offset ==> Holds(Result(x), h.offset, NewNames(x)))
  {
    NamesMap(x);
    NamesStored(x);
    hide Edits, Holds, PatchAll, IsImage, Body, Result, Ordered, Mapped, FieldsIn;
  }

  // ---------------------------------------------------------------- from a unit to its line program

  /** Where the k-th patched field is in the new file. */
  function NewField(x: Input, k: nat): int
    requires Valid(x) && Succeeds(x) && k < |x.stmts|
  {
    NewHeaders(x)[x.info].offset + (x.stmts[k].at - x.Info().offset)
  }

  lemma {:induction false} FieldIsPatched(x: Input, k: nat)
    requires Valid(x) && Succeeds(x) && k < |x.stmts|
    ensures Holds(Result(x), NewField(x, k), ToLe(x.stmts[k].value, 4))
  {
    hide *;
    var lo, hi, a := InfoField(x, k);
    IndexesIn(x);
    OtherSectionKept(x, x.info);
    HoldsPart(Result(x), NewHeaders(x)[x.info].offset, Patched(x)[lo..hi], a, a + 4);
    SliceOfSlice(Patched(x), lo, hi, a, a + 4);
  }

  lemma {:induction false} InfoField(x: Input, k: nat) returns (lo: nat, hi: nat, a: nat)
    requires Valid(x) && Succeeds(x) && k < |x.stmts|
    ensures x.info < |x.hs| && lo == x.hs[x.info].offset && hi == x.hs[x.info].End() && x.hs[x.info].HasBytes()
    ensures x.info != x.line && x.info != x.names
    ensures lo + a == x.stmts[k].at && a + 4 <= hi - lo && hi <= |x.f|
    ensures NewField(x, k) == NewHeaders(x)[x.info].offset + a
    ensures Patched(x)[lo + a..lo + a + 4] == ToLe(x.stmts[k].value, 4)
  {
    hide Edits, IsImage, NewHeaders, Ordered, PatchAll, ToLe;
    FieldsInBounds(x.stmts, x.Info().offset, x.Info().End());
    PatchAllAtField(x.f, x.stmts, x.Info().offset, x.Info().End(), k);
    lo, hi := x.Info().offset, x.Info().End();
    a := x.stmts[k].at - lo;
  }

  lemma {:induction false} IndexesIn(x: Input)
    requires Valid(x)
    ensures x.info < |x.hs| && x.line < |x.hs| && x.names < |x.hs|
  {
  }

  /** The rewrite carries the emitted units: new sections and patched fields come from `cus`. */
  predicate Carries(x: Input, cus: seq<LineV5.Cu>) {
    && x.newLine == LineV5.LineAfter(cus, |cus|) && x.newStr == LineV5.PoolAfter(cus, |cus|).bytes
    && |x.stmts| == |cus| && forall k :: 0 <= k < |cus| ==> x.stmts[k].value == |LineV5.LineAfter(cus, k)|
  }

  /** End to end: in the new file, a unit's `DW_AT_stmt_list` leads to that unit's own directories, files
      and program bytes, read through the sections that the new headers name. */
  lemma {:induction false} UnitFindsItsProgram(x: Input, cus: seq<LineV5.Cu>, k: nat)
    requires Valid(x) && Succeeds(x) && Carries(x, cus) && k < |cus| && LineV5.ValidCu(cus[k])
    requires |x.newLine| < 0xffff_fff0 && |x.newStr| <= 0x1_0000_0000
    ensures 0 <= NewField(x, k) && NewField(x, k) + 4 <= |Result(x)|
    ensures var line, strs := NewHeaders(x)[x.line], NewHeaders(x)[|x.hs|];
            && line.End() <= |Result(x)| && strs.End() <= |Result(x)|
            && LineV5.DecodeUnit(Result(x)[line.offset..line.End()],
                                 FromLe(Result(x)[NewField(x, k)..NewField(x, k) + 4]),
                                 Result(x)[strs.offset..strs.End()])
               == Some(LineV5.Expected(cus[k]))
  {
    hide *;
    IndexesIn(x);
    CarriedUnit(x, cus, k);
    FieldIsPatched(x, k);
    LineReplaced(x);
    StringsAdded(x);
    HoldsIsSlice(Result(x), NewField(x, k), ToLe(x.stmts[k].value, 4));
    HoldsIsSlice(Result(x), NewHeaders(x)[x.line].offset, x.newLine);
    HoldsIsSlice(Result(x), NewHeaders(x)[|x.hs|].offset, x.newStr);
    HoldsFits(Result(x), NewField(x, k), ToLe(x.stmts[k].value, 4));
    HoldsFits(Result(x), NewHeaders(x)[x.line].offset, x.newLine);
    HoldsFits(Result(x), NewHeaders(x)[|x.hs|].offset, x.newStr);
    HeaderEnd(NewHeaders(x)[x.line]);
    HeaderEnd(NewHeaders(x)[|x.hs|]);
  }

  lemma {:induction false} HeaderEnd(h: Shdr)
    ensures h.End() == h.offset + h.size
  {
  }

  lemma {:induction false} CarriedUnit(x: Input, cus: seq<LineV5.Cu>, k: nat)
    requires Valid(x) && Carries(x, cus) && k < |cus| && LineV5.ValidCu(cus[k])
    requires |x.newLine| < 0xffff_fff0 && |x.newStr| <= 0x1_0000_0000
    ensures k < |x.stmts| && FromLe(ToLe(x.stmts[k].value, 4)) == x.stmts[k].value
    ensures LineV5.DecodeUnit(x.newLine, x.stmts[k].value, x.newStr) == Some(LineV5.Expected(cus[k]))
  {
    hide LineV5.DecodeUnit, LineV5.Expected, LineV5.ValidCu, LineV5.LineAfter, LineV5.PoolAfter, ToLe, FromLe, Valid;
    LineV5.EveryUnitDecodes(cus, k);
    LineV5.LineGrows(cus, k, |cus|);
    FromToLe32(x.stmts[k].value);
  }

  // ---------------------------------------------------------------- the pass

  method ApplyRewrite(x: Input) returns (r: Option<seq<Byte>>)
    requires Valid(x)
    ensures r.Some? <==> Succeeds(x)
    ensures r.Some? ==> r.value == Result(x)
  {
    hide PatchAll, IsImage, FieldsIn, Ordered, Edits, Spliced, Mapped, Patch, Table;
    var data := PatchLoop(x.f, x.stmts, x.Info().offset, x.Info().End());
    var lineEnd := x.Line().offset + x.Line().size;
    var namesEnd := x.Names().offset + x.Names().size;
    var ops := Sorted([Edit(x.Line().offset, x.Line().size, x.newLine), Edit(lineEnd, 0, x.newStr), Edit(namesEnd, 0, NAME)]);
    EditsFold(x, ops);
    var body := Stream(data, ops);
    if body.None? { return None; }
    BodyIsLong(x);
    var out := body.value + seq(SHDR_SIZE * (|x.hs| + 1), i => 0);
    var hs := NewHeaders(x);
    out := WriteTable(out, |body.value|, hs);
    FreshTable(body.value, hs);
    out := Patch(out, 40, ToLe(|body.value|, 8));
    out := Patch(out, 60, ToLe(|x.hs| + 1, 2));
    return Some(out);
  }

  lemma {:induction false} EditsFold(x: Input, ops: seq<Edit>)
    requires Valid(x)
    requires ops == Sorted([Edit(x.Line().offset, x.Line().size, x.newLine),
                            Edit(x.Line().offset + x.Line().size, 0, x.newStr),
                            Edit(x.Names().offset + x.Names().size, 0, NAME)])
    ensures ops == Edits(x)
  {
  }

  lemma {:induction false} FreshTable(body: seq<Byte>, hs: seq<Shdr>)
    ensures Patch(body + seq(SHDR_SIZE * |hs|, i => 0), |body|, Table(hs)) == body + Table(hs)
  {
  }

  // ---------------------------------------------------------------- units that are not upgraded

  /** A unit of `.debug_info`: the version of its line table, its `DW_AT_stmt_list` field, and its line table. */
  datatype Unit = Unit(version: nat, field: nat, cu: LineV5.Cu)

  /** The units of version 4 among the first `n`. */
  function Selected(units: seq<Unit>, n: nat): (r: seq<Unit>)
    requires n <= |units|
    ensures |r| <= n
  {
    if n == 0 then []
    else Selected(units, n - 1) + (if units[n - 1].version == 4 then [units[n - 1]] else [])
  }

  /** The version test of `read_cus`. */
  method SelectUnits(units: seq<Unit>) returns (r: seq<Unit>)
    ensures r == Selected(units, |units|)
  {
    r := [];
    for i := 0 to |units|
      invariant r == Selected(units, i)
    {
      if units[i].version != 4 {
        continue;
      }
      r := r + [units[i]];
    }
  }

  lemma {:induction false} SelectedGrows(units: seq<Unit>, k: nat, n: nat)
    requires k <= n <= |units|
    ensures Selected(units, k) <= Selected(units, n)
    decreases n
  {
    if k < n {
      SelectedGrows(units, k, n - 1);
    }
  }

  /** A unit of version 4 is the one selected after those before it. */
  lemma {:induction false} SelectedAt(units: seq<Unit>, k: nat)
    requires k < |units| && units[k].version == 4
    ensures var r := |Selected(units, k)|;
            r < |Selected(units, |units|)| && Selected(units, |units|)[r] == units[k]
  {
    SelectedGrows(units, k + 1, |units|);
    assert Selected(units, k + 1)[|Selected(units, k)|] == units[k];
  }

  lemma {:induction false} SelectedFrom(units: seq<Unit>, n: nat, r: nat) returns (i: nat)
    requires n <= |units| && r < |Selected(units, n)|
    ensures i < n && units[i].version == 4 && Selected(units, n)[r] == units[i]
    decreases n
  {
    if r < |Selected(units, n - 1)| {
      i := SelectedFrom(units, n - 1, r);
    } else {
      i := n - 1;
    }
  }

  function CusOf(units: seq<Unit>): (cus: seq<LineV5.Cu>)
    ensures |cus| == |units| && forall i :: 0 <= i < |units| ==> cus[i] == units[i].cu
  {
    seq(|units|, i requires 0 <= i < |units| => units[i].cu)
  }

  /** The rewrite carries the selected units of the file, at their own fields; no two fields meet. */
  predicate Upgrades(x: Input, units: seq<Unit>) {
    var selected := Selected(units, |units|);
    && Carries(x, CusOf(selected))
    && (forall r :: 0 <= r < |selected| ==> x.stmts[r].at == selected[r].field)
    && (forall i, j :: 0 <= i < j < |units| ==> units[i].field + 4 <= units[j].field || units[j].field + 4 <= units[i].field)
  }

  /** The field of a unit is patched if and only if its line table has version 4. */
  lemma {:induction false} PatchedIsVersion4(x: Input, units: seq<Unit>, k: nat)
    requires Upgrades(x, units) && k < |units|
    ensures units[k].version == 4 <==> exists r :: 0 <= r < |x.stmts| && x.stmts[r].at == units[k].field
  {
    hide Carries, LineV5.LineAfter;
    var selected := Selected(units, |units|);
    assert |x.stmts| == |selected| by { CarriesAll(x, CusOf(selected)); }
    if units[k].version == 4 {
      SelectedAt(units, k);
    } else {
      forall r | 0 <= r < |x.stmts| ensures x.stmts[r].at != units[k].field {
        var i := SelectedFrom(units, |units|, r);
        FieldsApart(x, units, i, k);
      }
    }
  }

  lemma {:induction false} CarriesAll(x: Input, cus: seq<LineV5.Cu>)
    requires Carries(x, cus)
    ensures |x.stmts| == |cus|
  {
  }

  lemma {:induction false} FieldsApart(x: Input, units: seq<Unit>, i: nat, k: nat)
    requires Upgrades(x, units) && i < |units| && k < |units|
    ensures i != k ==> units[i].field + 4 <= units[k].field || units[k].field + 4 <= units[i].field
  {
  }

  /** A unit of version 4 finds its own line table in the new file. */
  lemma {:induction false} Version4Survives(x: Input, units: seq<Unit>, k: nat) returns (r: nat)
    requires Valid(x) && Succeeds(x) && Upgrades(x, units)
    requires k < |units| && units[k].version == 4 && LineV5.ValidCu(units[k].cu)
    requires |x.newLine| < 0xffff_fff0 && |x.newStr| <= 0x1_0000_0000
    ensures r < |x.stmts| && x.stmts[r].at == units[k].field
    ensures 0 <= NewField(x, r) && NewField(x, r) + 4 <= |Result(x)|
    ensures var line, strs := NewHeaders(x)[x.line], NewHeaders(x)[|x.hs|];
            && line.End() <= |Result(x)| && strs.End() <= |Result(x)|
            && LineV5.DecodeUnit(Result(x)[line.offset..line.End()],
                                 FromLe(Result(x)[NewField(x, r)..NewField(x, r) + 4]),
                                 Result(x)[strs.offset..strs.End()])
               == Some(LineV5.Expected(units[k].cu))
  {
    hide Valid, Succeeds, Carries, Result, NewHeaders, NewField, LineV5.DecodeUnit, LineV5.Expected, LineV5.ValidCu, FromLe, Shdr.End;
    r := |Selected(units, k)|;
    SelectedAt(units, k);
    CarriesAll(x, CusOf(Selected(units, |units|)));
    UnitFindsItsProgram(x, CusOf(Selected(units, |units|)), r);
  }

  /** A unit of another version keeps its old offset into a section that holds the tables of the version 4 units only. */
  lemma {:induction false} OtherVersionsAreStranded(x: Input, units: seq<Unit>, k: nat)
    requires Valid(x) && Succeeds(x) && Upgrades(x, units) && k < |units| && units[k].version != 4
    requires x.Info().offset <= units[k].field && units[k].field + 4 <= x.Info().End()
    ensures x.Info().End() <= |x.f|
    ensures Holds(Result(x), NewHeaders(x)[x.info].offset + (units[k].field - x.Info().offset), x.f[units[k].field..units[k].field + 4])
    ensures Holds(Result(x), NewHeaders(x)[x.line].offset, x.newLine) && NewHeaders(x)[x.line].size == |x.newLine|
    ensures var cus := CusOf(Selected(units, |units|)); x.newLine == LineV5.LineAfter(cus, |cus|)
  {
    hide Edits, IsImage, NewHeaders, Ordered, PatchAll, Result, Holds, FieldsIn, LineV5.LineAfter, LineV5.PoolAfter;
    var at, lo, hi := units[k].field, x.Info().offset, x.Info().End();
    var selected := Selected(units, |units|);
    CarriesAll(x, CusOf(selected));
    forall r | 0 <= r < |x.stmts| ensures at + 4 <= x.stmts[r].at || x.stmts[r].at + 4 <= at {
      var i := SelectedFrom(units, |units|, r);
      FieldsApart(x, units, i, k);
    }
    PatchAllElsewhere(x.f, x.stmts, lo, hi, at, 4);
    OtherSectionKept(x, x.info);
    HoldsPart(Result(x), NewHeaders(x)[x.info].offset, Patched(x)[lo..hi], at - lo, at - lo + 4);
    SliceOfSlice(Patched(x), lo, hi, at - lo, at - lo + 4);
    LineReplaced(x);
  }

  // ---------------------------------------------------------------- the two adjacent layouts

  /** A small file: four bytes of `.debug_info`, then `.debug_line` and `.shstrtab` of one byte each, in either order. */
  function Small(namesFirst: bool, newStr: seq<Byte>): Input {
    var hs := [Shdr(0, SHT_NULL, 0, 0, 0, 0, 0, 0, 0, 0),
               Shdr(0, SHT_PROGBITS, 0, 0, 64, 4, 0, 0, 1, 0),
               Shdr(0, SHT_PROGBITS, 0, 0, if namesFirst then 69 else 68, 1, 0, 0, 1, 0),
               Shdr(0, SHT_PROGBITS, 0, 0, if namesFirst then 68 else 69, 1, 0, 0, 1, 0)];
    Input(FileOf([0, 0, 0, 0, 0, 0], hs), 70, hs, 1, 2, 3, [], [], newStr)
  }

  lemma {:induction false} SmallIsValid(namesFirst: bool, newStr: seq<Byte>)
    ensures Valid(Small(namesFirst, newStr))
    ensures Small(namesFirst, newStr).f[64..70] == [0, 0, 0, 0, 0, 0]
  {
    hide FileOf, IsImage;
    var x := Small(namesFirst, newStr);
    FileIsImage([0, 0, 0, 0, 0, 0], x.hs);
    HoldsIsSlice(x.f, 64, [0, 0, 0, 0, 0, 0]);
  }

  /** A valid file whose `.shstrtab` ends where `.debug_line` starts: the rewrite fails. */
  lemma {:induction false} NamesEndAtLineFails()
    ensures var x := Small(true, []);
            Valid(x) && x.Names().End() == x.Line().offset && !Succeeds(x)
  {
    hide Valid;
    SmallIsValid(true, []);
    SucceedsExactly(Small(true, []));
  }

  /** A valid file whose `.shstrtab` starts where `.debug_line` ends: the rewrite succeeds, and the new header of
      `.shstrtab` leads to the inserted strings instead of the section names. */
  lemma {:induction false} NamesAtLineEndAreLost()
    ensures var x := Small(false, [7]);
            && Valid(x) && Succeeds(x) && x.Line().End() == x.Names().offset
            && !Holds(Result(x), NewHeaders(x)[x.names].offset, NewNames(x))
  {
    hide Valid, Result, Edits, Ordered, Mapped;
    var x := Small(false, [7]);
    SmallIsValid(false, [7]);
    SucceedsExactly(x);
    StringsAdded(x);
    NamesFollowLine(x);
    assert x.f[69] == x.f[64..70][5] == 0;
    assert NewNames(x)[0] == 0;
    HoldsFirst(Result(x), NewHeaders(x)[|x.hs|].offset, x.newStr);
    HoldsFirst(Result(x), NewHeaders(x)[x.names].offset, NewNames(x));
  }

  lemma {:induction false} HoldsFirst(s: seq<Byte>, at: int, w: seq<Byte>)
    ensures Holds(s, at, w) && w != [] ==> 0 <= at < |s| && s[at] == w[0]
  {
  }

  /** With adjacent sections the headers of the strings and of the names get one offset. */
  lemma {:induction false} NamesFollowLine(x: Input)
    requires Valid(x) && Succeeds(x) && x.Line().End() == x.Names().offset
    ensures NewHeaders(x)[x.names].offset == NewHeaders(x)[|x.hs|].offset
  {
    hide Edits, IsImage, Mapped, FieldsIn, Ordered;
  }
}
