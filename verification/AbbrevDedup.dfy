/** `.debug_abbrev` dedup: unit walk, content dedup, patching of unit headers, shift and header rewrite. */
module AbbrevDedup {
  import opened Bytes
  import opened Splice
  import opened ElfImage
  import opened ElfRewrite
  import opened AbbrevTable
  import opened Fields

  /** The file, its parsed headers, the two section indexes, and where each PT_LOAD's file bytes end. */
  datatype Input = Input(f: seq<Byte>, shoff: nat, hs: seq<Shdr>, info: nat, abbrev: nat, loadEnds: seq<nat>)

  /** A unit's `debug_abbrev_offset` field: where it is in the file, and its value. */
  datatype UnitRef = UnitRef(field: nat, old_: nat)

  datatype Walk = Units(refs: seq<UnitRef>) | Skip | Bad

  datatype Outcome = Rewrote(bytes: seq<Byte>) | Skipped | Failed

  predicate Valid(x: Input) {
    && IsImage(x.f, x.shoff, x.hs)
    && WellLaidOut(x.f, x.shoff, x.hs)
    && x.info < |x.hs| && x.abbrev < |x.hs| && x.info != x.abbrev
    && x.hs[x.info].HasBytes() && x.hs[x.abbrev].HasBytes()
    && x.hs[x.abbrev].size <= 0x1_0000_0000
    && (forall i :: 0 <= i < |x.hs| && i != x.abbrev ==>
          x.hs[i].offset <= x.hs[x.abbrev].offset || x.hs[x.abbrev].End() <= x.hs[i].offset)
    && UnitsCoverHeaders(x.f, x.hs[x.info].offset, x.hs[x.info].End())
  }

  function FieldOf(f: seq<Byte>, pos: nat): Option<nat>
    requires pos + 6 <= |f|
  {
    var version := FromLe(f[pos + 4..pos + 6]);
    if 2 <= version <= 4 then Some(pos + 6) else if version == 5 then Some(pos + 8) else None
  }

  /** The unit walk from `pos` to the end of `.debug_info`. */
  function WalkFrom(f: seq<Byte>, pos: nat, end: nat): Walk
    requires end <= |f|
    decreases end - pos
  {
    if end < pos + 11 then Units([])
    else
      var length := FromLe(f[pos..pos + 4]);
      if length == 0xffff_ffff then Skip
      else if length == 0 then Units([])
      else if end < pos + 4 + length then Bad
      else
        var field := FieldOf(f, pos);
        if field.None? then Skip
        else if end < field.value + 4 then Bad
        else
          match WalkFrom(f, pos + 4 + length, end)
          case Units(rest) => Units([UnitRef(field.value, FromLe(f[field.value..field.value + 4]))] + rest)
          case other => other
  }

  /** Every unit of the walk is long enough to contain its own offset field. */
  predicate UnitsCoverHeaders(f: seq<Byte>, pos: nat, end: nat)
    requires end <= |f|
    decreases end - pos
  {
    if end < pos + 11 then true
    else
      var length := FromLe(f[pos..pos + 4]);
      if length == 0 || end < pos + 4 + length || FieldOf(f, pos).None? then true
      else FieldOf(f, pos).value + 4 <= pos + 4 + length && UnitsCoverHeaders(f, pos + 4 + length, end)
  }

  /** The fields of a walk lie in order, apart, inside `[pos, end)`, with their 32-bit values. */
  predicate GoodRefs(f: seq<Byte>, refs: seq<UnitRef>, pos: nat, end: nat) {
    if refs == [] then true
    else
      && pos <= refs[0].field && refs[0].field + 4 <= end <= |f|
      && refs[0].old_ == FromLe(f[refs[0].field..refs[0].field + 4])
      && GoodRefs(f, refs[1..], refs[0].field + 4, end)
  }

  lemma {:induction false} GoodRefsLater(f: seq<Byte>, refs: seq<UnitRef>, lo: nat, pos: nat, end: nat)
    requires GoodRefs(f, refs, pos, end) && lo <= pos
    ensures GoodRefs(f, refs, lo, end)
  {
  }

  lemma {:induction false} WalkIsGood(f: seq<Byte>, pos: nat, end: nat)
    requires end <= |f| && UnitsCoverHeaders(f, pos, end)
    requires WalkFrom(f, pos, end).Units?
    ensures GoodRefs(f, WalkFrom(f, pos, end).refs, pos, end)
    decreases end - pos
  {
    var refs := WalkFrom(f, pos, end).refs;
    if refs != [] {
      var length := FromLe(f[pos..pos + 4]);
      WalkIsGood(f, pos + 4 + length, end);
      var rest := WalkFrom(f, pos + 4 + length, end).refs;
      GoodRefsLater(f, rest, refs[0].field + 4, pos + 4 + length, end);
      assert refs[1..] == rest;
    }
  }

  // ---------------------------------------------------------------- content dedup

  /** The table that starts at `off`. */
  function TableAt(data: seq<Byte>, off: nat): seq<Byte>
    requires TableEnd(data, off).Some?
  {
    TableEndBounds(data, off);
    data[off..TableEnd(data, off).value]
  }

  predicate Scannable(data: seq<Byte>, offs: seq<nat>) {
    forall k :: 0 <= k < |offs| ==> TableEnd(data, offs[k]).Some?
  }

  /** The new section, where each content was put, and where each old offset goes. */
  datatype Dedup = Dedup(bytes: seq<Byte>, byContent: map<seq<Byte>, nat>, moved: map<nat, nat>)

  function AddTable(d: Dedup, off: nat, table: seq<Byte>): Dedup {
    if table in d.byContent then d.(moved := d.moved[off := d.byContent[table]])
    else Dedup(d.bytes + table, d.byContent[table := |d.bytes|], d.moved[off := |d.bytes|])
  }

  function Collapse(data: seq<Byte>, offs: seq<nat>): Dedup
    requires Scannable(data, offs)
  {
    if offs == [] then Dedup([], map[], map[])
    else
      var n := |offs| - 1;
      AddTable(Collapse(data, offs[..n]), offs[n], TableAt(data, offs[n]))
  }

  /** Every content is stored where the dedup says. */
  predicate Stored(d: Dedup) {
    forall c <- d.byContent :: Holds(d.bytes, d.byContent[c], c)
  }

  /** Every old offset goes where its table's content is. */
  predicate Routed(data: seq<Byte>, offs: seq<nat>, d: Dedup)
    requires Scannable(data, offs)
  {
    forall k :: 0 <= k < |offs| ==>
      && offs[k] in d.moved && TableAt(data, offs[k]) in d.byContent
      && d.moved[offs[k]] == d.byContent[TableAt(data, offs[k])]
  }

  lemma {:induction false} AddKeepsStored(d: Dedup, off: nat, table: seq<Byte>)
    requires Stored(d)
    ensures Stored(AddTable(d, off, table))
  {
    if table !in d.byContent {
      var d' := AddTable(d, off, table);
      forall c <- d'.byContent
        ensures Holds(d'.bytes, d'.byContent[c], c)
      {
        if c == table {
          HoldsInTail(d.bytes, table, 0, table);
        } else {
          HoldsInHead(d.bytes, table, d.byContent[c], c);
        }
      }
    }
  }

  lemma {:induction false} CollapseIsStored(data: seq<Byte>, offs: seq<nat>)
    requires Scannable(data, offs)
    ensures Stored(Collapse(data, offs))
  {
    hide TableEnd, Holds;
    if offs != [] {
      var n := |offs| - 1;
      CollapseIsStored(data, offs[..n]);
      AddKeepsStored(Collapse(data, offs[..n]), offs[n], TableAt(data, offs[n]));
    }
  }

  lemma {:induction false} AddKeepsRouted(data: seq<Byte>, offs: seq<nat>, d: Dedup)
    requires offs != [] && Scannable(data, offs)
    requires Routed(data, offs[..|offs| - 1], d)
    ensures Routed(data, offs, AddTable(d, offs[|offs| - 1], TableAt(data, offs[|offs| - 1])))
  {
    hide TableEnd, TableAt;
    assert forall k :: 0 <= k < |offs| - 1 ==> offs[k] == offs[..|offs| - 1][k];
  }

  lemma {:induction false} CollapseIsRouted(data: seq<Byte>, offs: seq<nat>)
    requires Scannable(data, offs)
    ensures Routed(data, offs, Collapse(data, offs))
  {
    hide TableEnd, AddTable;
    if offs != [] {
      CollapseIsRouted(data, offs[..|offs| - 1]);
      AddKeepsRouted(data, offs, Collapse(data, offs[..|offs| - 1]));
    }
  }

  /** Scanning from the new offset yields the old table, byte for byte. */
  lemma {:induction false} MovedTableScans(data: seq<Byte>, offs: seq<nat>, k: nat)
    requires Scannable(data, offs) && k < |offs|
    ensures var d := Collapse(data, offs);
            && offs[k] in d.moved
            && TableEnd(d.bytes, d.moved[offs[k]]).Some?
            && TableAt(d.bytes, d.moved[offs[k]]) == TableAt(data, offs[k])
  {
    CollapseIsStored(data, offs);
    CollapseIsRouted(data, offs);
    hide Collapse, TableEnd;
    var d := Collapse(data, offs);
    HeldTableScans(data, offs[k], d.bytes, d.moved[offs[k]]);
  }

  lemma {:induction false} HeldTableScans(s: seq<Byte>, p: nat, t: seq<Byte>, q: nat)
    requires TableEnd(s, p).Some? && Holds(t, q, TableAt(s, p))
    ensures TableEnd(t, q).Some? && TableAt(t, q) == TableAt(s, p)
  {
    hide TableEnd;
    TableEndBounds(s, p);
    HoldsIsSlice(t, q, TableAt(s, p));
    HeldTableAgrees(s, p, t, q, |TableAt(s, p)|);
    TableEndLocal(s, p, t, q, |TableAt(s, p)|);
  }

  lemma {:induction false} HeldTableAgrees(s: seq<Byte>, p: nat, t: seq<Byte>, q: nat, len: nat)
    requires p + len <= |s| && Holds(t, q, s[p..p + len])
    ensures Agree(s, p, t, q, len)
  {
    forall i | p <= i < p + len
      ensures s[i] == t[i - p + q]
    {
      assert s[p..p + len][i - p] == t[q + (i - p)];
    }
  }

  /** Two old offsets share a new one exactly when their tables are equal. */
  lemma {:induction false} EqualTablesShare(data: seq<Byte>, offs: seq<nat>, i: nat, j: nat)
    requires Scannable(data, offs) && i < |offs| && j < |offs|
    ensures offs[i] in Collapse(data, offs).moved && offs[j] in Collapse(data, offs).moved
    ensures Collapse(data, offs).moved[offs[i]] == Collapse(data, offs).moved[offs[j]]
       <==> TableAt(data, offs[i]) == TableAt(data, offs[j])
  {
    hide Collapse, TableEnd, TableAt;
    CollapseIsRouted(data, offs);
    MovedTableScans(data, offs, i);
    MovedTableScans(data, offs, j);
  }

  // ---------------------------------------------------------------- patching unit headers

  predicate Known(refs: seq<UnitRef>, moved: map<nat, nat>) {
    forall k :: 0 <= k < |refs| ==> refs[k].old_ in moved
  }

  /** What is written into each unit's field. */
  function FieldsOf(refs: seq<UnitRef>, moved: map<nat, nat>): (fields: seq<Field>)
    requires Known(refs, moved)
    ensures |fields| == |refs|
    ensures forall k :: 0 <= k < |refs| ==> fields[k] == Field(refs[k].field, moved[refs[k].old_])
  {
    seq(|refs|, k requires 0 <= k < |refs| => Field(refs[k].field, moved[refs[k].old_]))
  }

  lemma {:induction false} GoodRefsAreIn(f: seq<Byte>, refs: seq<UnitRef>, moved: map<nat, nat>, pos: nat, end: nat)
    requires GoodRefs(f, refs, pos, end) && Known(refs, moved)
    ensures FieldsIn(FieldsOf(refs, moved), pos, end)
  {
    if refs != [] {
      GoodRefsAreIn(f, refs[1..], moved, refs[0].field + 4, end);
      assert FieldsOf(refs, moved)[1..] == FieldsOf(refs[1..], moved);
    }
  }

  // ---------------------------------------------------------------- distinct offsets

  function InsertDistinct(n: nat, s: seq<nat>): seq<nat> {
    if s == [] then [n]
    else if n == s[0] then s
    else if n < s[0] then [n] + s
    else [s[0]] + InsertDistinct(n, s[1..])
  }

  /** The referenced offsets, sorted and without duplicates. */
  function OffsetsOf(refs: seq<UnitRef>): seq<nat> {
    if refs == [] then [] else InsertDistinct(refs[|refs| - 1].old_, OffsetsOf(refs[..|refs| - 1]))
  }

  lemma {:induction false} InsertDistinctMembers(n: nat, s: seq<nat>)
    ensures forall x :: x in InsertDistinct(n, s) <==> x == n || x in s
  {
    if s != [] && n > s[0] {
      InsertDistinctMembers(n, s[1..]);
      assert s == [s[0]] + s[1..];
    }
  }

  lemma {:induction false} OffsetsCover(refs: seq<UnitRef>, k: nat)
    requires k < |refs|
    ensures refs[k].old_ in OffsetsOf(refs)
  {
    var n := |refs| - 1;
    InsertDistinctMembers(refs[n].old_, OffsetsOf(refs[..n]));
    if k < n {
      OffsetsCover(refs[..n], k);
    }
  }

  // ---------------------------------------------------------------- the deduplicated file

  function Info(x: Input): Shdr requires Valid(x) { x.hs[x.info] }

  function Abbrev(x: Input): Shdr requires Valid(x) { x.hs[x.abbrev] }

  function AbbrevData(x: Input): seq<Byte> requires Valid(x) { x.f[Abbrev(x).offset..Abbrev(x).End()] }

  function WalkOf(x: Input): Walk requires Valid(x) { WalkFrom(x.f, Info(x).offset, Info(x).End()) }

  predicate LoadsClear(x: Input) requires Valid(x) {
    forall k :: 0 <= k < |x.loadEnds| ==> x.loadEnds[k] <= Abbrev(x).offset
  }

  /** The pass changes the file exactly when nothing is loaded past `.debug_abbrev`, every unit and every
      table can be read, and the tables kept are strictly smaller than the section. */
  predicate Proceeds(x: Input)
    requires Valid(x)
  {
    && LoadsClear(x)
    && WalkOf(x).Units? && WalkOf(x).refs != []
    && Scannable(AbbrevData(x), OffsetsOf(WalkOf(x).refs))
    && |DedupOf(x).bytes| < Abbrev(x).size
  }

  function DedupOf(x: Input): Dedup
    requires Valid(x) && WalkOf(x).Units? && Scannable(AbbrevData(x), OffsetsOf(WalkOf(x).refs))
  {
    Collapse(AbbrevData(x), OffsetsOf(WalkOf(x).refs))
  }

  lemma {:induction false} RefsAreReady(x: Input)
    requires Valid(x) && WalkOf(x).Units? && Scannable(AbbrevData(x), OffsetsOf(WalkOf(x).refs))
    ensures Known(WalkOf(x).refs, DedupOf(x).moved)
    ensures FieldsIn(FieldsOf(WalkOf(x).refs, DedupOf(x).moved), Info(x).offset, Info(x).End())
  {
    var refs := WalkOf(x).refs;
    WalkIsGood(x.f, Info(x).offset, Info(x).End());
    hide Collapse, TableEnd, OffsetsOf;
    CollapseIsRouted(AbbrevData(x), OffsetsOf(refs));
    forall k | 0 <= k < |refs|
      ensures refs[k].old_ in DedupOf(x).moved
    {
      OffsetsCover(refs, k);
    }
    GoodRefsAreIn(x.f, refs, DedupOf(x).moved, Info(x).offset, Info(x).End());
  }

  /** The file with every unit's field patched. */
  function Patched(x: Input): (g: seq<Byte>)
    requires Valid(x) && Proceeds(x)
    ensures |g| == |x.f|
  {
    RefsAreReady(x);
    PatchAll(x.f, FieldsOf(WalkOf(x).refs, DedupOf(x).moved), Info(x).offset, Info(x).End())
  }

  function EditOf(x: Input): Edit
    requires Valid(x) && Proceeds(x)
  {
    Edit(Abbrev(x).offset, Abbrev(x).size, DedupOf(x).bytes)
  }

  function NewHeader(x: Input, i: nat): Shdr
    requires Valid(x) && Proceeds(x) && i < |x.hs|
  {
    var h := x.hs[i];
    if i == x.abbrev then h.(size := |DedupOf(x).bytes|)
    else if h.offset > Abbrev(x).offset then h.(offset := h.offset - (Abbrev(x).size - |DedupOf(x).bytes|))
    else h
  }

  function NewHeaders(x: Input): (hs: seq<Shdr>)
    requires Valid(x) && Proceeds(x)
    ensures |hs| == |x.hs|
  {
    seq(|x.hs|, i requires 0 <= i < |x.hs| => NewHeader(x, i))
  }

  function NewShoff(x: Input): nat
    requires Valid(x) && Proceeds(x)
  {
    if x.shoff > Abbrev(x).offset then x.shoff - (Abbrev(x).size - |DedupOf(x).bytes|) else x.shoff
  }

  lemma {:induction false} EditIsSafe(x: Input)
    requires Valid(x) && Proceeds(x)
    ensures SafeEdits(Patched(x), x.shoff, |x.hs|, [EditOf(x)])
    ensures Mapped(x.shoff, [EditOf(x)], After) == NewShoff(x)
    ensures DistinctPositions([EditOf(x)])
  {
    hide Collapse, TableEnd, PatchAll, WalkFrom;
    var e := EditOf(x);
    assert [e][1..] == [];
    HoldsFits(x.f, x.shoff, Table(x.hs));
    assert Ordered([e][1..], e.End(), |x.f|);
    assert Ordered([e], EHDR_SIZE, |Patched(x)|);
    assert Undisturbed([e], x.shoff, SHDR_SIZE * |x.hs|);
    assert Delta(x.shoff, [], After) == 0;
  }

  function Result(x: Input): seq<Byte>
    requires Valid(x) && Proceeds(x)
  {
    EditIsSafe(x);
    Rewritten(Patched(x), x.shoff, NewHeaders(x), [EditOf(x)])
  }

  /** Outside `.debug_info` the patched file is the old file. */
  lemma {:induction false} PatchedElsewhere(x: Input, p: nat, len: nat)
    requires Valid(x) && Proceeds(x)
    requires p + len <= |x.f|
    requires p + len <= Info(x).offset || Info(x).End() <= p
    ensures Patched(x)[p..p + len] == x.f[p..p + len]
  {
    hide Collapse, TableEnd, PatchAll, WalkFrom;
    RefsAreReady(x);
    var fields := FieldsOf(WalkOf(x).refs, DedupOf(x).moved);
    FieldsInBounds(fields, Info(x).offset, Info(x).End());
    PatchAllElsewhere(x.f, fields, Info(x).offset, Info(x).End(), p, len);
  }

  /** The result is an image whose table is the rewritten one. */
  lemma {:induction false} ResultIsImage(x: Input)
    requires Valid(x) && Proceeds(x)
    ensures IsImage(Result(x), NewShoff(x), NewHeaders(x))
  {
    hide Collapse, TableEnd, PatchAll, WalkFrom, Table, ToLe, Rewritten, SafeEdits, Mapped;
    EditIsSafe(x);
    PatchedElsewhere(x, 60, 2);
    HoldsIsSlice(x.f, 60, ToLe(|x.hs|, 2));
    assert Holds(Patched(x), 60, Patched(x)[60..62]);
    RewrittenIsImage(Patched(x), x.shoff, NewHeaders(x), [EditOf(x)]);
  }

  /** The new `.debug_abbrev` is exactly the deduplicated tables, strictly fewer bytes than before. */
  lemma {:induction false} AbbrevReplaced(x: Input)
    requires Valid(x) && Proceeds(x)
    ensures var h := NewHeaders(x)[x.abbrev];
            h.size == |DedupOf(x).bytes| < Abbrev(x).size && Holds(Result(x), h.offset, DedupOf(x).bytes)
  {
    hide Collapse, TableEnd, PatchAll, WalkFrom, Rewritten, SafeEdits, Holds;
    EditIsSafe(x);
    RewrittenInsert(Patched(x), x.shoff, NewHeaders(x), [EditOf(x)], 0);
  }

  lemma {:induction false} HeaderMoves(x: Input, i: nat)
    requires Valid(x) && Proceeds(x) && i < |x.hs| && i != x.abbrev && x.hs[i].HasBytes()
    ensures NewHeaders(x)[i] == x.hs[i].(offset := NewHeaders(x)[i].offset)
    ensures NewHeaders(x)[i].offset == Mapped(x.hs[i].offset, [EditOf(x)], After)
    ensures Undisturbed([EditOf(x)], x.hs[i].offset, x.hs[i].size)
  {
    hide Collapse, TableEnd, PatchAll, WalkFrom;
    assert [EditOf(x)][1..] == [];
    assert Delta(x.hs[i].offset, [], After) == 0;
  }

  /** Every other section's (patched) bytes are found where its moved header says. */
  lemma {:induction false} OtherSectionKept(x: Input, i: nat)
    requires Valid(x) && Proceeds(x) && i < |x.hs| && i != x.abbrev && x.hs[i].HasBytes()
    ensures Holds(Result(x), NewHeaders(x)[i].offset, Patched(x)[x.hs[i].offset..x.hs[i].End()])
    ensures i != x.info ==> Holds(Result(x), NewHeaders(x)[i].offset, x.f[x.hs[i].offset..x.hs[i].End()])
  {
    hide Collapse, TableEnd, PatchAll, WalkFrom, Rewritten, SafeEdits, Holds, Mapped, Undisturbed;
    EditIsSafe(x);
    HeaderMoves(x, i);
    RewrittenWindow(Patched(x), x.shoff, NewHeaders(x), [EditOf(x)], x.hs[i].offset, x.hs[i].size);
    if i != x.info {
      PatchedElsewhere(x, x.hs[i].offset, x.hs[i].size);
    }
  }

  /** Where unit `k`'s offset field is in the new file. */
  function NewField(x: Input, k: nat): int
    requires Valid(x) && Proceeds(x) && k < |WalkOf(x).refs|
  {
    NewHeaders(x)[x.info].offset + (WalkOf(x).refs[k].field - Info(x).offset)
  }

  lemma {:induction false} FieldIsPatched(x: Input, k: nat)
    requires Valid(x) && Proceeds(x) && k < |WalkOf(x).refs|
    ensures WalkOf(x).refs[k].old_ in DedupOf(x).moved
    ensures Holds(Result(x), NewField(x, k), ToLe(DedupOf(x).moved[WalkOf(x).refs[k].old_], 4))
  {
    hide Collapse, TableEnd, PatchAll, WalkFrom, Rewritten, SafeEdits, Holds, Result;
    RefsAreReady(x);
    var refs := WalkOf(x).refs;
    var fields := FieldsOf(refs, DedupOf(x).moved);
    FieldsInBounds(fields, Info(x).offset, Info(x).End());
    PatchAllAtField(x.f, fields, Info(x).offset, Info(x).End(), k);
    OtherSectionKept(x, x.info);
    var lo, hi := Info(x).offset, Info(x).End();
    var a := refs[k].field - lo;
    HoldsPart(Result(x), NewHeaders(x)[x.info].offset, Patched(x)[lo..hi], a, a + 4);
    SliceOfSlice(Patched(x), lo, hi, a, a + 4);
  }

  /** The main result: the offset now in a unit's header leads, in the new section, to a table that is
      byte for byte the one the unit had. */
  lemma {:induction false} UnitFindsItsTable(x: Input, k: nat)
    requires Valid(x) && Proceeds(x) && k < |WalkOf(x).refs|
    ensures 0 <= NewField(x, k) && NewField(x, k) + 4 <= |Result(x)|
    ensures TableEnd(AbbrevData(x), WalkOf(x).refs[k].old_).Some?
    ensures var h := NewHeaders(x)[x.abbrev];
            h.End() <= |Result(x)| &&
            var section := Result(x)[h.offset..h.End()];
            var o := FromLe(Result(x)[NewField(x, k)..NewField(x, k) + 4]);
            TableEnd(section, o).Some? && TableAt(section, o) == TableAt(AbbrevData(x), WalkOf(x).refs[k].old_)
  {
    hide Collapse, TableEnd, PatchAll, WalkFrom, Rewritten, SafeEdits, Result, ToLe, OffsetsOf;
    var refs := WalkOf(x).refs;
    var d := DedupOf(x);
    FieldIsPatched(x, k);
    AbbrevReplaced(x);
    OffsetsCover(refs, k);
    var j :| 0 <= j < |OffsetsOf(refs)| && OffsetsOf(refs)[j] == refs[k].old_;
    MovedTableScans(AbbrevData(x), OffsetsOf(refs), j);
    var o := d.moved[refs[k].old_];
    TableEndBounds(d.bytes, o);
    FromToLe32(o);
    HoldsIsSlice(Result(x), NewField(x, k), ToLe(o, 4));
    HoldsIsSlice(Result(x), NewHeaders(x)[x.abbrev].offset, d.bytes);
  }

  /** Two units share a new offset exactly when their tables are equal. */
  lemma {:induction false} UnitsShareExactlyEqualTables(x: Input, i: nat, j: nat)
    requires Valid(x) && Proceeds(x) && i < |WalkOf(x).refs| && j < |WalkOf(x).refs|
    ensures var refs, d := WalkOf(x).refs, DedupOf(x);
            && refs[i].old_ in d.moved && refs[j].old_ in d.moved
            && TableEnd(AbbrevData(x), refs[i].old_).Some? && TableEnd(AbbrevData(x), refs[j].old_).Some?
            && (d.moved[refs[i].old_] == d.moved[refs[j].old_]
                <==> TableAt(AbbrevData(x), refs[i].old_) == TableAt(AbbrevData(x), refs[j].old_))
  {
    hide Collapse, TableEnd, WalkFrom, OffsetsOf;
    var refs := WalkOf(x).refs;
    OffsetsCover(refs, i);
    OffsetsCover(refs, j);
    var a :| 0 <= a < |OffsetsOf(refs)| && OffsetsOf(refs)[a] == refs[i].old_;
    var b :| 0 <= b < |OffsetsOf(refs)| && OffsetsOf(refs)[b] == refs[j].old_;
    EqualTablesShare(AbbrevData(x), OffsetsOf(refs), a, b);
  }

  lemma {:induction false} ResultShrinks(x: Input)
    requires Valid(x) && Proceeds(x)
    ensures |Result(x)| == |x.f| - (Abbrev(x).size - |DedupOf(x).bytes|) < |x.f|
  {
    hide Collapse, TableEnd, PatchAll, WalkFrom;
    EditIsSafe(x);
    WeakerFrom([EditOf(x)], EHDR_SIZE, |x.f|);
    SplicedLength(Reheaded(Patched(x), x.shoff, NewShoff(x), NewHeaders(x)), [EditOf(x)], 0);
    assert [EditOf(x)][1..] == [];
    assert Net([EditOf(x)]) == |EditOf(x).insert| - EditOf(x).delete + Net([]);
  }

  // ---------------------------------------------------------------- the loops

  function Prepend(refs: seq<UnitRef>, w: Walk): Walk {
    match w case Units(rest) => Units(refs + rest) case other => other
  }

  method WalkUnits(f: seq<Byte>, start: nat, end: nat) returns (w: Walk)
    requires end <= |f|
    ensures w == WalkFrom(f, start, end)
  {
    hide FromLe, FieldOf;
    var refs: seq<UnitRef> := [];
    var pos := start;
    while pos + 11 <= end
      invariant WalkFrom(f, start, end) == Prepend(refs, WalkFrom(f, pos, end))
      decreases end - pos
    {
      var length := FromLe(f[pos..pos + 4]);
      if length == 0xffff_ffff { return Skip; }
      if length == 0 { break; }
      var unitEnd := pos + 4 + length;
      if end < unitEnd { return Bad; }
      var field := FieldOf(f, pos);
      if field.None? { return Skip; }
      if end < field.value + 4 { return Bad; }
      var r := UnitRef(field.value, FromLe(f[field.value..field.value + 4]));
      PrependOne(refs, r, WalkFrom(f, unitEnd, end));
      refs := refs + [r];
      pos := unitEnd;
    }
    return Units(refs);
  }

  lemma {:induction false} PrependOne(refs: seq<UnitRef>, r: UnitRef, w: Walk)
    ensures Prepend(refs + [r], w) == Prepend(refs, Prepend([r], w))
  {
    if w.Units? { assert refs + [r] + w.refs == refs + ([r] + w.refs); }
  }

  method CollapseTables(data: seq<Byte>, offs: seq<nat>) returns (r: Option<Dedup>)
    ensures r.Some? <==> Scannable(data, offs)
    ensures r.Some? ==> r.value == Collapse(data, offs)
  {
    hide TableEnd;
    var tables: seq<seq<Byte>> := [];
    for k := 0 to |offs|
      invariant |tables| == k && Scannable(data, offs[..k])
      invariant forall j :: 0 <= j < k ==> TableEnd(data, offs[j]).Some? && tables[j] == TableAt(data, offs[j])
    {
      var length := ScanTable(data, offs[k]);
      if length.None? { return None; }
      tables := tables + [data[offs[k]..offs[k] + length.value]];
    }
    var d := Dedup([], map[], map[]);
    for k := 0 to |offs|
      invariant Scannable(data, offs[..k]) && d == Collapse(data, offs[..k])
    {
      assert offs[..k + 1][..k] == offs[..k];
      d := AddTable(d, offs[k], tables[k]);
    }
    assert offs[..|offs|] == offs;
    return Some(d);
  }

  /** `copy_within` the tail up, copy the new section in, truncate. */
  method ShiftTail(f: seq<Byte>, start: nat, end: nat, section: seq<Byte>) returns (out: seq<Byte>)
    requires start + |section| <= end <= |f|
    ensures Ordered([Edit(start, end - start, section)], 0, |f|)
    ensures out == Spliced(f, [Edit(start, end - start, section)], 0)
  {
    var tail := |f| - end;
    var newTail := start + |section|;
    out := Patch(f, newTail, f[end..end + tail]);
    out := Patch(out, start, section);
    out := out[..newTail + tail];
    var e := Edit(start, end - start, section);
    assert [e][1..] == [] && Ordered([e][1..], e.End(), |f|);
    assert Spliced(f, [], end) == f[end..];
    assert Spliced(f, [e], 0) == f[0..start] + section + f[end..];
    assert f[0..start] == f[..start] && f[end..end + tail] == f[end..];
    assert out == f[..start] + section + f[end..];
  }

  method DedupBuffer(x: Input) returns (o: Outcome)
    requires Valid(x)
    ensures o.Rewrote? <==> Proceeds(x)
    ensures o.Rewrote? ==> o.bytes == Result(x)
    ensures o.Failed? <==> LoadsClear(x) && WalkOf(x).Bad?
  {
    hide Collapse, TableEnd, PatchAll, WalkFrom, Patch, Ordered, Spliced, Delta, Undisturbed;
    var da := x.hs[x.abbrev];
    for k := 0 to |x.loadEnds|
      invariant forall j :: 0 <= j < k ==> x.loadEnds[j] <= da.offset
    {
      if da.offset < x.loadEnds[k] { return Skipped; }
    }
    var w := WalkUnits(x.f, x.hs[x.info].offset, x.hs[x.info].End());
    if w.Bad? { return Failed; }
    if w.Skip? || w.refs == [] { return Skipped; }
    var d := CollapseTables(x.f[da.offset..da.End()], OffsetsOf(w.refs));
    if d.None? { return Skipped; }
    if da.size <= |d.value.bytes| { return Skipped; }
    RefsAreReady(x);
    var out := PatchLoop(x.f, FieldsOf(w.refs, d.value.moved), x.hs[x.info].offset, x.hs[x.info].End());
    out := ShiftTail(out, da.offset, da.End(), d.value.bytes);
    EditIsSafe(x);
    var shoff := NewShoff(x);
    ReheadCommutes(Patched(x), x.shoff, NewHeaders(x), [EditOf(x)], shoff);
    out := WriteTable(out, shoff, NewHeaders(x));
    if x.shoff > da.offset {
      out := Patch(out, 40, ToLe(shoff, 8));
    } else {
      UnmovedTable(x, out);
    }
    return Rewrote(out);
  }

  /** When the table does not move, `e_shoff` is right without being written. */
  lemma {:induction false} UnmovedTable(x: Input, out: seq<Byte>)
    requires Valid(x) && Proceeds(x) && x.shoff <= Abbrev(x).offset
    requires Ordered([EditOf(x)], 0, |x.f|)
    requires EHDR_SIZE <= x.shoff && x.shoff + SHDR_SIZE * |x.hs| <= |Spliced(Patched(x), [EditOf(x)], 0)|
    requires out == Patch(Spliced(Patched(x), [EditOf(x)], 0), x.shoff, Table(NewHeaders(x)))
    ensures 48 <= |out| && Patch(out, 40, ToLe(x.shoff, 8)) == out
  {
    hide Collapse, TableEnd, PatchAll, WalkFrom, Patch, Ordered, Spliced, Table, ToLe;
    EditIsSafe(x);
    SafeParts(Patched(x), x.shoff, |x.hs|, [EditOf(x)]);
    PatchedElsewhere(x, 40, 8);
    HoldsIsSlice(x.f, 40, ToLe(x.shoff, 8));
    var s := Spliced(Patched(x), [EditOf(x)], 0);
    WindowLands(Patched(x), [EditOf(x)], 0, 40, 8);
    HoldsAfterPatch(s, 40, ToLe(x.shoff, 8), x.shoff, Table(NewHeaders(x)));
    PatchHeld(out, 40, ToLe(x.shoff, 8));
  }

  lemma {:induction false} PatchHeld(s: seq<Byte>, at: nat, w: seq<Byte>)
    requires Holds(s, at, w)
    ensures Patch(s, at, w) == s
  {
    HoldsIsSlice(s, at, w);
  }

  // ---------------------------------------------------------------- a file that is rewritten

  /** One unit of version 4 that uses the empty table at offset 0, and one spare byte after the table. */
  const SMALL_INFO: seq<Byte> := [7, 0, 0, 0, 4, 0, 0, 0, 0, 0, 8]

  function Small(): Input {
    var hs := [Shdr(0, SHT_NULL, 0, 0, 0, 0, 0, 0, 0, 0),
               Shdr(0, SHT_PROGBITS, 0, 0, 64, 11, 0, 0, 1, 0),
               Shdr(0, SHT_PROGBITS, 0, 0, 75, 2, 0, 0, 1, 0)];
    Input(FileOf(SMALL_INFO + [0, 0], hs), 77, hs, 1, 2, [])
  }

  lemma {:induction false} SmallParts()
    ensures var f := Small().f;
            && IsImage(f, 77, Small().hs) && |f| == 269
            && f[64..68] == [7, 0, 0, 0] && f[68..70] == [4, 0] && f[70..74] == [0, 0, 0, 0] && f[75..77] == [0, 0]
  {
    hide FileOf, IsImage;
    var x := Small();
    var data := SMALL_INFO + [0, 0];
    FileIsImage(data, x.hs);
    HoldsIsSlice(x.f, 64, data);
    SliceOfSlice(x.f, 64, 77, 0, 4);
    SliceOfSlice(x.f, 64, 77, 4, 6);
    SliceOfSlice(x.f, 64, 77, 6, 10);
    SliceOfSlice(x.f, 64, 77, 11, 13);
  }

  lemma {:induction false} SmallNumbers()
    ensures FromLe([7, 0, 0, 0]) == 7 && FromLe([4, 0]) == 4 && FromLe([0, 0, 0, 0]) == 0
  {
    assert [7, 0, 0, 0][1..] == [0, 0, 0] && [0, 0, 0, 0][1..] == [0, 0, 0] && [0, 0, 0][1..] == [0, 0];
    assert [0, 0][1..] == [0] && [0][1..] == [] && [4, 0][1..] == [0];
    assert FromLe([]) == 0;
    assert FromLe([0]) == 0;
    assert FromLe([0, 0]) == 0;
    assert FromLe([0, 0, 0]) == 0;
  }

  lemma {:induction false} SmallWalk()
    ensures |Small().f| >= 75 && WalkFrom(Small().f, 64, 75) == Units([UnitRef(70, 0)])
    ensures UnitsCoverHeaders(Small().f, 64, 75)
  {
    hide FromLe;
    SmallParts();
    SmallNumbers();
    var f := Small().f;
    assert FieldOf(f, 64) == Some(70);
    assert WalkFrom(f, 75, 75) == Units([]);
  }

  lemma {:induction false} SmallTable()
    ensures TableEnd([0, 0], 0) == Some(1) && TableAt([0, 0], 0) == [0]
  {
    assert ReadUleb([0, 0], 0, 0, 0) == Some((0, 1)) by { assert Pow128(0) == 1; }
    assert DeclAt([0, 0], 0) == Some((true, 1));
  }

  /** The preconditions and the branch of the main results are met by a concrete file. */
  lemma {:induction false} SmallProceeds()
    ensures Valid(Small()) && Proceeds(Small()) && |WalkOf(Small()).refs| == 1
  {
    hide FileOf, IsImage, WalkFrom, UnitsCoverHeaders, TableEnd, TableAt;
    var x := Small();
    SmallParts();
    SmallWalk();
    SmallTable();
    assert Valid(x);
    assert AbbrevData(x) == [0, 0];
    var refs := [UnitRef(70, 0)];
    assert refs[..0] == [] && OffsetsOf(refs) == InsertDistinct(0, OffsetsOf([])) == [0];
    assert Scannable([0, 0], [0]);
    assert [0][..0] == [] && Collapse([0, 0], [0]) == AddTable(Collapse([0, 0], []), 0, [0]);
  }
}
