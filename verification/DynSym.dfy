/** Writing `.dynsym`, `.dynstr` and `.gnu.version` in chunks that run in any order. */
module DynSym {
  import opened Bytes

  type Name = seq<Byte>

  datatype Symbol = Symbol(info: nat, other: nat, shndx: nat, value: nat, size: nat)

  /** A dynamic symbol definition. A definition from a linker script has no version to write. */
  datatype Def = Def(name: Name, symbol: Symbol, version: Option<nat>)

  /** A `.dynsym` entry: the offset of its name, and the rest. */
  datatype Entry = Entry(name: nat, symbol: Symbol)

  /** One word of one of the three sections. */
  datatype Loc = SymAt(i: nat) | StrAt(i: nat) | VerAt(i: nat)

  datatype Cell = SymCell(entry: Entry) | StrCell(byte: Byte) | VerCell(version: nat)

  datatype Store = Store(loc: Loc, cell: Cell)

  type Memory = map<Loc, Cell>

  function PutAll(m: Memory, stores: seq<Store>): Memory {
    if stores == [] then m
    else PutAll(m, stores[..|stores| - 1])[stores[|stores| - 1].loc := stores[|stores| - 1].cell]
  }

  /** No location is stored to twice. */
  predicate Distinct(stores: seq<Store>) {
    forall i, j :: 0 <= i < j < |stores| ==> stores[i].loc != stores[j].loc
  }

  predicate StoresTo(stores: seq<Store>, loc: Loc) { exists k :: 0 <= k < |stores| && stores[k].loc == loc }

  lemma {:induction false} ReadsBack(m: Memory, stores: seq<Store>, k: nat)
    requires Distinct(stores) && k < |stores|
    ensures stores[k].loc in PutAll(m, stores) && PutAll(m, stores)[stores[k].loc] == stores[k].cell
    decreases |stores|
  {
    if k < |stores| - 1 {
      ReadsBack(m, stores[..|stores| - 1], k);
    }
  }

  lemma {:induction false} ReadsOld(m: Memory, stores: seq<Store>, loc: Loc)
    requires !StoresTo(stores, loc)
    ensures (loc in PutAll(m, stores) <==> loc in m) && (loc in m ==> PutAll(m, stores)[loc] == m[loc])
    decreases |stores|
  {
    if stores != [] {
      var rest := stores[..|stores| - 1];
      forall k | 0 <= k < |rest| ensures rest[k].loc != loc {
        assert rest[k] == stores[k];
      }
      assert stores[|stores| - 1].loc != loc;
      ReadsOld(m, rest, loc);
    }
  }

  lemma {:induction false} MemberStores(stores: seq<Store>, s: Store)
    ensures s in stores ==> StoresTo(stores, s.loc)
  {
  }

  /** At this location, the two runs leave the same. */
  predicate AgreeAt(a: Memory, b: Memory, loc: Loc) {
    (loc in a <==> loc in b) && (loc in a ==> a[loc] == b[loc])
  }

  /** Runs with the same stores at a location leave it the same, whatever their order. */
  lemma {:induction false} SameStoresAgree(m: Memory, a: seq<Store>, b: seq<Store>, loc: Loc)
    requires Distinct(a) && Distinct(b)
    requires forall s: Store :: s.loc == loc ==> (s in a <==> s in b)
    ensures AgreeAt(PutAll(m, a), PutAll(m, b), loc)
  {
    hide PutAll;
    if StoresTo(a, loc) {
      var k :| 0 <= k < |a| && a[k].loc == loc;
      assert a[k] in b;
      var j :| 0 <= j < |b| && b[j] == a[k];
      ReadsBack(m, a, k);
      ReadsBack(m, b, j);
    } else {
      forall j | 0 <= j < |b| ensures b[j].loc != loc {
        MemberStores(a, b[j]);
      }
      ReadsOld(m, a, loc);
      ReadsOld(m, b, loc);
    }
  }

  // ---------------------------------------------------------------- what one writer stores

  /** Where a writer is: its next symbol entry, its next string byte, the offset that byte has in the string table,
      and its next version slot. */
  datatype Pos = Pos(sym: nat, str: nat, offset: nat, ver: nat)

  function BytesAt(at: nat, s: seq<Byte>): (r: seq<Store>)
    ensures |r| == |s| && forall k :: 0 <= k < |s| ==> r[k] == Store(StrAt(at + k), StrCell(s[k]))
  {
    seq(|s|, k requires 0 <= k < |s| => Store(StrAt(at + k), StrCell(s[k])))
  }

  function Terminated(name: Name): (r: Name)
    ensures |r| == |name| + 1
  {
    name + [0]
  }

  function StoresOf(d: Def, p: Pos, versioned: bool): seq<Store> {
    BytesAt(p.str, Terminated(d.name)) + [Store(SymAt(p.sym), SymCell(Entry(p.offset, d.symbol)))]
    + (if versioned && d.version.Some? then [Store(VerAt(p.ver), VerCell(d.version.value))] else [])
  }

  function After(d: Def, p: Pos): Pos {
    Pos(p.sym + 1, p.str + |d.name| + 1, p.offset + |d.name| + 1, p.ver + (if d.version.Some? then 1 else 0))
  }

  /** Everything one writer stores for `defs`, one after another. */
  function Program(defs: seq<Def>, p: Pos, versioned: bool): seq<Store> {
    if defs == [] then [] else StoresOf(defs[0], p, versioned) + Program(defs[1..], After(defs[0], p), versioned)
  }

  function End(defs: seq<Def>, p: Pos): Pos {
    if defs == [] then p else End(defs[1..], After(defs[0], p))
  }

  /** `strtab_size` of `take_dynsym_prefix`. */
  function StrSize(defs: seq<Def>): nat {
    if defs == [] then 0 else |defs[0].name| + 1 + StrSize(defs[1..])
  }

  /** The position after `take_dynsym_prefix(defs)`. */
  function Past(defs: seq<Def>, p: Pos): Pos {
    Pos(p.sym + |defs|, p.str + StrSize(defs), p.offset + StrSize(defs), p.ver + |defs|)
  }

  /** Every store is in the part of the sections between two positions. */
  predicate InPart(loc: Loc, lo: Pos, hi: Pos) {
    match loc
    case SymAt(i) => lo.sym <= i < hi.sym
    case StrAt(i) => lo.str <= i < hi.str
    case VerAt(i) => lo.ver <= i < hi.ver
  }

  predicate Within(stores: seq<Store>, lo: Pos, hi: Pos) {
    forall k :: 0 <= k < |stores| ==> InPart(stores[k].loc, lo, hi)
  }

  predicate Le(a: Pos, b: Pos) { a.sym <= b.sym && a.str <= b.str && a.ver <= b.ver }

  lemma {:induction false} DistinctJoin(a: seq<Store>, b: seq<Store>, lo: Pos, mid: Pos, hi: Pos)
    requires Distinct(a) && Distinct(b) && Within(a, lo, mid) && Within(b, mid, hi) && Le(lo, mid) && Le(mid, hi)
    ensures Distinct(a + b) && Within(a + b, lo, hi)
  {
  }

  lemma {:induction false} OneWithin(d: Def, p: Pos, versioned: bool)
    ensures Distinct(StoresOf(d, p, versioned)) && Within(StoresOf(d, p, versioned), p, After(d, p)) && Le(p, After(d, p))
  {
  }

  lemma {:induction false} LeTransitive(a: Pos, b: Pos, c: Pos)
    requires Le(a, b) && Le(b, c)
    ensures Le(a, c)
  {
  }

  /** A writer never stores twice to one place, and stays between its start and its end. */
  lemma {:induction false} ProgramWithin(defs: seq<Def>, p: Pos, versioned: bool)
    ensures Distinct(Program(defs, p, versioned)) && Within(Program(defs, p, versioned), p, End(defs, p)) && Le(p, End(defs, p))
    decreases |defs|
  {
    hide Distinct, Within, Le, StoresOf, After;
    if defs == [] {
      Nothing(p);
    } else {
      var q := After(defs[0], p);
      OneWithin(defs[0], p, versioned);
      ProgramWithin(defs[1..], q, versioned);
      DistinctJoin(StoresOf(defs[0], p, versioned), Program(defs[1..], q, versioned), p, q, End(defs, p));
      LeTransitive(p, q, End(defs, p));
    }
  }

  lemma {:induction false} Nothing(p: Pos)
    ensures Distinct([]) && Within([], p, p) && Le(p, p)
  {
  }

  /** The end of a writer is inside the part it took; only version slots can be left. */
  lemma {:induction false} EndIsPast(defs: seq<Def>, p: Pos)
    ensures End(defs, p) == Past(defs, p).(ver := End(defs, p).ver) && End(defs, p).ver <= Past(defs, p).ver
    ensures NoScript(defs) ==> End(defs, p) == Past(defs, p)
    decreases |defs|
  {
    if defs != [] {
      EndIsPast(defs[1..], After(defs[0], p));
    }
  }

  predicate NoScript(defs: seq<Def>) { forall i :: 0 <= i < |defs| ==> defs[i].version.Some? }

  // ---------------------------------------------------------------- chunks

  /** `chunk_size`. */
  function ChunkSize(definitions: nat, threads: nat): (n: nat)
    requires threads > 0
    ensures n >= 10
  {
    if definitions / 10 / threads > 10 then definitions / 10 / threads else 10
  }

  /** `chunks(size)`. */
  function Chunks(defs: seq<Def>, size: nat): seq<seq<Def>>
    requires size > 0
    decreases |defs|
  {
    if defs == [] then [] else if |defs| <= size then [defs] else [defs[..size]] + Chunks(defs[size..], size)
  }

  /** The stores of all the chunk writers, each started where `take_dynsym_prefix` put it. */
  function ChunkPrograms(chunks: seq<seq<Def>>, p: Pos, versioned: bool): seq<Store> {
    if chunks == [] then []
    else Program(chunks[0], p, versioned) + ChunkPrograms(chunks[1..], Past(chunks[0], p), versioned)
  }

  function PastAll(chunks: seq<seq<Def>>, p: Pos): Pos {
    if chunks == [] then p else PastAll(chunks[1..], Past(chunks[0], p))
  }

  lemma {:induction false} WithinMore(stores: seq<Store>, lo: Pos, mid: Pos, hi: Pos)
    requires Within(stores, lo, mid) && Le(mid, hi)
    ensures Within(stores, lo, hi)
  {
  }

  lemma {:induction false} EndLePast(defs: seq<Def>, p: Pos)
    ensures Le(End(defs, p), Past(defs, p))
  {
    hide End;
    EndIsPast(defs, p);
  }

  /** No two stores of any two chunk writers meet, and each writer stays in the part it took. */
  lemma {:induction false} ChunksWithin(chunks: seq<seq<Def>>, p: Pos, versioned: bool)
    ensures Distinct(ChunkPrograms(chunks, p, versioned))
    ensures Within(ChunkPrograms(chunks, p, versioned), p, PastAll(chunks, p)) && Le(p, PastAll(chunks, p))
    decreases |chunks|
  {
    hide Distinct, Within, Le, Program, End, Past;
    if chunks == [] {
      Nothing(p);
    } else {
      var c := chunks[0];
      var q := Past(c, p);
      ProgramWithin(c, p, versioned);
      EndLePast(c, p);
      WithinMore(Program(c, p, versioned), p, End(c, p), q);
      LeTransitive(p, End(c, p), q);
      ChunksWithin(chunks[1..], q, versioned);
      DistinctJoin(Program(c, p, versioned), ChunkPrograms(chunks[1..], q, versioned), p, q, PastAll(chunks, p));
      LeTransitive(p, q, PastAll(chunks, p));
    }
  }

  lemma {:induction false} ProgramJoin(a: seq<Def>, b: seq<Def>, p: Pos, versioned: bool)
    ensures Program(a + b, p, versioned) == Program(a, p, versioned) + Program(b, End(a, p), versioned)
    decreases |a|
  {
    hide StoresOf, After;
    if a == [] {
      assert a + b == b;
    } else {
      assert (a + b)[1..] == a[1..] + b && (a + b)[0] == a[0];
      ProgramJoin(a[1..], b, After(a[0], p), versioned);
    }
  }

  /** The symbol and string stores do not depend on the version slot. */
  lemma {:induction false} SameButVersions(defs: seq<Def>, p: Pos, v: nat, versioned: bool, s: Store)
    requires !s.loc.VerAt?
    ensures s in Program(defs, p, versioned) <==> s in Program(defs, p.(ver := v), versioned)
    decreases |defs|
  {
    hide BytesAt;
    if defs != [] {
      SameButVersions(defs[1..], After(defs[0], p), After(defs[0], p.(ver := v)).ver, versioned, s);
      OneSameButVersions(defs[0], p, v, versioned, s);
      assert After(defs[0], p).(ver := After(defs[0], p.(ver := v)).ver) == After(defs[0], p.(ver := v));
    }
  }

  lemma {:induction false} OneSameButVersions(d: Def, p: Pos, v: nat, versioned: bool, s: Store)
    requires !s.loc.VerAt?
    ensures s in StoresOf(d, p, versioned) <==> s in StoresOf(d, p.(ver := v), versioned)
  {
    hide BytesAt;
  }

  /** All chunks together store the same symbols and strings as one sequential writer, and, when no definition comes
      from a linker script, exactly the same stores. */
  lemma {:induction false} ChunksAreSequential(defs: seq<Def>, size: nat, p: Pos, versioned: bool, s: Store)
    requires size > 0
    requires !s.loc.VerAt? || NoScript(defs)
    ensures s in ChunkPrograms(Chunks(defs, size), p, versioned) <==> s in Program(defs, p, versioned)
    decreases |defs|
  {
    hide Program, End, Past;
    if defs == [] {
      NothingToDo(p, versioned);
    } else if |defs| <= size {
      assert [defs][1..] == [];
    } else {
      var c, rest := defs[..size], defs[size..];
      assert defs == c + rest;
      ProgramJoin(c, rest, p, versioned);
      EndIsPast(c, p);
      ChunksAreSequential(rest, size, Past(c, p), versioned, s);
      if s.loc.VerAt? {
        assert NoScript(c);
      } else {
        SameButVersions(rest, Past(c, p), End(c, p).ver, versioned, s);
      }
    }
  }

  lemma {:induction false} NothingToDo(p: Pos, versioned: bool)
    ensures Program([], p, versioned) == []
  {
  }

  // ---------------------------------------------------------------- schedules

  lemma {:induction false} CountOfOne(stores: seq<Store>, k: nat)
    requires Distinct(stores) && k < |stores|
    ensures multiset(stores)[stores[k]] == 1
  {
    assert stores == stores[..k] + [stores[k]] + stores[k + 1..];
    assert stores[k] !in stores[..k] && stores[k] !in stores[k + 1..];
  }

  lemma {:induction false} CountOfTwo(stores: seq<Store>, i: nat, j: nat)
    requires i < j < |stores| && stores[i] == stores[j]
    ensures multiset(stores)[stores[i]] >= 2
  {
    assert stores == stores[..i] + [stores[i]] + stores[i + 1..];
    assert stores[i + 1..][j - i - 1] == stores[j];
    assert stores[i] in multiset(stores[i + 1..]);
  }

  lemma {:induction false} ReorderedIsDistinct(stores: seq<Store>, run: seq<Store>)
    requires Distinct(stores) && multiset(run) == multiset(stores)
    ensures Distinct(run)
  {
    forall i, j | 0 <= i < j < |run| ensures run[i].loc != run[j].loc {
      assert run[i] in multiset(stores) && run[j] in multiset(stores);
      var k :| 0 <= k < |stores| && stores[k] == run[i];
      var l :| 0 <= l < |stores| && stores[l] == run[j];
      CountOfOne(stores, k);
      if k == l {
        CountOfTwo(run, i, j);
        assert false;
      }
    }
  }

  lemma {:induction false} ReorderedHasSame(stores: seq<Store>, run: seq<Store>, s: Store)
    requires multiset(run) == multiset(stores)
    ensures s in run <==> s in stores
  {
    assert s in run <==> s in multiset(run);
    assert s in stores <==> s in multiset(stores);
  }

  /** Whatever the chunk size, and in whatever order the stores of the chunk writers take effect, `.dynsym` and `.dynstr`
      end as one sequential writer leaves them; so does `.gnu.version` when no definition comes from a linker script. */
  lemma {:induction false} AnyScheduleIsSequential(defs: seq<Def>, size: nat, p: Pos, versioned: bool, m: Memory, run: seq<Store>, loc: Loc)
    requires size > 0 && multiset(run) == multiset(ChunkPrograms(Chunks(defs, size), p, versioned))
    requires !loc.VerAt? || NoScript(defs)
    ensures AgreeAt(PutAll(m, run), PutAll(m, Program(defs, p, versioned)), loc)
  {
    hide PutAll, Program, ChunkPrograms, Chunks, Distinct, Within, Le;
    var chunked, sequential := ChunkPrograms(Chunks(defs, size), p, versioned), Program(defs, p, versioned);
    ChunksWithin(Chunks(defs, size), p, versioned);
    ReorderedIsDistinct(chunked, run);
    ProgramWithin(defs, p, versioned);
    forall s: Store | s.loc == loc ensures s in run <==> s in sequential {
      ReorderedHasSame(chunked, run, s);
      ChunksAreSequential(defs, size, p, versioned, s);
    }
    SameStoresAgree(m, run, sequential, loc);
  }

  // ---------------------------------------------------------------- what the sections hold

  lemma {:induction false} StrSizeStep(defs: seq<Def>, i: nat)
    requires 0 < i <= |defs|
    ensures StrSize(defs[..i]) == |defs[0].name| + 1 + StrSize(defs[1..][..i - 1])
  {
    assert defs[..i][1..] == defs[1..][..i - 1];
  }

  /** The symbol store for definition `i`. */
  lemma {:induction false} EntryIsStored(defs: seq<Def>, p: Pos, versioned: bool, i: nat)
    requires i < |defs|
    ensures Store(SymAt(p.sym + i), SymCell(Entry(p.offset + StrSize(defs[..i]), defs[i].symbol))) in Program(defs, p, versioned)
    decreases i
  {
    hide StrSize, BytesAt;
    if i == 0 {
      NoStrings(defs);
      var first := StoresOf(defs[0], p, versioned);
      assert first[|defs[0].name| + 1] == Store(SymAt(p.sym), SymCell(Entry(p.offset, defs[0].symbol)));
    } else {
      hide StoresOf;
      EntryIsStored(defs[1..], After(defs[0], p), versioned, i - 1);
      StrSizeStep(defs, i);
    }
  }

  /** The store of byte `k` of the terminated name of definition `i`. */
  lemma {:induction false} NameIsStored(defs: seq<Def>, p: Pos, versioned: bool, i: nat, k: nat)
    requires i < |defs| && k <= |defs[i].name|
    ensures Store(StrAt(p.str + StrSize(defs[..i]) + k), StrCell(Terminated(defs[i].name)[k])) in Program(defs, p, versioned)
    decreases i
  {
    hide StrSize, Terminated;
    if i == 0 {
      NoStrings(defs);
      var first := StoresOf(defs[0], p, versioned);
      assert first[k] == Store(StrAt(p.str + k), StrCell(Terminated(defs[0].name)[k]));
    } else {
      hide StoresOf;
      NameIsStored(defs[1..], After(defs[0], p), versioned, i - 1, k);
      StrSizeStep(defs, i);
    }
  }

  lemma {:induction false} NoStrings(defs: seq<Def>)
    ensures StrSize(defs[..0]) == 0
  {
  }

  lemma {:induction false} StoreHolds(m: Memory, stores: seq<Store>, s: Store)
    requires Distinct(stores) && s in stores
    ensures s.loc in PutAll(m, stores) && PutAll(m, stores)[s.loc] == s.cell
  {
    var k :| 0 <= k < |stores| && stores[k] == s;
    ReadsBack(m, stores, k);
  }

  predicate ByteAt(m: Memory, at: nat, name: Name, k: nat)
    requires k <= |name|
  {
    StrAt(at + k) in m && m[StrAt(at + k)] == StrCell(Terminated(name)[k])
  }

  /** The name and its terminator are at `at`. */
  predicate NameAt(m: Memory, at: nat, name: Name) { forall k :: 0 <= k <= |name| ==> ByteAt(m, at, name, k) }

  /** After any schedule, entry `i` holds definition `i`, and its name offset is that of its NUL-terminated name. */
  lemma {:induction false} NamesResolve(defs: seq<Def>, size: nat, p: Pos, versioned: bool, m: Memory, run: seq<Store>, i: nat)
    requires size > 0 && multiset(run) == multiset(ChunkPrograms(Chunks(defs, size), p, versioned)) && i < |defs|
    ensures var after := PutAll(m, run);
            var at := StrSize(defs[..i]);
            && SymAt(p.sym + i) in after && after[SymAt(p.sym + i)] == SymCell(Entry(p.offset + at, defs[i].symbol))
            && NameAt(after, p.str + at, defs[i].name)
  {
    hide PutAll, Program, ChunkPrograms, Chunks, Distinct, Within, Le, StrSize, Terminated;
    EntryIsStored(defs, p, versioned, i);
    ProgramWithin(defs, p, versioned);
    var at := StrSize(defs[..i]);
    var one := Store(SymAt(p.sym + i), SymCell(Entry(p.offset + at, defs[i].symbol)));
    StoreHolds(m, Program(defs, p, versioned), one);
    AnyScheduleIsSequential(defs, size, p, versioned, m, run, one.loc);
    var after, start, name := PutAll(m, run), p.str + at, defs[i].name;
    forall k | 0 <= k <= |name| ensures ByteAt(after, start, name, k)
    {
      var s := Store(StrAt(p.str + at + k), StrCell(Terminated(defs[i].name)[k]));
      NameIsStored(defs, p, versioned, i, k);
      StoreHolds(m, Program(defs, p, versioned), s);
      AnyScheduleIsSequential(defs, size, p, versioned, m, run, s.loc);
    }
  }

  // ---------------------------------------------------------------- version slots

  /** The slot, counted from the first, that receives the version of definition `i`. */
  function SlotOf(defs: seq<Def>, size: nat, i: nat): nat
    requires size > 0 && i < |defs|
    decreases i
  {
    if i < size then Versions(defs[..i]) else size + SlotOf(defs[size..], size, i - size)
  }

  function Versions(defs: seq<Def>): (n: nat)
    ensures n <= |defs|
    ensures n == |defs| <==> NoScript(defs)
  {
    if defs == [] then 0 else (if defs[0].version.Some? then 1 else 0) + Versions(defs[1..])
  }

  lemma {:induction false} EndVersion(defs: seq<Def>, p: Pos)
    ensures End(defs, p).ver == p.ver + Versions(defs)
    decreases |defs|
  {
    if defs != [] {
      EndVersion(defs[1..], After(defs[0], p));
    }
  }

  lemma {:induction false} VersionInProgram(defs: seq<Def>, p: Pos, i: nat)
    requires i < |defs| && defs[i].version.Some?
    ensures Store(VerAt(p.ver + Versions(defs[..i])), VerCell(defs[i].version.value)) in Program(defs, p, true)
  {
    hide BytesAt, Versions, End, After;
    EndVersion(defs[..i], p);
    assert defs == defs[..i] + defs[i..];
    ProgramJoin(defs[..i], defs[i..], p, true);
    var q := End(defs[..i], p);
    var s := Store(VerAt(q.ver), VerCell(defs[i].version.value));
    var here := StoresOf(defs[i], q, true);
    assert here[|here| - 1] == s;
    assert s in Program(defs[i..], q, true);
  }

  /** The version of a definition is stored at its slot. */
  lemma {:induction false} VersionIsAtSlot(defs: seq<Def>, size: nat, p: Pos, i: nat)
    requires size > 0 && i < |defs| && defs[i].version.Some?
    ensures Store(VerAt(p.ver + SlotOf(defs, size, i)), VerCell(defs[i].version.value))
            in ChunkPrograms(Chunks(defs, size), p, true)
    decreases i
  {
    hide Program, Versions;
    if |defs| <= size {
      VersionInProgram(defs, p, i);
    } else if i < size {
      var c := defs[..size];
      assert c[..i] == defs[..i];
      VersionInProgram(c, p, i);
    } else {
      VersionIsAtSlot(defs[size..], size, Past(defs[..size], p), i - size);
    }
  }

  /** The index of the first definition of the chunk of definition `i`. */
  function ChunkStart(size: nat, i: nat): (start: nat)
    requires size > 0
    ensures start <= i < start + size
  {
    if i < size then 0 else size + ChunkStart(size, i - size)
  }

  /** A definition's version lands in its own slot if and only if no definition before it in its chunk comes from a
      linker script. */
  lemma {:induction false} SlotIsOwn(defs: seq<Def>, size: nat, i: nat)
    requires size > 0 && i < |defs|
    ensures SlotOf(defs, size, i) == i <==> NoScript(defs[ChunkStart(size, i)..i])
    decreases i
  {
    if i >= size {
      var start := ChunkStart(size, i - size);
      SlotIsOwn(defs[size..], size, i - size);
      assert defs[size..][start..i - size] == defs[size + start..i];
    }
  }

  /** A linker-script definition followed by one with version 2: the version is stored in the first slot. */
  lemma {:induction false} ScriptShiftsItsNeighbour(a: Symbol, b: Symbol, p: Pos)
    ensures var defs := [Def([], a, None), Def([], b, Some(2))];
            && SlotOf(defs, 10, 1) == 0
            && Store(VerAt(p.ver), VerCell(2)) in ChunkPrograms(Chunks(defs, 10), p, true)
  {
    var defs := [Def([], a, None), Def([], b, Some(2))];
    assert defs[..1] == [defs[0]] && [defs[0]][1..] == [];
    VersionIsAtSlot(defs, 10, p, 1);
  }

  // ---------------------------------------------------------------- the writers

  /** The output sections, shared by all writers. */
  class Sections {
    var cells: Memory

    constructor (cells: Memory)
      ensures this.cells == cells
    {
      this.cells := cells;
    }
  }

  lemma {:induction false} PutJoin(m: Memory, a: seq<Store>, b: seq<Store>)
    ensures PutAll(m, a + b) == PutAll(PutAll(m, a), b)
    decreases |b|
  {
    if b == [] {
      assert a + b == a;
    } else {
      assert (a + b)[..|a + b| - 1] == a + b[..|b| - 1];
      PutJoin(m, a, b[..|b| - 1]);
    }
  }

  /** A writer's part of the sections: the next and the last place in each. */
  class DynsymWriter {
    const out: Sections
    const versioned: bool
    var at: Pos
    var end: Pos

    constructor (out: Sections, versioned: bool, at: Pos, end: Pos)
      ensures this.out == out && this.versioned == versioned && this.at == at && this.end == end
    {
      this.out := out;
      this.versioned := versioned;
      this.at := at;
      this.end := end;
    }

    /** `StrTabWriter::write_str`: returns the offset of the string. */
    method WriteStr(s: Name) returns (ok: bool, offset: nat)
      modifies this`at, out
      ensures ok <==> old(at).str + |s| < old(end).str
      ensures ok ==> offset == old(at).offset
                     && at == old(at).(str := old(at).str + |s| + 1, offset := old(at).offset + |s| + 1)
                     && out.cells == PutAll(old(out.cells), BytesAt(old(at).str, Terminated(s)))
      ensures !ok ==> at == old(at)
    {
      hide PutAll;
      offset := at.offset;
      ok := at.str + |s| < end.str;
      if ok {
        ghost var was := out.cells;
        var bytes := Terminated(s);
        ghost var stores := BytesAt(at.str, bytes);
        NothingPut(was);
        assert stores[..0] == [];
        for k := 0 to |bytes|
          modifies out
          invariant out.cells == PutAll(was, stores[..k])
        {
          PutOne(was, stores, k);
          out.cells := out.cells[StrAt(at.str + k) := StrCell(bytes[k])];
        }
        assert stores[..|bytes|] == stores;
        at := at.(str := at.str + |s| + 1, offset := at.offset + |s| + 1);
      }
    }

    /** The entry and the version word of one definition. */
    method WriteDefinition(d: Def) returns (ok: bool)
      modifies this`at, out
      ensures ok <==> InPart(SymAt(old(at).sym), old(at), old(end)) && old(at).str + |d.name| < old(end).str
                      && (versioned && d.version.Some? ==> old(at).ver < old(end).ver)
      ensures ok ==> out.cells == PutAll(old(out.cells), StoresOf(d, old(at), versioned)) && at == After(d, old(at))
    {
      hide PutAll;
      if at.sym >= end.sym {
        return false;
      }
      ghost var p, m0 := at, out.cells;
      var offset;
      ok, offset := WriteStr(d.name);
      if !ok {
        return;
      }
      ghost var bytes := BytesAt(p.str, Terminated(d.name));
      ghost var entry := [Store(SymAt(p.sym), SymCell(Entry(p.offset, d.symbol)))];
      ghost var m1 := out.cells;
      out.cells := out.cells[SymAt(at.sym) := SymCell(Entry(offset, d.symbol))];
      at := at.(sym := at.sym + 1);
      PutJoin(m0, bytes, entry);
      PutSingle(m1, entry[0]);
      ghost var m2 := out.cells;
      if d.version.Some? {
        if versioned {
          if at.ver >= end.ver {
            return false;
          }
          out.cells := out.cells[VerAt(at.ver) := VerCell(d.version.value)];
          PutSingle(m2, Store(VerAt(p.ver), VerCell(d.version.value)));
        }
        at := at.(ver := at.ver + 1);
      }
      ghost var version := if versioned && d.version.Some? then [Store(VerAt(p.ver), VerCell(d.version.value))] else [];
      NothingPut(m2);
      PutJoin(m0, bytes + entry, version);
    }
  }

  /** Room for `take_dynsym_prefix`. Without a version table only the other two sections matter. */
  predicate HasRoom(defs: seq<Def>, at: Pos, end: Pos, versioned: bool) {
    var past := Past(defs, at);
    past.sym <= end.sym && past.str <= end.str && (versioned ==> past.ver <= end.ver)
  }

  lemma {:induction false} RoomForFirst(defs: seq<Def>, at: Pos, end: Pos, versioned: bool)
    requires defs != [] && HasRoom(defs, at, end, versioned)
    ensures at.sym < end.sym && at.str + |defs[0].name| < end.str && (versioned ==> at.ver < end.ver)
    ensures HasRoom(defs[1..], After(defs[0], at), end, versioned)
  {
  }

  /** One writer's loop over its definitions. */
  method WriteAll(w: DynsymWriter, defs: seq<Def>)
    requires HasRoom(defs, w.at, w.end, w.versioned)
    modifies w`at, w.out
    ensures w.out.cells == PutAll(old(w.out.cells), Program(defs, old(w.at), w.versioned))
    ensures w.at == End(defs, old(w.at))
  {
    hide PutAll, StoresOf, After, HasRoom;
    ghost var m0, p := w.out.cells, w.at;
    var i := 0;
    assert defs[0..] == defs;
    NothingPut(m0);
    ghost var done: seq<Store> := [];
    while i < |defs|
      modifies w`at, w.out
      invariant i <= |defs| && HasRoom(defs[i..], w.at, w.end, w.versioned)
      invariant w.out.cells == PutAll(m0, done)
      invariant done + Program(defs[i..], w.at, w.versioned) == Program(defs, p, w.versioned)
      invariant End(defs[i..], w.at) == End(defs, p)
    {
      ghost var q := w.at;
      RoomForFirst(defs[i..], q, w.end, w.versioned);
      assert defs[i..][0] == defs[i] && defs[i..][1..] == defs[i + 1..];
      var ok := w.WriteDefinition(defs[i]);
      PutJoin(m0, done, StoresOf(defs[i], q, w.versioned));
      done := done + StoresOf(defs[i], q, w.versioned);
      i := i + 1;
    }
    assert defs[i..] == [] && done + [] == done;
  }

  /** `take_dynsym_prefix`: a writer for the next part, just large enough for `defs`. */
  method TakePrefix(w: DynsymWriter, defs: seq<Def>) returns (c: DynsymWriter)
    requires HasRoom(defs, w.at, w.end, w.versioned)
    modifies w`at
    ensures fresh(c) && c.out == w.out && c.versioned == w.versioned
    ensures c.at == old(w.at) && c.end == Past(defs, old(w.at)) && w.at == Past(defs, old(w.at))
  {
    var strSize := 0;
    assert defs[0..] == defs;
    for i := 0 to |defs|
      invariant strSize + StrSize(defs[i..]) == StrSize(defs)
    {
      strSize := strSize + |defs[i].name| + 1;
      assert defs[i..][1..] == defs[i + 1..];
    }
    var p := w.at;
    var q := Pos(p.sym + |defs|, p.str + strSize, p.offset + strSize, p.ver + |defs|);
    c := new DynsymWriter(w.out, w.versioned, p, q);
    w.at := q;
  }

  lemma {:induction false} StrSizeJoin(a: seq<Def>, b: seq<Def>)
    ensures StrSize(a + b) == StrSize(a) + StrSize(b)
    decreases |a|
  {
    if a == [] {
      assert a + b == b;
    } else {
      assert (a + b)[1..] == a[1..] + b && (a + b)[0] == a[0];
      StrSizeJoin(a[1..], b);
    }
  }

  lemma {:induction false} RoomForChunk(defs: seq<Def>, n: nat, at: Pos, end: Pos, versioned: bool)
    requires n <= |defs| && HasRoom(defs, at, end, versioned)
    ensures HasRoom(defs[..n], at, end, versioned) && HasRoom(defs[n..], Past(defs[..n], at), end, versioned)
    ensures Past(defs[n..], Past(defs[..n], at)) == Past(defs, at)
  {
    assert defs == defs[..n] + defs[n..];
    StrSizeJoin(defs[..n], defs[n..]);
  }

  lemma {:induction false} OwnRoom(defs: seq<Def>, at: Pos, versioned: bool)
    ensures HasRoom(defs, at, Past(defs, at), versioned)
  {
  }

  /** `write_dynamic_symbol_definitions`, the chunks in their own order. */
  method WriteDefinitions(w: DynsymWriter, defs: seq<Def>, threads: nat)
    requires threads > 0 && HasRoom(defs, w.at, w.end, w.versioned)
    modifies w`at, w.out
    ensures w.at == Past(defs, old(w.at))
    ensures w.out.cells == PutAll(old(w.out.cells),
                                  ChunkPrograms(Chunks(defs, ChunkSize(|defs|, threads)), old(w.at), w.versioned))
  {
    hide PutAll, HasRoom, Program, Past, ChunkSize, End;
    var size := ChunkSize(|defs|, threads);
    ghost var m0, p := w.out.cells, w.at;
    ghost var all := ChunkPrograms(Chunks(defs, size), p, w.versioned);
    ghost var done: seq<Store> := [];
    NothingPut(m0);
    NoneLeft(w.at);
    var rest := defs;
    while rest != []
      modifies w`at, w.out
      invariant HasRoom(rest, w.at, w.end, w.versioned) && Past(rest, w.at) == Past(defs, p)
      invariant w.out.cells == PutAll(m0, done)
      invariant done + ChunkPrograms(Chunks(rest, size), w.at, w.versioned) == all
      decreases |rest|
    {
      var n := if |rest| <= size then |rest| else size;
      var chunk := rest[..n];
      ghost var q := w.at;
      RoomForChunk(rest, n, q, w.end, w.versioned);
      FirstChunk(rest, size, q, w.versioned);
      var c := TakePrefix(w, chunk);
      OwnRoom(chunk, q, w.versioned);
      WriteAll(c, chunk);
      PutJoin(m0, done, Program(chunk, q, w.versioned));
      done := done + Program(chunk, q, w.versioned);
      rest := rest[n..];
    }
    assert done + [] == done;
    NoneLeft(w.at);
  }

  lemma {:induction false} NoneLeft(p: Pos)
    ensures Past([], p) == p
  {
  }

  lemma {:induction false} FirstChunk(rest: seq<Def>, size: nat, q: Pos, versioned: bool)
    requires rest != [] && size > 0
    ensures var n := if |rest| <= size then |rest| else size;
            ChunkPrograms(Chunks(rest, size), q, versioned)
            == Program(rest[..n], q, versioned) + ChunkPrograms(Chunks(rest[n..], size), Past(rest[..n], q), versioned)
  {
    hide Program, Past;
    if |rest| <= size {
      assert rest[..|rest|] == rest && [rest][1..] == [];
    }
  }

  lemma {:induction false} NothingPut(m: Memory)
    ensures PutAll(m, []) == m
  {
  }

  lemma {:induction false} PutSingle(m: Memory, s: Store)
    ensures PutAll(m, [s]) == m[s.loc := s.cell]
  {
    assert [s][..0] == [];
  }

  lemma {:induction false} PutOne(m: Memory, stores: seq<Store>, k: nat)
    requires k < |stores|
    ensures PutAll(m, stores[..k + 1]) == PutAll(m, stores[..k])[stores[k].loc := stores[k].cell]
  {
    assert stores[..k + 1][..k] == stores[..k];
  }
}
