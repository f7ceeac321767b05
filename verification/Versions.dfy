/** Symbol versions: which versions of which shared object are needed, the indexes they get, and what is written. */
module Versions {
  import opened Bytes
  import opened Sets

  type Name = seq<Byte>

  const VER_NDX_GLOBAL: nat := 1
  /** One more than the mask `VERSYM_VERSION`: the version of a word is its remainder. */
  const VERSYM_MODULUS: nat := 0x8000
  const U16: nat := 0x1_0000

  /** A version definition of a shared object. The base definition names the object itself. */
  datatype Verdef = Verdef(index: nat, isBase: bool, name: Option<Name>)

  /** A shared object: its version definitions, the version word of each symbol, and the symbols the link loads. */
  datatype Library = Library(libName: Name, verdefs: seq<Verdef>, versym: seq<nat>, used: seq<nat>)

  /** `versym & VERSYM_VERSION`: the hidden bit does not count. */
  function VersionOf(word: nat): nat { word % VERSYM_MODULUS }

  /** Distinct definition indexes 1, 2, ... of which 1 is the base. */
  predicate WellFormed(l: Library) {
    && (forall i :: 0 <= i < |l.verdefs| ==> 1 <= l.verdefs[i].index <= |l.verdefs|)
    && (forall i :: 0 <= i < |l.verdefs| ==> (l.verdefs[i].isBase <==> l.verdefs[i].index == VER_NDX_GLOBAL))
    && (forall i, j :: 0 <= i < j < |l.verdefs| ==> l.verdefs[i].index != l.verdefs[j].index)
  }

  /** The version of the `i`-th loaded symbol, or 0 when it has no version word. */
  function UsedVersion(l: Library, i: nat): nat
    requires i < |l.used|
  {
    if l.used[i] < |l.versym| then VersionOf(l.versym[l.used[i]]) else 0
  }

  predicate IsNeeded(l: Library, version: nat, upto: nat)
    requires upto <= |l.used|
  {
    version > VER_NDX_GLOBAL && exists i :: 0 <= i < upto && UsedVersion(l, i) == version
  }

  function NeededOf(l: Library): (s: seq<bool>)
    ensures |s| == |l.verdefs|
  {
    seq(|l.verdefs|, k requires 0 <= k < |l.verdefs| => IsNeeded(l, k + 1, |l.used|))
  }

  predicate VersionsExist(l: Library) {
    forall i :: 0 <= i < |l.used| ==> UsedVersion(l, i) <= |l.verdefs| || UsedVersion(l, i) <= VER_NDX_GLOBAL
  }

  /** `dynamic_symbol_used`, for every loaded symbol. Fails on a version that is not defined. */
  method MarkNeeded(l: Library) returns (needed: Option<seq<bool>>)
    ensures needed == if VersionsExist(l) then Some(NeededOf(l)) else None
  {
    var marks := seq(|l.verdefs|, _ => false);
    for i := 0 to |l.used|
      invariant |marks| == |l.verdefs|
      invariant forall k :: 0 <= k < |marks| ==> marks[k] == IsNeeded(l, k + 1, i)
      invariant forall j :: 0 <= j < i ==> UsedVersion(l, j) <= |l.verdefs| || UsedVersion(l, j) <= VER_NDX_GLOBAL
    {
      ghost var was := marks;
      var version := UsedVersion(l, i);
      if version > VER_NDX_GLOBAL {
        if version - 1 >= |marks| {
          return None;
        }
        marks := marks[version - 1 := true];
      }
      forall k | 0 <= k < |marks| ensures marks[k] == IsNeeded(l, k + 1, i + 1) {
        NeededMore(l, k + 1, i);
      }
    }
    assert marks == NeededOf(l);
    needed := Some(marks);
  }

  lemma {:induction false} NeededMore(l: Library, version: nat, i: nat)
    requires i < |l.used|
    ensures IsNeeded(l, version, i + 1) <==> IsNeeded(l, version, i) || (version > VER_NDX_GLOBAL && UsedVersion(l, i) == version)
  {
  }

  function CountTrue(s: seq<bool>): (n: nat)
    ensures n <= |s|
  {
    if s == [] then 0 else CountTrue(s[..|s| - 1]) + (if s[|s| - 1] then 1 else 0)
  }

  /** The non-base definitions among the first `n` that are needed. */
  function CountDefs(defs: seq<Verdef>, needed: seq<bool>, n: nat): (c: nat)
    requires n <= |defs|
    ensures c <= n
  {
    if n == 0 then 0
    else CountDefs(defs, needed, n - 1) + (if IsKept(defs[n - 1], needed) then 1 else 0)
  }

  predicate IsKept(d: Verdef, needed: seq<bool>) {
    !d.isBase && 1 <= d.index <= |needed| && needed[d.index - 1]
  }

  // ---------------------------------------------------------------- the count is the number of marks

  lemma {:induction false} MarksAsSet(s: seq<bool>)
    returns (t: set<nat>)
    ensures forall k :: k in t <==> 1 <= k <= |s| && s[k - 1]
    ensures |t| == CountTrue(s)
    decreases |s|
  {
    if s == [] {
      t := {};
    } else {
      var rest := s[..|s| - 1];
      t := MarksAsSet(rest);
      if s[|s| - 1] {
        assert |s| !in t;
        t := t + {|s|};
      }
    }
  }

  lemma {:induction false} KeptAsSet(defs: seq<Verdef>, needed: seq<bool>, n: nat)
    returns (t: set<nat>)
    requires n <= |defs|
    requires forall i, j :: 0 <= i < j < |defs| ==> defs[i].index != defs[j].index
    ensures forall k :: k in t <==> exists i :: 0 <= i < n && IsKept(defs[i], needed) && defs[i].index == k
    ensures |t| == CountDefs(defs, needed, n)
    decreases n
  {
    if n == 0 {
      t := {};
    } else {
      var d := defs[n - 1];
      t := KeptAsSet(defs, needed, n - 1);
      if IsKept(d, needed) {
        assert d.index !in t;
        ghost var was := t;
        t := t + {d.index};
      }
    }
  }

  function Upto(n: nat): (s: set<nat>)
    ensures forall k :: k in s <==> 1 <= k <= n
    ensures |s| == n
  {
    if n == 0 then {} else Upto(n - 1) + {n}
  }

  lemma {:induction false} IndexesAsSet(defs: seq<Verdef>, n: nat)
    returns (t: set<nat>)
    requires n <= |defs|
    requires forall i, j :: 0 <= i < j < |defs| ==> defs[i].index != defs[j].index
    ensures forall k :: k in t <==> exists i :: 0 <= i < n && defs[i].index == k
    ensures |t| == n
    decreases n
  {
    if n == 0 {
      t := {};
    } else {
      t := IndexesAsSet(defs, n - 1);
      assert defs[n - 1].index !in t;
      t := t + {defs[n - 1].index};
    }
  }

  /** Every index from 1 on has a definition. */
  lemma {:induction false} EveryVersionDefined(l: Library, version: nat) returns (i: nat)
    requires WellFormed(l) && 1 <= version <= |l.verdefs|
    ensures i < |l.verdefs| && l.verdefs[i].index == version
  {
    var all := IndexesAsSet(l.verdefs, |l.verdefs|);
    FullSubset(all, Upto(|l.verdefs|));
    assert version in all;
    i :| 0 <= i < |l.verdefs| && l.verdefs[i].index == version;
  }

  /** Counting definitions and counting marks agree: the reserved index range is exactly the range assigned. */
  lemma {:induction false} CountsAgree(l: Library)
    requires WellFormed(l)
    ensures CountDefs(l.verdefs, NeededOf(l), |l.verdefs|) == CountTrue(NeededOf(l))
  {
    hide CountDefs, CountTrue, NeededOf;
    var needed := NeededOf(l);
    var a := KeptAsSet(l.verdefs, needed, |l.verdefs|);
    var b := MarksAsSet(needed);
    forall k | k in b ensures k in a {
      var i := EveryVersionDefined(l, k);
      BaseIsNotNeeded(l, k);
      assert IsKept(l.verdefs[i], needed);
    }
    assert a == b;
  }

  lemma {:induction false} BaseIsNotNeeded(l: Library, k: nat)
    requires 1 <= k <= |l.verdefs| && NeededOf(l)[k - 1]
    ensures k > VER_NDX_GLOBAL
  {
  }

  // ---------------------------------------------------------------- sizes

  const VERNEED_SIZE: nat := 16
  const VERNAUX_SIZE: nat := 16

  /** What `finalise_sizes_dynamic` reserves for one object. */
  datatype Sizes = Sizes(count: nat, dynstr: nat, versionR: nat)

  /** The bytes of the names of the kept definitions among the first `n`, terminators included. */
  function KeptNameBytes(defs: seq<Verdef>, needed: seq<bool>, n: nat): nat
    requires n <= |defs|
  {
    if n == 0 then 0
    else KeptNameBytes(defs, needed, n - 1)
         + (if IsKept(defs[n - 1], needed) && defs[n - 1].name.Some? then |defs[n - 1].name.value| + 1 else 0)
  }

  predicate NamesExist(defs: seq<Verdef>, needed: seq<bool>, n: nat)
    requires n <= |defs|
  {
    forall i :: 0 <= i < n && IsKept(defs[i], needed) ==> defs[i].name.Some?
  }

  function SizesOf(l: Library): Sizes {
    var needed := NeededOf(l);
    var count := CountTrue(needed);
    Sizes(count, KeptNameBytes(l.verdefs, needed, |l.verdefs|) + (if count > 0 then |l.libName| + 1 else 0),
          if count > 0 then VERNEED_SIZE + count * VERNAUX_SIZE else 0)
  }

  /** `finalise_sizes_dynamic`. Fails when a needed definition has no name. */
  method FinaliseSizes(l: Library, needed: seq<bool>) returns (sizes: Option<Sizes>)
    requires WellFormed(l) && needed == NeededOf(l)
    ensures sizes == if NamesExist(l.verdefs, needed, |l.verdefs|) then Some(SizesOf(l)) else None
  {
    hide NeededOf, CountTrue;
    var count, names, baseSize := 0, 0, 0;
    var n := |l.verdefs|;
    for i := 0 to n
      invariant count == CountDefs(l.verdefs, needed, i) && names == KeptNameBytes(l.verdefs, needed, i)
      invariant NamesExist(l.verdefs, needed, i)
      invariant baseSize == if exists j :: 0 <= j < i && l.verdefs[j].isBase then |l.libName| + 1 else 0
    {
      var d := l.verdefs[i];
      if d.isBase {
        baseSize := |l.libName| + 1;
      } else if needed[d.index - 1] {
        assert IsKept(d, needed);
        if d.name.None? {
          return None;
        }
        names := names + |d.name.value| + 1;
        count := count + 1;
      }
    }
    CountsAgree(l);
    if count > 0 {
      var base := EveryVersionDefined(l, VER_NDX_GLOBAL);
      sizes := Some(Sizes(count, names + baseSize, VERNEED_SIZE + count * VERNAUX_SIZE));
    } else {
      sizes := Some(Sizes(0, names, 0));
    }
  }

  // ---------------------------------------------------------------- output indexes

  /** `NonAddressableIndexes::new`: after the local and global indexes and the versions a version script defines. */
  function FirstIndex(scriptVersions: nat): nat { VER_NDX_GLOBAL + (if scriptVersions > 1 then scriptVersions else 1) }

  /** The index of each definition `write_verdef` writes. */
  function VerdefIndex(i: nat): nat { i + VER_NDX_GLOBAL }

  function MappingOf(needed: seq<bool>, next: nat): (m: seq<nat>)
    ensures |m| == |needed|
  {
    seq(|needed|, k requires 0 <= k < |needed| => if needed[k] then next + CountTrue(needed[..k]) else VER_NDX_GLOBAL)
  }

  /** `compute_version_mapping`. */
  method ComputeVersionMapping(needed: seq<bool>, next: nat) returns (mapping: seq<nat>)
    ensures mapping == MappingOf(needed, next)
  {
    hide CountTrue;
    mapping := seq(|needed|, _ => VER_NDX_GLOBAL);
    var output := next;
    CountNone();
    assert needed[..0] == [];
    for k := 0 to |needed|
      invariant |mapping| == |needed| && output == next + CountTrue(needed[..k])
      invariant forall j :: 0 <= j < k ==> mapping[j] == MappingOf(needed, next)[j]
      invariant forall j :: k <= j < |needed| ==> mapping[j] == VER_NDX_GLOBAL
    {
      CountNext(needed, k);
      if needed[k] {
        mapping := mapping[k := output];
        output := output + 1;
      }
    }
  }

  lemma {:induction false} CountNone()
    ensures CountTrue([]) == 0
  {
  }

  lemma {:induction false} CountNext(needed: seq<bool>, k: nat)
    requires k < |needed|
    ensures CountTrue(needed[..k + 1]) == CountTrue(needed[..k]) + (if needed[k] then 1 else 0)
  {
    assert needed[..k + 1][..k] == needed[..k];
  }

  lemma {:induction false} CountGrows(needed: seq<bool>, j: nat, k: nat)
    requires j <= k <= |needed|
    ensures CountTrue(needed[..j]) <= CountTrue(needed[..k])
    decreases k
  {
    hide CountTrue;
    if j < k {
      CountGrows(needed, j, k - 1);
      CountNext(needed, k - 1);
    }
  }

  /** Needed versions get distinct indexes of the object's own range. */
  lemma {:induction false} MappingIsInjective(needed: seq<bool>, next: nat, j: nat, k: nat)
    requires j < |needed| && k < |needed| && needed[j] && needed[k]
    ensures next <= MappingOf(needed, next)[j] < next + CountTrue(needed)
    ensures MappingOf(needed, next)[j] == MappingOf(needed, next)[k] ==> j == k
  {
    hide CountTrue;
    CountNext(needed, j);
    CountNext(needed, k);
    CountGrows(needed, j + 1, |needed|);
    assert needed[..|needed|] == needed;
    if j < k { CountGrows(needed, j + 1, k); }
    if k < j { CountGrows(needed, k + 1, j); }
  }

  // ---------------------------------------------------------------- writing

  datatype Vernaux = Vernaux(other: nat, name: Name, next: nat)

  /** What the writer emits for one object: `vn_next`, `vn_cnt`, `vn_file`, the auxiliary entries and the strings, in
      order. */
  datatype Verneed = Verneed(next: nat, count: nat, file: Option<Name>, auxes: seq<Vernaux>, strings: seq<Name>)

  predicate IsWritten(d: Verdef, mapping: seq<nat>) {
    !d.isBase && 1 <= d.index <= |mapping| && mapping[d.index - 1] != VER_NDX_GLOBAL && d.name.Some?
  }

  /** The entries for the definitions among the first `n` with an index of their own. */
  function AuxesOf(defs: seq<Verdef>, mapping: seq<nat>, count: nat, n: nat): (r: seq<Vernaux>)
    requires n <= |defs|
    ensures |r| <= n
  {
    if n == 0 then []
    else
      var rest := AuxesOf(defs, mapping, count, n - 1);
      var d := defs[n - 1];
      if IsWritten(d, mapping) then
        rest + [Vernaux(mapping[d.index - 1], d.name.value, if |rest| + 1 == count then 0 else VERNAUX_SIZE)]
      else rest
  }

  function StringBytes(names: seq<Name>): nat {
    if names == [] then 0 else StringBytes(names[..|names| - 1]) + |names[|names| - 1]| + 1
  }

  lemma {:induction false} NoStrings()
    ensures StringBytes([]) == 0
  {
  }

  lemma {:induction false} StringsMore(names: seq<Name>, name: Name)
    ensures StringBytes(names + [name]) == StringBytes(names) + |name| + 1
  {
    assert (names + [name])[..|names|] == names;
  }

  function WrittenBytes(defs: seq<Verdef>, mapping: seq<nat>, n: nat): nat
    requires n <= |defs|
  {
    if n == 0 then 0
    else WrittenBytes(defs, mapping, n - 1) + (if IsWritten(defs[n - 1], mapping) then |defs[n - 1].name.value| + 1 else 0)
  }

  lemma {:induction false} NoOtherBase(l: Library, i: nat)
    requires WellFormed(l) && i < |l.verdefs| && l.verdefs[i].isBase
    ensures forall j :: 0 <= j < i ==> !l.verdefs[j].isBase
  {
    forall j | 0 <= j < i ensures !l.verdefs[j].isBase {
      assert l.verdefs[j].index != l.verdefs[i].index;
    }
  }

  lemma {:induction false} AuxesGrow(defs: seq<Verdef>, mapping: seq<nat>, count: nat, i: nat, n: nat)
    requires i <= n <= |defs|
    ensures AuxesOf(defs, mapping, count, i) <= AuxesOf(defs, mapping, count, n)
    decreases n
  {
    hide IsWritten;
    if i < n {
      AuxesGrow(defs, mapping, count, i, n - 1);
    }
  }

  /** The entry of a written definition has its place among the reserved entries. */
  lemma {:induction false} AuxesFit(defs: seq<Verdef>, mapping: seq<nat>, count: nat, i: nat)
    requires i < |defs| && IsWritten(defs[i], mapping)
    ensures |AuxesOf(defs, mapping, count, i)| < |AuxesOf(defs, mapping, count, |defs|)|
  {
    AuxesGrow(defs, mapping, count, i + 1, |defs|);
  }

  /** The version part of `write_dynamic_file`. */
  method WriteVerneed(l: Library, mapping: seq<nat>, count: nat, isLast: bool) returns (r: Option<Verneed>)
    requires WellFormed(l) && |mapping| == |l.verdefs|
    requires count == |AuxesOf(l.verdefs, mapping, count, |l.verdefs|)|
    ensures r.None? <==> exists i :: 0 <= i < |l.verdefs| && !l.verdefs[i].isBase && l.verdefs[i].name.None?
                                     && mapping[l.verdefs[i].index - 1] != VER_NDX_GLOBAL
    ensures r.Some? ==> r.value.auxes == AuxesOf(l.verdefs, mapping, count, |l.verdefs|) && r.value.count == count
    ensures r.Some? ==> r.value.next == if isLast then 0 else RecordSize(count)
    ensures r.Some? && |l.verdefs| > 0 ==> r.value.file == Some(l.libName)
    ensures r.Some? ==> StringBytes(r.value.strings)
                        == WrittenBytes(l.verdefs, mapping, |l.verdefs|) + (if |l.verdefs| > 0 then |l.libName| + 1 else 0)
  {
    hide StringBytes, RecordSize;
    var auxes, strings, file := [], [], None;
    NoStrings();
    var n := |l.verdefs|;
    for i := 0 to n
      invariant auxes == AuxesOf(l.verdefs, mapping, count, i)
      invariant file == if exists j :: 0 <= j < i && l.verdefs[j].isBase then Some(l.libName) else None
      invariant StringBytes(strings) == WrittenBytes(l.verdefs, mapping, i) + (if file.Some? then |l.libName| + 1 else 0)
      invariant forall j :: 0 <= j < i && !l.verdefs[j].isBase && mapping[l.verdefs[j].index - 1] != VER_NDX_GLOBAL
                            ==> l.verdefs[j].name.Some?
    {
      var d := l.verdefs[i];
      if d.isBase {
        NoOtherBase(l, i);
        StringsMore(strings, l.libName);
        strings := strings + [l.libName];
        file := Some(l.libName);
      } else {
        var output := mapping[d.index - 1];
        if output != VER_NDX_GLOBAL {
          if d.name.None? {
            return None;
          }
          StringsMore(strings, d.name.value);
          strings := strings + [d.name.value];
          AuxesFit(l.verdefs, mapping, count, i);
          assert |auxes| < count;
          auxes := auxes + [Vernaux(output, d.name.value, if |auxes| + 1 == count then 0 else VERNAUX_SIZE)];
        }
      }
    }
    if n > 0 {
      var base := EveryVersionDefined(l, VER_NDX_GLOBAL);
    }
    r := Some(Verneed(if isLast then 0 else RecordSize(count), count, file, auxes, strings));
  }

  lemma {:induction false} WrittenIsKept(d: Verdef, needed: seq<bool>, next: nat)
    requires next > VER_NDX_GLOBAL
    ensures IsWritten(d, MappingOf(needed, next)) <==> IsKept(d, needed) && d.name.Some?
  {
    hide CountTrue;
  }

  /** Writer and layout agree on the entries and on the bytes of their names. */
  lemma {:induction false} WrittenIsReserved(defs: seq<Verdef>, needed: seq<bool>, next: nat, count: nat, n: nat)
    requires next > VER_NDX_GLOBAL && n <= |defs| && NamesExist(defs, needed, |defs|)
    ensures |AuxesOf(defs, MappingOf(needed, next), count, n)| == CountDefs(defs, needed, n)
    ensures WrittenBytes(defs, MappingOf(needed, next), n) == KeptNameBytes(defs, needed, n)
    decreases n
  {
    hide IsWritten, IsKept, MappingOf;
    if n > 0 {
      WrittenIsReserved(defs, needed, next, count, n - 1);
      WrittenIsKept(defs[n - 1], needed, next);
    }
  }

  // ---------------------------------------------------------------- a whole link

  function CountOf(l: Library): nat { CountTrue(NeededOf(l)) }

  /** The first index of library `i`. */
  function NextOf(libs: seq<Library>, start: nat, i: nat): nat
    requires i <= |libs|
  {
    if i == 0 then start else NextOf(libs, start, i - 1) + CountOf(libs[i - 1])
  }

  predicate AllWellFormed(libs: seq<Library>) { forall i :: 0 <= i < |libs| ==> WellFormed(libs[i]) }

  predicate CanBeSized(l: Library) { VersionsExist(l) && NamesExist(l.verdefs, NeededOf(l), |l.verdefs|) }

  /** Every version used is defined and named, and the indexes fit 16 bits. */
  predicate LayoutOk(libs: seq<Library>, start: nat) {
    && (forall i :: 0 <= i < |libs| ==> CanBeSized(libs[i]))
    && NextOf(libs, start, |libs|) < U16
  }

  /** What one library got and wrote. */
  datatype Output = Output(mapping: seq<nat>, verneed: Option<Verneed>)

  /** The output of a library whose first index is `next`: one entry per needed version, and exactly the reserved bytes. */
  predicate OutputOk(l: Library, next: nat, o: Output) {
    && o.mapping == MappingOf(NeededOf(l), next)
    && (o.verneed.Some? <==> CountOf(l) > 0)
    && (o.verneed.Some? ==>
          && o.verneed.value.file == Some(l.libName) && o.verneed.value.count == CountOf(l) == |o.verneed.value.auxes|
          && o.verneed.value.auxes == AuxesOf(l.verdefs, o.mapping, CountOf(l), |l.verdefs|)
          && StringBytes(o.verneed.value.strings) == SizesOf(l).dynstr
          && VERNEED_SIZE + VERNAUX_SIZE * |o.verneed.value.auxes| == SizesOf(l).versionR)
  }

  /** The first two phases: mark, then size, every library. */
  method SizeAll(libs: seq<Library>) returns (counts: Option<seq<nat>>)
    requires AllWellFormed(libs)
    ensures counts.Some? <==> forall i :: 0 <= i < |libs| ==> CanBeSized(libs[i])
    ensures counts.Some? ==> |counts.value| == |libs| && forall i :: 0 <= i < |libs| ==> counts.value[i] == CountOf(libs[i])
  {
    hide NeededOf, CountTrue, VersionsExist, NamesExist, WellFormed;
    var cs: seq<nat> := [];
    for i := 0 to |libs|
      invariant |cs| == i && forall j :: 0 <= j < i ==> CanBeSized(libs[j]) && cs[j] == CountOf(libs[j])
    {
      var needed := MarkNeeded(libs[i]);
      if needed.None? {
        assert !CanBeSized(libs[i]);
        return None;
      }
      var sizes := FinaliseSizes(libs[i], needed.value);
      if sizes.None? {
        assert !CanBeSized(libs[i]);
        return None;
      }
      cs := cs + [sizes.value.count];
    }
    counts := Some(cs);
  }

  lemma {:induction false} NextGrows(libs: seq<Library>, start: nat, i: nat, j: nat)
    requires i <= j <= |libs|
    ensures start <= NextOf(libs, start, i) <= NextOf(libs, start, j)
    ensures i < j ==> NextOf(libs, start, i) + CountOf(libs[i]) <= NextOf(libs, start, j)
    decreases j
  {
    hide CountOf;
    if i < j {
      NextGrows(libs, start, i, j - 1);
    } else if i > 0 {
      NextGrows(libs, start, i - 1, i - 1);
    }
  }

  lemma {:induction false} NextFirst(libs: seq<Library>, start: nat)
    ensures NextOf(libs, start, 0) == start
  {
  }

  lemma {:induction false} NextStep(libs: seq<Library>, start: nat, i: nat)
    requires i < |libs|
    ensures NextOf(libs, start, i + 1) == NextOf(libs, start, i) + CountOf(libs[i])
  {
  }

  /** `apply_non_addressable_indexes_dynamic` over all libraries: fails when the indexes leave 16 bits. */
  method AssignIndexes(libs: seq<Library>, counts: seq<nat>, start: nat) returns (firsts: Option<seq<nat>>)
    requires |counts| == |libs| && forall i :: 0 <= i < |libs| ==> counts[i] == CountOf(libs[i])
    requires start < U16
    ensures firsts.Some? <==> NextOf(libs, start, |libs|) < U16
    ensures firsts.Some? ==> |firsts.value| == |libs| && forall i :: 0 <= i < |libs| ==> firsts.value[i] == NextOf(libs, start, i)
  {
    hide CountOf, NextOf;
    var next, fs := start, [];
    NextFirst(libs, start);
    for i := 0 to |libs|
      invariant next == NextOf(libs, start, i) < U16
      invariant |fs| == i && forall j :: 0 <= j < i ==> fs[j] == NextOf(libs, start, j)
    {
      fs := fs + [next];
      NextStep(libs, start, i);
      if counts[i] > 0 {
        if next + counts[i] >= U16 {
          NextGrows(libs, start, i + 1, |libs|);
          return None;
        }
        next := next + counts[i];
      }
    }
    firsts := Some(fs);
  }

  /** The mapping and the version part of the writer for one library. */
  method WriteLibrary(l: Library, next: nat, isLast: bool) returns (o: Output)
    requires WellFormed(l) && CanBeSized(l) && next > VER_NDX_GLOBAL
    ensures OutputOk(l, next, o)
    ensures o.verneed.Some? ==> o.verneed.value.next == if isLast then 0 else RecordSize(CountOf(l))
  {
    hide NeededOf, CountTrue, VersionsExist, WellFormed, AuxesOf, MappingOf;
    var needed := MarkNeeded(l);
    var sizes := FinaliseSizes(l, needed.value);
    var mapping := ComputeVersionMapping(needed.value, next);
    o := Output(mapping, None);
    if sizes.value.count > 0 {
      var count := sizes.value.count;
      CountsAgree(l);
      WrittenIsReserved(l.verdefs, needed.value, next, count, |l.verdefs|);
      KeptHaveNames(l, next);
      HasDefinitions(l);
      var verneed := WriteVerneed(l, mapping, count, isLast);
      o := Output(mapping, verneed);
    }
  }

  lemma {:induction false} HasDefinitions(l: Library)
    requires CountOf(l) > 0
    ensures |l.verdefs| > 0
  {
  }

  lemma {:induction false} KeptHaveNames(l: Library, next: nat)
    requires WellFormed(l) && NamesExist(l.verdefs, NeededOf(l), |l.verdefs|) && next > VER_NDX_GLOBAL
    ensures forall i :: (0 <= i < |l.verdefs| && !l.verdefs[i].isBase
                         && MappingOf(NeededOf(l), next)[l.verdefs[i].index - 1] != VER_NDX_GLOBAL)
                        ==> l.verdefs[i].name.Some?
  {
    hide CountTrue;
    forall i | 0 <= i < |l.verdefs| && !l.verdefs[i].isBase && MappingOf(NeededOf(l), next)[l.verdefs[i].index - 1] != VER_NDX_GLOBAL
      ensures l.verdefs[i].name.Some?
    {
      assert IsKept(l.verdefs[i], NeededOf(l));
    }
  }

  /** The bytes of an object's part of `.gnu.version_r`. */
  function RecordSize(count: nat): nat { VERNEED_SIZE + VERNAUX_SIZE * count }

  function PartSize(l: Library): nat { if CountOf(l) > 0 then RecordSize(CountOf(l)) else 0 }

  /** Where the part of library `i` starts. */
  function PartStart(libs: seq<Library>, i: nat): nat
    requires i <= |libs|
  {
    if i == 0 then 0 else PartStart(libs, i - 1) + PartSize(libs[i - 1])
  }

  predicate IsLast(libs: seq<Library>, i: nat)
    requires i < |libs|
  {
    PartStart(libs, i) + PartSize(libs[i]) == PartStart(libs, |libs|)
  }

  /** Each record's link is its size, or 0 when its part ends the section. */
  predicate Linked(libs: seq<Library>, os: seq<Output>, i: nat)
    requires i < |libs| && i < |os|
  {
    os[i].verneed.Some? ==> os[i].verneed.value.next == if IsLast(libs, i) then 0 else RecordSize(CountOf(libs[i]))
  }

  predicate AllLinked(libs: seq<Library>, os: seq<Output>) {
    |os| == |libs| && forall i :: 0 <= i < |libs| ==> Linked(libs, os, i)
  }

  lemma {:induction false} PartsGrow(libs: seq<Library>, i: nat, j: nat)
    requires i <= j <= |libs|
    ensures PartStart(libs, i) <= PartStart(libs, j)
    ensures PartStart(libs, i) == PartStart(libs, j) <==> forall k :: i <= k < j ==> CountOf(libs[k]) == 0
    decreases j
  {
    hide CountOf;
    if i < j {
      PartsGrow(libs, i, j - 1);
    }
  }

  /** A part is the last one exactly when no later library has entries. */
  lemma {:induction false} LastExactly(libs: seq<Library>, i: nat)
    requires i < |libs|
    ensures IsLast(libs, i) <==> forall k :: i < k < |libs| ==> CountOf(libs[k]) == 0
  {
    hide CountOf, PartStart, PartSize;
    PartStep(libs, i);
    PartsGrow(libs, i + 1, |libs|);
  }

  /** The next library with entries starts where this one's part ends. */
  lemma {:induction false} NextPart(libs: seq<Library>, i: nat, k: nat)
    requires i < k < |libs| && CountOf(libs[i]) > 0 && forall m :: i < m < k ==> CountOf(libs[m]) == 0
    ensures PartStart(libs, k) == PartStart(libs, i) + RecordSize(CountOf(libs[i]))
  {
    hide CountOf, PartStart;
    PartStep(libs, i);
    PartsGrow(libs, i + 1, k);
  }

  /** A loader that follows the links visits the records of all objects that have one: a link is 0 exactly when no later
      object has a record, and otherwise it leads to the start of the next one. */
  lemma {:induction false} LinksLeadOn(libs: seq<Library>, start: nat, os: seq<Output>, i: nat, k: nat)
    requires AllOutputsOk(libs, start, os) && AllLinked(libs, os) && i < k < |libs| && os[i].verneed.Some?
    requires os[k].verneed.Some? && forall m :: i < m < k ==> os[m].verneed.None?
    ensures PartStart(libs, k) == PartStart(libs, i) + os[i].verneed.value.next
    ensures os[i].verneed.value.next != 0
  {
    hide CountOf, PartStart, OutputOk, PartSize, IsLast;
    assert Linked(libs, os, i);
    HasRecord(libs, start, os, i);
    HasRecord(libs, start, os, k);
    forall m | i < m < k ensures CountOf(libs[m]) == 0 {
      HasRecord(libs, start, os, m);
    }
    LastExactly(libs, i);
    NextPart(libs, i, k);
  }

  /** The walk ends at the last record. */
  lemma {:induction false} LinksEnd(libs: seq<Library>, start: nat, os: seq<Output>, i: nat)
    requires AllOutputsOk(libs, start, os) && AllLinked(libs, os) && i < |libs| && os[i].verneed.Some?
    requires forall k :: i < k < |libs| ==> os[k].verneed.None?
    ensures os[i].verneed.value.next == 0
  {
    hide CountOf, PartStart, OutputOk, PartSize, IsLast;
    assert Linked(libs, os, i);
    forall k | i < k < |libs| ensures CountOf(libs[k]) == 0 {
      HasRecord(libs, start, os, k);
    }
    LastExactly(libs, i);
  }

  lemma {:induction false} PartFirst(libs: seq<Library>)
    ensures PartStart(libs, 0) == 0
  {
  }

  lemma {:induction false} PartStep(libs: seq<Library>, i: nat)
    requires i < |libs|
    ensures PartStart(libs, i + 1) == PartStart(libs, i) + PartSize(libs[i])
  {
  }

  lemma {:induction false} HasRecord(libs: seq<Library>, start: nat, os: seq<Output>, k: nat)
    requires AllOutputsOk(libs, start, os) && k < |libs|
    ensures os[k].verneed.Some? <==> CountOf(libs[k]) > 0
  {
    hide CountOf;
    assert OutputOk(libs[k], NextOf(libs, start, k), os[k]);
  }

  /** The length of the section, from the counts. */
  method SectionSize(libs: seq<Library>, counts: seq<nat>) returns (total: nat)
    requires |counts| == |libs| && forall i :: 0 <= i < |libs| ==> counts[i] == CountOf(libs[i])
    ensures total == PartStart(libs, |libs|)
  {
    hide CountOf;
    total := 0;
    for i := 0 to |libs|
      invariant total == PartStart(libs, i)
    {
      if counts[i] > 0 {
        total := total + VERNEED_SIZE + VERNAUX_SIZE * counts[i];
      }
    }
  }

  predicate AllOutputsOk(libs: seq<Library>, start: nat, os: seq<Output>) {
    |os| == |libs| && forall i :: 0 <= i < |libs| ==> OutputOk(libs[i], NextOf(libs, start, i), os[i])
  }

  /** The whole path: mark and size, assign the index ranges, map and write. */
  method LinkVersions(libs: seq<Library>, scriptVersions: nat) returns (os: Option<seq<Output>>)
    requires AllWellFormed(libs) && FirstIndex(scriptVersions) < U16
    ensures os.Some? <==> LayoutOk(libs, FirstIndex(scriptVersions))
    ensures os.Some? ==> AllOutputsOk(libs, FirstIndex(scriptVersions), os.value) && AllLinked(libs, os.value)
  {
    hide OutputOk, CanBeSized, WellFormed, CountOf, NextOf, PartStart, RecordSize;
    var start := FirstIndex(scriptVersions);
    var counts := SizeAll(libs);
    if counts.None? {
      return None;
    }
    var firsts := AssignIndexes(libs, counts.value, start);
    if firsts.None? {
      return None;
    }
    var end := SectionSize(libs, counts.value);
    var out: seq<Output>, offset := [], 0;
    PartFirst(libs);
    for i := 0 to |libs|
      invariant |out| == i && offset == PartStart(libs, i)
      invariant forall j :: 0 <= j < i ==> OutputOk(libs[j], NextOf(libs, start, j), out[j])
      invariant forall j :: 0 <= j < i ==> Linked(libs, out, j)
    {
      NextGrows(libs, start, i, i);
      PartStep(libs, i);
      if counts.value[i] > 0 {
        offset := offset + RecordSize(counts.value[i]);
      }
      var o := WriteLibrary(libs[i], firsts.value[i], offset == end);
      ghost var before := out;
      out := out + [o];
      forall j | 0 <= j < i + 1 ensures Linked(libs, out, j) {
        if j < i { assert Linked(libs, before, j); }
      }
    }
    os := Some(out);
  }

  // ---------------------------------------------------------------- imported symbols

  /** `copy_symbol_version`; `None` is an index out of bounds. */
  function CopySymbolVersion(l: Library, mapping: seq<nat>, symbol: nat): Option<nat> {
    if symbol >= |l.versym| then Some(VER_NDX_GLOBAL)
    else
      var version := VersionOf(l.versym[symbol]);
      if version <= VER_NDX_GLOBAL then Some(version)
      else if version > |mapping| then None
      else Some(mapping[version - 1])
  }

  /** Which definition an entry came from. */
  lemma {:induction false} AuxOrigin(defs: seq<Verdef>, mapping: seq<nat>, count: nat, n: nat, q: nat) returns (i: nat)
    requires n <= |defs| && q < |AuxesOf(defs, mapping, count, n)|
    ensures i < n && IsWritten(defs[i], mapping) && |AuxesOf(defs, mapping, count, i)| == q
    ensures AuxesOf(defs, mapping, count, n)[q].other == mapping[defs[i].index - 1]
    decreases n
  {
    if q < |AuxesOf(defs, mapping, count, n - 1)| {
      i := AuxOrigin(defs, mapping, count, n - 1, q);
    } else {
      i := n - 1;
    }
  }

  /** Where the entry of a written definition is. */
  lemma {:induction false} AuxPlace(defs: seq<Verdef>, mapping: seq<nat>, count: nat, i: nat)
    requires i < |defs| && IsWritten(defs[i], mapping)
    ensures var all := AuxesOf(defs, mapping, count, |defs|);
            var q := |AuxesOf(defs, mapping, count, i)|;
            q < |all| && all[q].other == mapping[defs[i].index - 1] && all[q].name == defs[i].name.value
  {
    AuxesGrow(defs, mapping, count, i + 1, |defs|);
    var upto := AuxesOf(defs, mapping, count, i + 1);
    assert upto[|upto| - 1].other == mapping[defs[i].index - 1];
  }

  /** The entry `q` of library `j` carries this index. */
  predicate Carries(os: seq<Output>, j: nat, q: nat, index: nat) {
    && j < |os| && os[j].verneed.Some? && q < |os[j].verneed.value.auxes|
    && os[j].verneed.value.auxes[q].other == index
  }

  /** The index of an entry is in its library's range, and comes from a needed definition. */
  lemma {:induction false} AuxIsInRange(l: Library, next: nat, o: Output, q: nat) returns (i: nat)
    requires WellFormed(l) && next > VER_NDX_GLOBAL && OutputOk(l, next, o) && o.verneed.Some? && q < |o.verneed.value.auxes|
    ensures i < |l.verdefs| && IsKept(l.verdefs[i], NeededOf(l)) && q == |AuxesOf(l.verdefs, o.mapping, CountOf(l), i)|
    ensures o.verneed.value.auxes[q].other == o.mapping[l.verdefs[i].index - 1]
    ensures next <= o.verneed.value.auxes[q].other < next + CountOf(l)
  {
    hide CountTrue, AuxesOf, MappingOf, NeededOf;
    i := AuxOrigin(l.verdefs, o.mapping, CountOf(l), |l.verdefs|, q);
    WrittenIsKept(l.verdefs[i], NeededOf(l), next);
    var k := l.verdefs[i].index - 1;
    MappingIsInjective(NeededOf(l), next, k, k);
  }

  /** Within its own library, the version of a loaded symbol has exactly one entry, which carries its name. */
  lemma {:induction false} OwnEntry(l: Library, next: nat, o: Output, u: nat) returns (p: nat, d: nat)
    requires WellFormed(l) && CanBeSized(l) && next > VER_NDX_GLOBAL && OutputOk(l, next, o)
    requires u < |l.used| && UsedVersion(l, u) > VER_NDX_GLOBAL
    ensures d < |l.verdefs| && l.verdefs[d].index == UsedVersion(l, u)
    ensures CopySymbolVersion(l, o.mapping, l.used[u]).Some?
    ensures var index := CopySymbolVersion(l, o.mapping, l.used[u]).value;
            && next <= index < next + CountOf(l) && Carries([o], 0, p, index)
            && l.verdefs[d].name == Some(o.verneed.value.auxes[p].name)
            && forall q: nat :: Carries([o], 0, q, index) ==> q == p
  {
    hide CountTrue, AuxesOf, MappingOf, NeededOf;
    var v, needed := UsedVersion(l, u), NeededOf(l);
    UsedIsNeeded(l, u);
    d := EveryVersionDefined(l, v);
    assert IsKept(l.verdefs[d], needed);
    WrittenIsKept(l.verdefs[d], needed, next);
    MappingIsInjective(needed, next, v - 1, v - 1);
    AuxPlace(l.verdefs, o.mapping, CountOf(l), d);
    p := |AuxesOf(l.verdefs, o.mapping, CountOf(l), d)|;
    var index := o.mapping[v - 1];
    forall q: nat | Carries([o], 0, q, index) ensures q == p {
      var i := AuxIsInRange(l, next, o, q);
      MappingIsInjective(needed, next, v - 1, l.verdefs[i].index - 1);
      SameDefinition(l, d, i);
    }
  }

  lemma {:induction false} SameDefinition(l: Library, i: nat, j: nat)
    requires WellFormed(l) && i < |l.verdefs| && j < |l.verdefs| && l.verdefs[i].index == l.verdefs[j].index
    ensures i == j
  {
  }

  lemma {:induction false} UsedIsNeeded(l: Library, u: nat)
    requires VersionsExist(l) && u < |l.used| && UsedVersion(l, u) > VER_NDX_GLOBAL
    ensures UsedVersion(l, u) <= |l.verdefs| && NeededOf(l)[UsedVersion(l, u) - 1]
  {
    assert IsNeeded(l, UsedVersion(l, u), |l.used|);
  }

  /** Every imported symbol with a version gets an index above the global one and above every index the version script
      defines; exactly one entry of the whole file carries it, in the symbol's own library, with its version's name. */
  lemma {:induction false} ImportedVersionIsUnique(libs: seq<Library>, scriptVersions: nat, os: seq<Output>, i: nat, u: nat)
    returns (p: nat, d: nat)
    requires AllWellFormed(libs) && LayoutOk(libs, FirstIndex(scriptVersions)) && AllOutputsOk(libs, FirstIndex(scriptVersions), os)
    requires i < |libs| && u < |libs[i].used| && UsedVersion(libs[i], u) > VER_NDX_GLOBAL
    ensures d < |libs[i].verdefs| && libs[i].verdefs[d].index == UsedVersion(libs[i], u)
    ensures CopySymbolVersion(libs[i], os[i].mapping, libs[i].used[u]).Some?
    ensures var index := CopySymbolVersion(libs[i], os[i].mapping, libs[i].used[u]).value;
            && VER_NDX_GLOBAL < index < U16
            && (forall k: nat :: k < scriptVersions ==> VerdefIndex(k) < index)
            && Carries(os, i, p, index)
            && libs[i].verdefs[d].name == Some(os[i].verneed.value.auxes[p].name)
            && forall j: nat, q: nat :: Carries(os, j, q, index) ==> j == i && q == p
  {
    hide CountTrue, CountOf, CanBeSized, OutputOk, WellFormed, NextOf, IsKept, AuxesOf;
    var start := FirstIndex(scriptVersions);
    var l, o, next := libs[i], os[i], NextOf(libs, start, i);
    assert CanBeSized(l);
    NextGrows(libs, start, i, |libs|);
    p, d := OwnEntry(l, next, o, u);
    var index := CopySymbolVersion(l, o.mapping, l.used[u]).value;
    forall j: nat, q: nat | Carries(os, j, q, index) ensures j == i && q == p {
      NextGrows(libs, start, j, j);
      var e := AuxIsInRange(libs[j], NextOf(libs, start, j), os[j], q);
      if j < i { NextGrows(libs, start, j, i); }
      if i < j { NextGrows(libs, start, i, j); }
      assert Carries([o], 0, q, index);
    }
  }

  // ---------------------------------------------------------------- what a loader sees

  /** The `u`-th loaded symbol of library `i` has a version of its own. */
  predicate Imports(libs: seq<Library>, i: nat, u: nat) {
    i < |libs| && u < |libs[i].used| && UsedVersion(libs[i], u) > VER_NDX_GLOBAL
  }

  /** A loader masks the version word: it finds the index that was written. */
  predicate LoaderFinds(libs: seq<Library>, os: seq<Output>, i: nat, u: nat)
    requires Imports(libs, i, u) && |os| == |libs|
  {
    var index := CopySymbolVersion(libs[i], os[i].mapping, libs[i].used[u]);
    index.Some? && VersionOf(index.value) == index.value
  }

  /** The last mark holds the last rank. */
  lemma {:induction false} LastMark(needed: seq<bool>) returns (k: nat)
    requires CountTrue(needed) > 0
    ensures k < |needed| && needed[k] && CountTrue(needed[..k]) == CountTrue(needed) - 1
    decreases |needed|
  {
    var n := |needed| - 1;
    if needed[n] {
      k := n;
    } else {
      k := LastMark(needed[..n]);
      assert needed[..n][..k] == needed[..k];
    }
  }

  /** The last library with an index of its own ends where the whole range ends. */
  lemma {:induction false} LastRange(libs: seq<Library>, start: nat, n: nat) returns (i: nat)
    requires n <= |libs| && NextOf(libs, start, n) > start
    ensures i < n && CountOf(libs[i]) > 0 && NextOf(libs, start, i) + CountOf(libs[i]) == NextOf(libs, start, n)
    decreases n
  {
    hide CountOf;
    if CountOf(libs[n - 1]) > 0 {
      i := n - 1;
    } else {
      i := LastRange(libs, start, n - 1);
    }
  }

  /** Some imported symbol gets the largest index of the link. */
  lemma {:induction false} LargestIndexIsUsed(libs: seq<Library>, start: nat, os: seq<Output>) returns (i: nat, u: nat)
    requires AllOutputsOk(libs, start, os) && start > VER_NDX_GLOBAL && NextOf(libs, start, |libs|) > start
    ensures Imports(libs, i, u)
    ensures CopySymbolVersion(libs[i], os[i].mapping, libs[i].used[u]) == Some(NextOf(libs, start, |libs|) - 1)
  {
    hide NextOf, CountTrue;
    i := LastRange(libs, start, |libs|);
    var l := libs[i];
    var k := LastMark(NeededOf(l));
    assert IsNeeded(l, k + 1, |l.used|);
    u :| 0 <= u < |l.used| && UsedVersion(l, u) == k + 1;
    assert OutputOk(l, NextOf(libs, start, i), os[i]);
  }

  /** Every imported symbol's index survives the loader's mask if and only if the indexes of the link end at or below
      0x8000; the source only fails at 0x10000. */
  lemma {:induction false} LoaderFindsAllExactly(libs: seq<Library>, scriptVersions: nat, os: seq<Output>)
    requires AllWellFormed(libs) && LayoutOk(libs, FirstIndex(scriptVersions)) && AllOutputsOk(libs, FirstIndex(scriptVersions), os)
    requires FirstIndex(scriptVersions) <= VERSYM_MODULUS
    ensures (forall i: nat, u: nat :: Imports(libs, i, u) ==> LoaderFinds(libs, os, i, u))
            <==> NextOf(libs, FirstIndex(scriptVersions), |libs|) <= VERSYM_MODULUS
  {
    hide AllOutputsOk, LayoutOk, AllWellFormed, NextOf, CopySymbolVersion, UsedVersion;
    var start := FirstIndex(scriptVersions);
    OneOutputEach(libs, start, os);
    if NextOf(libs, start, |libs|) <= VERSYM_MODULUS {
      forall i: nat, u: nat | Imports(libs, i, u) ensures LoaderFinds(libs, os, i, u) {
        IndexIsBelowEnd(libs, start, os, i, u);
      }
    } else {
      var i, u := LargestIndexIsUsed(libs, start, os);
      MaskChanges(NextOf(libs, start, |libs|) - 1);
      assert !LoaderFinds(libs, os, i, u);
    }
  }

  lemma {:induction false} MaskChanges(index: nat)
    ensures VersionOf(index) == index <==> index < VERSYM_MODULUS
  {
  }

  lemma {:induction false} OneOutputEach(libs: seq<Library>, start: nat, os: seq<Output>)
    requires AllOutputsOk(libs, start, os)
    ensures |os| == |libs|
  {
  }

  lemma {:induction false} IndexIsBelowEnd(libs: seq<Library>, start: nat, os: seq<Output>, i: nat, u: nat)
    requires AllWellFormed(libs) && LayoutOk(libs, start) && AllOutputsOk(libs, start, os) && start > VER_NDX_GLOBAL
    requires Imports(libs, i, u)
    ensures |os| == |libs|
    ensures var index := CopySymbolVersion(libs[i], os[i].mapping, libs[i].used[u]);
            index.Some? && index.value < NextOf(libs, start, |libs|)
  {
    hide CountOf, CanBeSized, OutputOk, WellFormed, NextOf, CopySymbolVersion, UsedVersion;
    assert CanBeSized(libs[i]) && WellFormed(libs[i]);
    NextGrows(libs, start, i, |libs|);
    NextGrows(libs, start, i, i);
    var p, d := OwnEntry(libs[i], NextOf(libs, start, i), os[i], u);
  }
}
