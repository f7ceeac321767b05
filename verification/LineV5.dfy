/** Re-emission of line programs as DWARF 5 with a shared `.debug_line_str` pool, and their decoding. */
module LineV5 {
  import opened Bytes
  import Uleb

  const DW_LNCT_PATH: nat := 1
  const DW_LNCT_DIRECTORY_INDEX: nat := 2
  const DW_FORM_UDATA: nat := 0x0f
  const DW_FORM_LINE_STRP: nat := 0x1f

  type Path = seq<Byte>

  datatype FileEntry = FileEntry(path: Path, dir: nat)

  /** What the read pass captures of one unit. Params are the six header bytes from
      `minimum_instruction_length` to `opcode_base`. */
  datatype Cu = Cu(params: seq<Byte>, opcodeLengths: seq<Byte>, dirs: seq<Path>, files: seq<FileEntry>,
                   primary: Path, compDir: Path, program: seq<Byte>)

  predicate NoNul(p: Path) { forall i :: 0 <= i < |p| ==> p[i] != 0 }

  predicate ValidCu(cu: Cu) {
    && |cu.params| == 6 && |cu.opcodeLengths| + 1 == cu.params[5]
    && NoNul(cu.compDir) && NoNul(cu.primary)
    && (forall i :: 0 <= i < |cu.dirs| ==> NoNul(cu.dirs[i]))
    && (forall i :: 0 <= i < |cu.files| ==> NoNul(cu.files[i].path) && cu.files[i].dir < 0x1_0000_0000_0000_0000)
  }

  // ---------------------------------------------------------------- the string pool

  datatype Pool = Pool(bytes: seq<Byte>, offsets: map<Path, nat>)

  /** Every interned path is stored, NUL-terminated, at its offset. */
  predicate Sound(p: Pool) {
    forall s <- p.offsets :: Holds(p.bytes, p.offsets[s], s + [0])
  }

  function Interned(p: Pool, s: Path): Pool {
    if s in p.offsets then p else Pool(p.bytes + s + [0], p.offsets[s := |p.bytes|])
  }

  predicate Extends(p: Pool, q: Pool) {
    forall s <- p.offsets :: s in q.offsets && q.offsets[s] == p.offsets[s]
  }

  lemma {:induction false} InternIsSound(p: Pool, s: Path)
    requires Sound(p)
    ensures Sound(Interned(p, s)) && Extends(p, Interned(p, s)) && s in Interned(p, s).offsets
  {
    if s !in p.offsets {
      var q := Interned(p, s);
      assert q.bytes == p.bytes + (s + [0]);
      forall t <- q.offsets
        ensures Holds(q.bytes, q.offsets[t], t + [0])
      {
        if t == s {
          HoldsInTail(p.bytes, s + [0], 0, s + [0]);
        } else {
          HoldsInHead(p.bytes, s + [0], p.offsets[t], t + [0]);
        }
      }
    }
  }

  function InternAll(p: Pool, ss: seq<Path>): Pool {
    if ss == [] then p else Interned(InternAll(p, ss[..|ss| - 1]), ss[|ss| - 1])
  }

  lemma {:induction false} InternAllIsSound(p: Pool, ss: seq<Path>)
    requires Sound(p)
    ensures Sound(InternAll(p, ss)) && Extends(p, InternAll(p, ss))
    ensures forall i :: 0 <= i < |ss| ==> ss[i] in InternAll(p, ss).offsets
  {
    if ss != [] {
      var n := |ss| - 1;
      hide Sound, Interned;
      InternAllIsSound(p, ss[..n]);
      InternIsSound(InternAll(p, ss[..n]), ss[n]);
      assert forall i :: 0 <= i < n ==> ss[i] == ss[..n][i];
    }
  }

  lemma {:induction false} InternAllAppends(p: Pool, ss: seq<Path>, ts: seq<Path>)
    ensures InternAll(p, ss + ts) == InternAll(InternAll(p, ss), ts)
  {
    if ts == [] {
      assert ss + ts == ss;
    } else {
      var n := |ts| - 1;
      InternAllAppends(p, ss, ts[..n]);
      assert (ss + ts)[..|ss + ts| - 1] == ss + ts[..n];
    }
  }

  /** The bytes up to the next NUL. */
  function CString(strs: seq<Byte>, at: nat): Option<Path>
    decreases |strs| - at
  {
    if |strs| <= at then None
    else if strs[at] == 0 then Some([])
    else match CString(strs, at + 1) case None => None case Some(s) => Some([strs[at]] + s)
  }

  lemma {:induction false} CStringHeld(strs: seq<Byte>, at: nat, s: Path)
    requires NoNul(s) && Holds(strs, at, s + [0])
    ensures CString(strs, at) == Some(s)
    decreases |s|
  {
    assert strs[at] == (s + [0])[0];
    if s != [] {
      HoldsPart(strs, at, s + [0], 1, |s| + 1);
      assert (s + [0])[1..|s| + 1] == s[1..] + [0];
      CStringHeld(strs, at + 1, s[1..]);
      assert s == [s[0]] + s[1..];
    }
  }

  // ---------------------------------------------------------------- the emitted unit

  /** The paths in the order they are interned. */
  function PathsOf(cu: Cu): seq<Path> {
    [cu.compDir] + cu.dirs + ([cu.primary] + FilePaths(cu.files))
  }

  function FilePaths(files: seq<FileEntry>): seq<Path> {
    if files == [] then [] else [files[0].path] + FilePaths(files[1..])
  }

  predicate Covers(offs: map<Path, nat>, ss: seq<Path>) {
    forall i :: 0 <= i < |ss| ==> ss[i] in offs
  }

  function DirRefs(dirs: seq<Path>, offs: map<Path, nat>): seq<Byte>
    requires Covers(offs, dirs)
  {
    if dirs == [] then [] else ToLe(offs[dirs[0]], 4) + DirRefs(dirs[1..], offs)
  }

  lemma {:induction false} CoversRest(offs: map<Path, nat>, files: seq<FileEntry>)
    requires files != [] && Covers(offs, FilePaths(files))
    ensures files[0].path in offs && Covers(offs, FilePaths(files[1..]))
  {
    assert FilePaths(files)[0] == files[0].path;
    assert forall i :: 0 <= i < |FilePaths(files[1..])| ==> FilePaths(files[1..])[i] == FilePaths(files)[i + 1];
  }

  function FileRefs(files: seq<FileEntry>, offs: map<Path, nat>): seq<Byte>
    requires Covers(offs, FilePaths(files))
  {
    if files == [] then []
    else
      CoversRest(offs, files);
      ToLe(offs[files[0].path], 4) + Uleb.Encoded(files[0].dir) + FileRefs(files[1..], offs)
  }

  const DIR_FORMAT: seq<Byte> := [1] + Uleb.Encoded(DW_LNCT_PATH) + Uleb.Encoded(DW_FORM_LINE_STRP)

  const FILE_FORMAT: seq<Byte> :=
    [2] + Uleb.Encoded(DW_LNCT_PATH) + Uleb.Encoded(DW_FORM_LINE_STRP)
        + Uleb.Encoded(DW_LNCT_DIRECTORY_INDEX) + Uleb.Encoded(DW_FORM_UDATA)

  /** Directory 0 is the compilation directory, file 0 the primary file. */
  function AllDirs(cu: Cu): seq<Path> { [cu.compDir] + cu.dirs }

  function AllFiles(cu: Cu): seq<FileEntry> { [FileEntry(cu.primary, 0)] + cu.files }

  predicate CoversCu(offs: map<Path, nat>, cu: Cu) {
    Covers(offs, AllDirs(cu)) && Covers(offs, FilePaths(AllFiles(cu)))
  }

  /** Everything that `header_length` counts. */
  function HeaderBytes(cu: Cu, offs: map<Path, nat>): seq<Byte>
    requires CoversCu(offs, cu)
  {
    cu.params + cu.opcodeLengths
    + (DIR_FORMAT + (Uleb.Encoded(|AllDirs(cu)|) + (DirRefs(AllDirs(cu), offs)
    + (FILE_FORMAT + (Uleb.Encoded(|AllFiles(cu)|) + FileRefs(AllFiles(cu), offs))))))
  }

  function UnitBytes(cu: Cu, offs: map<Path, nat>): seq<Byte>
    requires CoversCu(offs, cu)
  {
    var h := HeaderBytes(cu, offs);
    ToLe(8 + |h| + |cu.program|, 4) + (ToLe(5, 2) + [8, 0] + ToLe(|h|, 4) + h + cu.program)
  }

  lemma {:induction false} DirRefsStable(dirs: seq<Path>, p: map<Path, nat>, q: map<Path, nat>)
    requires Covers(p, dirs)
    requires forall s <- p :: s in q && q[s] == p[s]
    ensures Covers(q, dirs) && DirRefs(dirs, q) == DirRefs(dirs, p)
  {
    if dirs != [] { DirRefsStable(dirs[1..], p, q); }
  }

  lemma {:induction false} FileRefsStable(files: seq<FileEntry>, p: map<Path, nat>, q: map<Path, nat>)
    requires Covers(p, FilePaths(files))
    requires forall s <- p :: s in q && q[s] == p[s]
    ensures Covers(q, FilePaths(files)) && FileRefs(files, q) == FileRefs(files, p)
  {
    if files != [] {
      CoversRest(p, files);
      FileRefsStable(files[1..], p, q);
    }
  }

  /** Interning more paths later does not change the bytes of an emitted unit. */
  lemma {:induction false} UnitBytesStable(cu: Cu, p: Pool, q: Pool)
    requires CoversCu(p.offsets, cu) && Extends(p, q)
    ensures CoversCu(q.offsets, cu) && UnitBytes(cu, q.offsets) == UnitBytes(cu, p.offsets)
  {
    DirRefsStable(AllDirs(cu), p.offsets, q.offsets);
    FileRefsStable(AllFiles(cu), p.offsets, q.offsets);
  }

  lemma {:induction false} InternedCovers(p: Pool, cu: Cu)
    requires Sound(p)
    ensures CoversCu(InternAll(p, PathsOf(cu)).offsets, cu)
  {
    InternAllIsSound(p, PathsOf(cu));
    hide InternAll;
    var offs := InternAll(p, PathsOf(cu)).offsets;
    forall i | 0 <= i < |AllDirs(cu)|
      ensures AllDirs(cu)[i] in offs
    {
      assert PathsOf(cu)[i] == AllDirs(cu)[i];
    }
    var paths := FilePaths(AllFiles(cu));
    assert AllFiles(cu)[1..] == cu.files;
    assert paths == [cu.primary] + FilePaths(cu.files);
    forall i | 0 <= i < |paths|
      ensures paths[i] in offs
    {
      assert PathsOf(cu)[|AllDirs(cu)| + i] == paths[i];
    }
  }

  // ---------------------------------------------------------------- decoding

  datatype Decoded = Decoded(params: seq<Byte>, opcodeLengths: seq<Byte>, dirs: seq<Path>,
                             files: seq<FileEntry>, program: seq<Byte>)

  function TakePrefix(s: seq<Byte>, p: seq<Byte>): Option<seq<Byte>> {
    if |p| <= |s| && s[..|p|] == p then Some(s[|p|..]) else None
  }

  function TakeUleb(s: seq<Byte>): Option<(nat, seq<Byte>)> {
    var r :- Uleb.Read(s, 0);
    if r.1 <= |s| then Some((r.0, s[r.1..])) else None
  }

  /** A `DW_FORM_line_strp`, resolved. */
  function TakePath(s: seq<Byte>, strs: seq<Byte>): Option<(Path, seq<Byte>)> {
    if |s| < 4 then None
    else
      var p :- CString(strs, FromLe(s[..4]));
      Some((p, s[4..]))
  }

  function TakeDirs(s: seq<Byte>, n: nat, strs: seq<Byte>): Option<(seq<Path>, seq<Byte>)> {
    if n == 0 then Some(([], s))
    else
      var d :- TakePath(s, strs);
      var rest :- TakeDirs(d.1, n - 1, strs);
      Some(([d.0] + rest.0, rest.1))
  }

  function TakeFiles(s: seq<Byte>, n: nat, strs: seq<Byte>): Option<(seq<FileEntry>, seq<Byte>)> {
    if n == 0 then Some(([], s))
    else
      var p :- TakePath(s, strs);
      var i :- TakeUleb(p.1);
      var rest :- TakeFiles(i.1, n - 1, strs);
      Some(([FileEntry(p.0, i.0)] + rest.0, rest.1))
  }

  /** The directory and file tables that follow the opcode lengths. */
  function TakeTables(s: seq<Byte>, strs: seq<Byte>): Option<(seq<Path>, seq<FileEntry>)> {
    var dirCount :- TakePrefix(s, DIR_FORMAT);
    var dirEntries :- TakeUleb(dirCount);
    var dirs :- TakeDirs(dirEntries.1, dirEntries.0, strs);
    var fileCount :- TakePrefix(dirs.1, FILE_FORMAT);
    var fileEntries :- TakeUleb(fileCount);
    var files :- TakeFiles(fileEntries.1, fileEntries.0, strs);
    if files.1 == [] then Some((dirs.0, files.0)) else None
  }

  /** A reader of one version 5 line program header, at offset `at` of `.debug_line`. */
  function DecodeUnit(line: seq<Byte>, at: nat, strs: seq<Byte>): Option<Decoded> {
    if |line| < at + 4 || |line| < at + 4 + FromLe(line[at..at + 4]) then None
    else DecodeBody(line[at + 4..at + 4 + FromLe(line[at..at + 4])], strs)
  }

  function DecodeBody(u: seq<Byte>, strs: seq<Byte>): Option<Decoded> {
    if |u| < 8 || FromLe(u[0..2]) != 5 || |u| < 8 + FromLe(u[4..8]) then None
    else
      var h := u[8..8 + FromLe(u[4..8])];
      if |h| < 6 || h[5] == 0 || |h| < 5 + (h[5] as int) then None
      else
        var n := 5 + (h[5] as int);
        var tables :- TakeTables(h[n..], strs);
        Some(Decoded(h[..6], h[6..n], tables.0, tables.1, u[8 + FromLe(u[4..8])..]))
  }

  // ---------------------------------------------------------------- decoding inverts emission

  /** `strs` stores every path of `offs` at its offset. */
  predicate StoredIn(offs: map<Path, nat>, strs: seq<Byte>) {
    |strs| <= 0x1_0000_0000 && forall s <- offs :: Holds(strs, offs[s], s + [0])
  }

  lemma {:induction false} TakePathBack(s: Path, offs: map<Path, nat>, strs: seq<Byte>, rest: seq<Byte>)
    requires s in offs && NoNul(s) && StoredIn(offs, strs)
    ensures TakePath(ToLe(offs[s], 4) + rest, strs) == Some((s, rest))
  {
    HoldsFits(strs, offs[s], s + [0]);
    FromToLe32(offs[s]);
    CStringHeld(strs, offs[s], s);
    var t := ToLe(offs[s], 4) + rest;
    assert t[..4] == ToLe(offs[s], 4) && t[4..] == rest;
  }

  lemma {:induction false} TakeUlebBack(v: nat, rest: seq<Byte>)
    requires v < 0x1_0000_0000_0000_0000
    ensures TakeUleb(Uleb.Encoded(v) + rest) == Some((v, rest))
  {
    Uleb.ReadU64(v, rest);
    assert (Uleb.Encoded(v) + rest)[|Uleb.Encoded(v)|..] == rest;
  }

  lemma {:induction false} TakeDirsBack(dirs: seq<Path>, offs: map<Path, nat>, strs: seq<Byte>, rest: seq<Byte>)
    requires Covers(offs, dirs) && StoredIn(offs, strs)
    requires forall i :: 0 <= i < |dirs| ==> NoNul(dirs[i])
    ensures TakeDirs(DirRefs(dirs, offs) + rest, |dirs|, strs) == Some((dirs, rest))
  {
    if dirs == [] {
      assert DirRefs(dirs, offs) + rest == rest;
    } else {
      hide TakePath, StoredIn, NoNul, ToLe;
      var tail := DirRefs(dirs[1..], offs) + rest;
      assert DirRefs(dirs, offs) + rest == ToLe(offs[dirs[0]], 4) + tail;
      TakePathBack(dirs[0], offs, strs, tail);
      TakeDirsBack(dirs[1..], offs, strs, rest);
      assert dirs == [dirs[0]] + dirs[1..];
    }
  }

  lemma {:induction false} TakeFilesBack(files: seq<FileEntry>, offs: map<Path, nat>, strs: seq<Byte>, rest: seq<Byte>)
    requires Covers(offs, FilePaths(files)) && StoredIn(offs, strs)
    requires forall i :: 0 <= i < |files| ==> NoNul(files[i].path) && files[i].dir < 0x1_0000_0000_0000_0000
    ensures TakeFiles(FileRefs(files, offs) + rest, |files|, strs) == Some((files, rest))
  {
    if files == [] {
      assert FileRefs(files, offs) + rest == rest;
    } else {
      hide TakePath, TakeUleb, StoredIn, NoNul, ToLe, Uleb.Encoded;
      CoversRest(offs, files);
      var tail := FileRefs(files[1..], offs) + rest;
      var mid := Uleb.Encoded(files[0].dir) + tail;
      assert FileRefs(files, offs) + rest == ToLe(offs[files[0].path], 4) + mid;
      TakePathBack(files[0].path, offs, strs, mid);
      TakeUlebBack(files[0].dir, tail);
      TakeFilesBack(files[1..], offs, strs, rest);
      assert files == [files[0]] + files[1..];
    }
  }

  lemma {:induction false} TakePrefixBack(p: seq<Byte>, rest: seq<Byte>)
    ensures TakePrefix(p + rest, p) == Some(rest)
  {
    assert (p + rest)[..|p|] == p && (p + rest)[|p|..] == rest;
  }

  function TableBytes(cu: Cu, offs: map<Path, nat>): seq<Byte>
    requires CoversCu(offs, cu)
  {
    DIR_FORMAT + (Uleb.Encoded(|AllDirs(cu)|) + (DirRefs(AllDirs(cu), offs)
    + (FILE_FORMAT + (Uleb.Encoded(|AllFiles(cu)|) + FileRefs(AllFiles(cu), offs)))))
  }

  /** What a reader must see: the unit's own tables and its own program. */
  function Expected(cu: Cu): Decoded {
    Decoded(cu.params, cu.opcodeLengths, AllDirs(cu), AllFiles(cu), cu.program)
  }

  lemma {:induction false} TakeTablesBack(cu: Cu, offs: map<Path, nat>, strs: seq<Byte>)
    requires ValidCu(cu) && CoversCu(offs, cu) && StoredIn(offs, strs)
    requires |cu.dirs| < 0xffff_ffff && |cu.files| < 0xffff_ffff
    ensures TakeTables(TableBytes(cu, offs), strs) == Some((AllDirs(cu), AllFiles(cu)))
  {
    var dirs, files := AllDirs(cu), AllFiles(cu);
    assert forall i :: 0 <= i < |dirs| ==> NoNul(dirs[i]);
    assert forall i :: 0 <= i < |files| ==> NoNul(files[i].path) && files[i].dir < 0x1_0000_0000_0000_0000;
    hide TakePrefix, TakeUleb, TakeDirs, TakeFiles, StoredIn, NoNul, DirRefs, FileRefs, Uleb.Encoded, AllDirs, AllFiles,
      DIR_FORMAT, FILE_FORMAT;
    var f2 := FileRefs(files, offs);
    var f1 := Uleb.Encoded(|files|) + f2;
    var f0 := FILE_FORMAT + f1;
    var d2 := DirRefs(dirs, offs) + f0;
    var d1 := Uleb.Encoded(|dirs|) + d2;
    TakePrefixBack(DIR_FORMAT, d1);
    TakeUlebBack(|dirs|, d2);
    TakeDirsBack(dirs, offs, strs, f0);
    TakePrefixBack(FILE_FORMAT, f1);
    TakeUlebBack(|files|, f2);
    TakeFilesBack(files, offs, strs, []);
    assert f2 + [] == f2;
  }

  lemma {:induction false} DecodeBodyBack(cu: Cu, offs: map<Path, nat>, strs: seq<Byte>)
    requires ValidCu(cu) && CoversCu(offs, cu) && StoredIn(offs, strs)
    requires |UnitBytes(cu, offs)| < 0x1_0000_0000
    ensures DecodeBody(UnitBytes(cu, offs)[4..], strs) == Some(Expected(cu))
  {
    var h := HeaderBytes(cu, offs);
    var u := UnitBytes(cu, offs)[4..];
    TablesAreLong(cu, offs);
    TakeTablesBack(cu, offs, strs);
    hide TakeTables, DirRefs, FileRefs, Uleb.Encoded, StoredIn, DIR_FORMAT, FILE_FORMAT, NoNul, FromLe, ToLe;
    assert h == cu.params + cu.opcodeLengths + TableBytes(cu, offs);
    assert u == ToLe(5, 2) + [8, 0] + ToLe(|h|, 4) + h + cu.program;
    FromToLe32(|h|);
    VersionReadsBack();
    assert u[0..2] == ToLe(5, 2) && u[4..8] == ToLe(|h|, 4);
    assert u[8..8 + |h|] == h && u[8 + |h|..] == cu.program;
    assert h[..6] == cu.params && h[5] == cu.params[5];
    assert h[6..6 + |cu.opcodeLengths|] == cu.opcodeLengths;
    assert h[6 + |cu.opcodeLengths|..] == TableBytes(cu, offs);
  }

  lemma {:induction false} VersionReadsBack()
    ensures FromLe(ToLe(5, 2)) == 5
  {
    PowerBounds();
    FromToLe(5, 2);
  }

  /** Wherever a unit's bytes are stored, a reader with the final pool decodes exactly that unit. */
  lemma {:induction false} DecodeUnitBack(line: seq<Byte>, at: nat, cu: Cu, offs: map<Path, nat>, strs: seq<Byte>)
    requires ValidCu(cu) && CoversCu(offs, cu) && StoredIn(offs, strs)
    requires |line| < 0xffff_fff0 && Holds(line, at, UnitBytes(cu, offs))
    ensures DecodeUnit(line, at, strs) == Some(Expected(cu))
  {
    hide Holds, UnitBytes, DecodeBody, FromLe, ToLe, StoredIn, ValidCu, Expected, CoversCu;
    var b := UnitBytes(cu, offs);
    HoldsFits(line, at, b);
    DecodeBodyBack(cu, offs, strs);
    UnitLength(cu, offs);
    WindowSplits(line, at, b);
    FromToLe32(|b| - 4);
  }

  lemma {:induction false} WindowSplits(line: seq<Byte>, at: nat, b: seq<Byte>)
    requires 4 <= |b| && Holds(line, at, b)
    ensures at + |b| <= |line| && line[at..at + 4] == b[0..4] && line[at + 4..at + |b|] == b[4..]
  {
  }

  lemma {:induction false} DirRefsLength(dirs: seq<Path>, offs: map<Path, nat>)
    requires Covers(offs, dirs)
    ensures |dirs| <= |DirRefs(dirs, offs)|
  {
    if dirs != [] { DirRefsLength(dirs[1..], offs); }
  }

  lemma {:induction false} FileRefsLength(files: seq<FileEntry>, offs: map<Path, nat>)
    requires Covers(offs, FilePaths(files))
    ensures |files| <= |FileRefs(files, offs)|
  {
    if files != [] {
      CoversRest(offs, files);
      FileRefsLength(files[1..], offs);
    }
  }

  lemma {:induction false} TablesAreLong(cu: Cu, offs: map<Path, nat>)
    requires CoversCu(offs, cu)
    ensures |cu.dirs| < |UnitBytes(cu, offs)| - 1 && |cu.files| < |UnitBytes(cu, offs)| - 1
  {
    hide DirRefs, FileRefs, Uleb.Encoded, DIR_FORMAT, FILE_FORMAT;
    DirRefsLength(AllDirs(cu), offs);
    FileRefsLength(AllFiles(cu), offs);
  }

  lemma {:induction false} UnitLength(cu: Cu, offs: map<Path, nat>)
    requires CoversCu(offs, cu)
    ensures 12 <= |UnitBytes(cu, offs)|
    ensures UnitBytes(cu, offs)[0..4] == ToLe(|UnitBytes(cu, offs)| - 4, 4)
  {
  }

  // ---------------------------------------------------------------- all units

  /** The new `.debug_line` and the pool after the first `n` units. */
  function PoolAfter(cus: seq<Cu>, n: nat): Pool
    requires n <= |cus|
  {
    if n == 0 then Pool([], map[]) else InternAll(PoolAfter(cus, n - 1), PathsOf(cus[n - 1]))
  }

  lemma {:induction false} PoolIsSound(cus: seq<Cu>, n: nat)
    requires n <= |cus|
    ensures Sound(PoolAfter(cus, n))
  {
    if n > 0 {
      PoolIsSound(cus, n - 1);
      InternAllIsSound(PoolAfter(cus, n - 1), PathsOf(cus[n - 1]));
    }
  }

  function LineAfter(cus: seq<Cu>, n: nat): seq<Byte>
    requires n <= |cus|
  {
    if n == 0 then []
    else
      PoolIsSound(cus, n - 1);
      InternedCovers(PoolAfter(cus, n - 1), cus[n - 1]);
      LineAfter(cus, n - 1) + UnitBytes(cus[n - 1], PoolAfter(cus, n).offsets)
  }

  lemma {:induction false} PoolGrows(cus: seq<Cu>, k: nat, n: nat)
    requires k <= n <= |cus|
    ensures Extends(PoolAfter(cus, k), PoolAfter(cus, n))
  {
    if k < n {
      PoolGrows(cus, k, n - 1);
      PoolIsSound(cus, n - 1);
      InternAllIsSound(PoolAfter(cus, n - 1), PathsOf(cus[n - 1]));
    }
  }

  lemma {:induction false} UnitIsStored(cus: seq<Cu>, k: nat, n: nat)
    requires k < n <= |cus|
    ensures CoversCu(PoolAfter(cus, n).offsets, cus[k])
    ensures Holds(LineAfter(cus, n), |LineAfter(cus, k)|, UnitBytes(cus[k], PoolAfter(cus, n).offsets))
    decreases n
  {
    hide Holds, UnitBytes, InternAll, CoversCu, Sound;
    PoolIsSound(cus, n - 1);
    InternedCovers(PoolAfter(cus, n - 1), cus[n - 1]);
    var head := LineAfter(cus, n - 1);
    var b := UnitBytes(cus[n - 1], PoolAfter(cus, n).offsets);
    if k == n - 1 {
      WholeIsHeld(b);
      HoldsInTail(head, b, 0, b);
    } else {
      UnitIsStored(cus, k, n - 1);
      PoolGrows(cus, n - 1, n);
      UnitBytesStable(cus[k], PoolAfter(cus, n - 1), PoolAfter(cus, n));
      HoldsInHead(head, b, |LineAfter(cus, k)|, UnitBytes(cus[k], PoolAfter(cus, n - 1).offsets));
    }
  }

  lemma {:induction false} LineGrows(cus: seq<Cu>, k: nat, n: nat)
    requires k <= n <= |cus|
    ensures |LineAfter(cus, k)| <= |LineAfter(cus, n)|
  {
    hide UnitBytes, CoversCu, InternAll, Sound;
    if k < n { LineGrows(cus, k, n - 1); }
  }

  /** The main result: at each unit's new offset a reader finds that unit's own tables and program,
      however many units were emitted after it. */
  lemma {:induction false} EveryUnitDecodes(cus: seq<Cu>, k: nat)
    requires k < |cus| && ValidCu(cus[k])
    requires |LineAfter(cus, |cus|)| < 0xffff_fff0 && |PoolAfter(cus, |cus|).bytes| <= 0x1_0000_0000
    ensures DecodeUnit(LineAfter(cus, |cus|), |LineAfter(cus, k)|, PoolAfter(cus, |cus|).bytes) == Some(Expected(cus[k]))
  {
    PoolIsSound(cus, |cus|);
    UnitIsStored(cus, k, |cus|);
    DecodeUnitBack(LineAfter(cus, |cus|), |LineAfter(cus, k)|, cus[k],
                   PoolAfter(cus, |cus|).offsets, PoolAfter(cus, |cus|).bytes);
  }

  /** A version 4 file number: files count from 1. */
  function V4File(cu: Cu, k: nat): FileEntry
    requires 1 <= k <= |cu.files|
  {
    cu.files[k - 1]
  }

  /** A version 4 directory number: 0 is the compilation directory. */
  function V4Dir(cu: Cu, d: nat): Path
    requires d <= |cu.dirs|
  {
    if d == 0 then cu.compDir else cu.dirs[d - 1]
  }

  /** Old file and directory numbers, still used by the copied program, resolve to the same paths. */
  lemma {:induction false} NumbersKeepTheirMeaning(cus: seq<Cu>, k: nat)
    requires k < |cus| && ValidCu(cus[k])
    requires |LineAfter(cus, |cus|)| < 0xffff_fff0 && |PoolAfter(cus, |cus|).bytes| <= 0x1_0000_0000
    ensures var r := DecodeUnit(LineAfter(cus, |cus|), |LineAfter(cus, k)|, PoolAfter(cus, |cus|).bytes);
            && r.Some? && r.value.program == cus[k].program
            && |r.value.files| == |cus[k].files| + 1 && |r.value.dirs| == |cus[k].dirs| + 1
            && (forall n :: 1 <= n <= |cus[k].files| ==> r.value.files[n] == V4File(cus[k], n))
            && (forall n :: 0 <= n <= |cus[k].dirs| ==> r.value.dirs[n] == V4Dir(cus[k], n))
  {
    hide *;
    EveryUnitDecodes(cus, k);
    ExpectedNumbers(cus[k]);
  }

  lemma {:induction false} ExpectedNumbers(cu: Cu)
    ensures var d := Expected(cu);
            && d.program == cu.program
            && |d.files| == |cu.files| + 1 && |d.dirs| == |cu.dirs| + 1
            && (forall n :: 1 <= n <= |cu.files| ==> d.files[n] == V4File(cu, n))
            && (forall n :: 0 <= n <= |cu.dirs| ==> d.dirs[n] == V4Dir(cu, n))
  {
  }

  // ---------------------------------------------------------------- the emitter

  class LineStrPool {
    var bytes: seq<Byte>
    var offsets: map<Path, nat>

    ghost function Value(): Pool
      reads this
    {
      Pool(bytes, offsets)
    }

    constructor ()
      ensures Value() == Pool([], map[])
    {
      bytes, offsets := [], map[];
    }

    method Intern(s: Path) returns (off: nat)
      modifies this
      ensures Value() == Interned(old(Value()), s)
      ensures s in offsets && off == offsets[s]
    {
      if s in offsets {
        return offsets[s];
      }
      off := |bytes|;
      bytes := bytes + s;
      bytes := bytes + [0];
      offsets := offsets[s := off];
    }
  }

  lemma {:induction false} DirRefsAppend(dirs: seq<Path>, d: Path, offs: map<Path, nat>)
    requires Covers(offs, dirs) && d in offs
    ensures Covers(offs, dirs + [d])
    ensures DirRefs(dirs + [d], offs) == DirRefs(dirs, offs) + ToLe(offs[d], 4)
  {
    if dirs == [] {
      assert [] + [d] == [d] && [d][1..] == [];
      assert DirRefs([d], offs) == ToLe(offs[d], 4) + DirRefs([], offs);
    } else {
      DirRefsAppend(dirs[1..], d, offs);
      assert (dirs + [d])[1..] == dirs[1..] + [d];
    }
  }

  lemma {:induction false} FilePathsAppend(files: seq<FileEntry>, f: FileEntry)
    ensures FilePaths(files + [f]) == FilePaths(files) + [f.path]
  {
    if files == [] {
      assert [] + [f] == [f] && [f][1..] == [];
    } else {
      FilePathsAppend(files[1..], f);
      assert (files + [f])[1..] == files[1..] + [f];
    }
  }

  lemma {:induction false} FileRefsAppend(files: seq<FileEntry>, f: FileEntry, offs: map<Path, nat>)
    requires Covers(offs, FilePaths(files)) && f.path in offs
    ensures Covers(offs, FilePaths(files + [f]))
    ensures FileRefs(files + [f], offs) == FileRefs(files, offs) + ToLe(offs[f.path], 4) + Uleb.Encoded(f.dir)
  {
    FilePathsAppend(files, f);
    hide ToLe, Uleb.Encoded;
    if files == [] {
      assert [] + [f] == [f];
      FileRefsCons(f, [], offs);
    } else {
      CoversRest(offs, files);
      FileRefsAppend(files[1..], f, offs);
      assert files == [files[0]] + files[1..] && files + [f] == [files[0]] + (files[1..] + [f]);
      FileRefsCons(files[0], files[1..] + [f], offs);
      FileRefsCons(files[0], files[1..], offs);
    }
  }

  lemma {:induction false} FileRefsCons(f: FileEntry, rest: seq<FileEntry>, offs: map<Path, nat>)
    requires Covers(offs, FilePaths([f] + rest))
    ensures Covers(offs, FilePaths(rest)) && f.path in offs
    ensures FileRefs([f] + rest, offs) == ToLe(offs[f.path], 4) + Uleb.Encoded(f.dir) + FileRefs(rest, offs)
  {
    hide ToLe, Uleb.Encoded;
    assert ([f] + rest)[1..] == rest;
    CoversRest(offs, [f] + rest);
  }

  lemma {:induction false} Reassociate2(a: seq<Byte>, b: seq<Byte>, c: seq<Byte>)
    ensures a + b + c == a + (b + c)
  {
  }

  lemma {:induction false} PoolOffsets(pool: LineStrPool)
    ensures pool.Value().offsets == pool.offsets
  {
  }

  lemma {:induction false} DirStart(p: Pool)
    ensures Extends(p, p) && InternAll(p, []) == p && Covers(p.offsets, []) && DirRefs([], p.offsets) == []
  {
  }

  /** One turn of the directory loop. */
  lemma {:induction false} DirStep(p0: Pool, p: Pool, dirs: seq<Path>, i: nat)
    requires i < |dirs| && Sound(p) && Extends(p0, p) && p == InternAll(p0, dirs[..i]) && Covers(p.offsets, dirs[..i])
    ensures var q := Interned(p, dirs[i]);
            && Sound(q) && Extends(p0, q) && q == InternAll(p0, dirs[..i + 1]) && Covers(q.offsets, dirs[..i + 1])
            && dirs[i] in q.offsets
            && DirRefs(dirs[..i + 1], q.offsets) == DirRefs(dirs[..i], p.offsets) + ToLe(q.offsets[dirs[i]], 4)
  {
    hide Sound, DirRefs, ToLe, Interned;
    var q := Interned(p, dirs[i]);
    InternIsSound(p, dirs[i]);
    DirRefsStable(dirs[..i], p.offsets, q.offsets);
    DirRefsAppend(dirs[..i], dirs[i], q.offsets);
    assert dirs[..i + 1] == dirs[..i] + [dirs[i]] && dirs[..i + 1][..i] == dirs[..i];
  }

  /** The directory entries: index 0, then the include directories. */
  method EmitDirs(out0: seq<Byte>, dirs: seq<Path>, pool: LineStrPool) returns (out: seq<Byte>)
    requires Sound(pool.Value())
    modifies pool
    ensures Sound(pool.Value()) && Extends(old(pool.Value()), pool.Value())
    ensures pool.Value() == InternAll(old(pool.Value()), dirs)
    ensures Covers(pool.offsets, dirs) && out == out0 + DirRefs(dirs, pool.offsets)
  {
    hide *;
    out := out0;
    ghost var p0 := pool.Value();
    DirStart(p0);
    assert dirs[..0] == [] && out0 + [] == out0;
    for i := 0 to |dirs|
      invariant Sound(pool.Value()) && Extends(p0, pool.Value())
      invariant pool.Value() == InternAll(p0, dirs[..i])
      invariant Covers(pool.Value().offsets, dirs[..i]) && out == out0 + DirRefs(dirs[..i], pool.Value().offsets)
    {
      DirStep(p0, pool.Value(), dirs, i);
      Reassociate2(out0, DirRefs(dirs[..i], pool.Value().offsets), ToLe(Interned(pool.Value(), dirs[i]).offsets[dirs[i]], 4));
      var off := pool.Intern(dirs[i]);
      PoolOffsets(pool);
      out := out + ToLe(off, 4);
    }
    PoolOffsets(pool);
    assert dirs[..|dirs|] == dirs;
  }

  lemma {:induction false} FileStart(p: Pool, files: seq<FileEntry>)
    ensures Extends(p, p) && InternAll(p, FilePaths(files[..0])) == p
    ensures Covers(p.offsets, FilePaths(files[..0])) && FileRefs(files[..0], p.offsets) == []
  {
  }

  lemma {:induction false} FileStep(p0: Pool, p: Pool, files: seq<FileEntry>, i: nat)
    requires i < |files| && Sound(p) && Extends(p0, p)
    requires p == InternAll(p0, FilePaths(files[..i])) && Covers(p.offsets, FilePaths(files[..i]))
    ensures var q := Interned(p, files[i].path);
            && Sound(q) && Extends(p0, q) && files[i].path in q.offsets
            && q == InternAll(p0, FilePaths(files[..i + 1])) && Covers(q.offsets, FilePaths(files[..i + 1]))
            && FileRefs(files[..i + 1], q.offsets)
               == FileRefs(files[..i], p.offsets) + ToLe(q.offsets[files[i].path], 4) + Uleb.Encoded(files[i].dir)
  {
    var q := Interned(p, files[i].path);
    InternIsSound(p, files[i].path);
    hide Sound, FileRefs, FilePaths, ToLe, Interned, Uleb.Encoded;
    FileRefsStable(files[..i], p.offsets, q.offsets);
    FileRefsAppend(files[..i], files[i], q.offsets);
    FilePathsAppend(files[..i], files[i]);
    var paths := FilePaths(files[..i]);
    assert files[..i + 1] == files[..i] + [files[i]];
    assert (paths + [files[i].path])[..|paths|] == paths;
  }

  /** The file entries: index 0, then the old ones. */
  method EmitFiles(out0: seq<Byte>, files: seq<FileEntry>, pool: LineStrPool) returns (out: seq<Byte>)
    requires Sound(pool.Value())
    modifies pool
    ensures Sound(pool.Value()) && Extends(old(pool.Value()), pool.Value())
    ensures pool.Value() == InternAll(old(pool.Value()), FilePaths(files))
    ensures Covers(pool.offsets, FilePaths(files)) && out == out0 + FileRefs(files, pool.offsets)
  {
    hide Sound, InternAll, Interned, FilePaths, FileRefs, Covers, Extends, ToLe, Uleb.Encoded;
    out := out0;
    FileStart(pool.Value(), files);
    for i := 0 to |files|
      invariant Sound(pool.Value()) && Extends(old(pool.Value()), pool.Value())
      invariant pool.Value() == InternAll(old(pool.Value()), FilePaths(files[..i]))
      invariant Covers(pool.offsets, FilePaths(files[..i])) && out == out0 + FileRefs(files[..i], pool.offsets)
    {
      FileStep(old(pool.Value()), pool.Value(), files, i);
      var off := pool.Intern(files[i].path);
      out := out + ToLe(off, 4);
      out := Uleb.Write(out, files[i].dir);
    }
    assert files[..|files|] == files;
  }

  /** The part of the emitter that `header_length` counts. */
  method EmitHeader(out0: seq<Byte>, cu: Cu, pool: LineStrPool) returns (out: seq<Byte>)
    requires Sound(pool.Value())
    modifies pool
    ensures Sound(pool.Value()) && pool.Value() == InternAll(old(pool.Value()), PathsOf(cu))
    ensures CoversCu(pool.offsets, cu) && out == out0 + HeaderBytes(cu, pool.offsets)
  {
    hide Sound, InternAll, DirRefs, FileRefs, FilePaths, Uleb.Encoded, ToLe;
    var a := out0 + cu.params + cu.opcodeLengths;
    out := a + [1];
    out := Uleb.Write(out, DW_LNCT_PATH);
    out := Uleb.Write(out, DW_FORM_LINE_STRP);
    assert out == a + DIR_FORMAT;
    hide DIR_FORMAT;
    out := Uleb.Write(out, 1 + |cu.dirs|);
    ghost var p0 := pool.Value();
    out := EmitDirs(out, [cu.compDir] + cu.dirs, pool);
    ghost var p1 := pool.Value();
    var b := out;
    out := out + [2];
    out := Uleb.Write(out, DW_LNCT_PATH);
    out := Uleb.Write(out, DW_FORM_LINE_STRP);
    out := Uleb.Write(out, DW_LNCT_DIRECTORY_INDEX);
    out := Uleb.Write(out, DW_FORM_UDATA);
    assert out == b + FILE_FORMAT;
    hide FILE_FORMAT;
    out := Uleb.Write(out, 1 + |cu.files|);
    out := EmitFiles(out, [FileEntry(cu.primary, 0)] + cu.files, pool);
    DirRefsStable(AllDirs(cu), p1.offsets, pool.offsets);
    PathsInOrder(p0, cu);
    hide Covers, Extends;
    Reassociate(out0, cu.params, cu.opcodeLengths, DIR_FORMAT, Uleb.Encoded(|AllDirs(cu)|),
                DirRefs(AllDirs(cu), pool.offsets), FILE_FORMAT, Uleb.Encoded(|AllFiles(cu)|),
                FileRefs(AllFiles(cu), pool.offsets));
  }

  lemma {:induction false} Reassociate(o: seq<Byte>, p: seq<Byte>, l: seq<Byte>, a: seq<Byte>, b: seq<Byte>,
                                       c: seq<Byte>, d: seq<Byte>, e: seq<Byte>, f: seq<Byte>)
    ensures o + p + l + a + b + c + d + e + f == o + (p + l + (a + (b + (c + (d + (e + f))))))
  {
    assert d + (e + f) == d + e + f;
    assert a + (b + (c + (d + e + f))) == a + b + c + d + e + f;
  }

  /** `emit_v5_line_program_pooled`, with its two back-patched lengths. */
  method EmitUnit(out0: seq<Byte>, cu: Cu, pool: LineStrPool) returns (out: seq<Byte>)
    requires Sound(pool.Value())
    modifies pool
    ensures Sound(pool.Value()) && pool.Value() == InternAll(old(pool.Value()), PathsOf(cu))
    ensures CoversCu(pool.offsets, cu) && out == out0 + UnitBytes(cu, pool.offsets)
  {
    hide *;
    var start := |out0|;
    out := out0 + [0, 0, 0, 0] + ToLe(5, 2) + [8] + [0] + [0, 0, 0, 0];
    var headerLenPos := start + 4 + 2 + 1 + 1;
    var afterHeaderLength := |out|;
    out := EmitHeader(out, cu, pool);
    var headerLength := |out| - afterHeaderLength;
    out := Patch(out, headerLenPos, ToLe(headerLength, 4));
    out := out + cu.program;
    var unitLength := |out| - start - 4;
    out := Patch(out, start, ToLe(unitLength, 4));
    BackPatched(out0, HeaderBytes(cu, pool.offsets), cu.program);
    UnitBytesIs(cu, pool.offsets);
  }

  lemma {:induction false} PathsInOrder(p: Pool, cu: Cu)
    ensures InternAll(InternAll(p, AllDirs(cu)), FilePaths(AllFiles(cu))) == InternAll(p, PathsOf(cu))
  {
    assert AllFiles(cu)[1..] == cu.files;
    assert PathsOf(cu) == AllDirs(cu) + FilePaths(AllFiles(cu));
    InternAllAppends(p, AllDirs(cu), FilePaths(AllFiles(cu)));
  }

  lemma {:induction false} UnitBytesIs(cu: Cu, offs: map<Path, nat>)
    requires CoversCu(offs, cu)
    ensures UnitBytes(cu, offs) == ToLe(8 + |HeaderBytes(cu, offs)| + |cu.program|, 4)
         + (ToLe(5, 2) + [8, 0] + ToLe(|HeaderBytes(cu, offs)|, 4) + HeaderBytes(cu, offs) + cu.program)
  {
  }

  lemma {:induction false} BackPatched(out0: seq<Byte>, h: seq<Byte>, program: seq<Byte>)
    ensures var z: seq<Byte> := [0, 0, 0, 0];
            var v := out0 + z + ToLe(5, 2) + [8] + [0] + z + h;
            var w := Patch(v, |out0| + 8, ToLe(|h|, 4)) + program;
            Patch(w, |out0|, ToLe(8 + |h| + |program|, 4))
            == out0 + (ToLe(8 + |h| + |program|, 4) + (ToLe(5, 2) + [8, 0] + ToLe(|h|, 4) + h + program))
  {
    hide ToLe, Patch;
    var z: seq<Byte> := [0, 0, 0, 0];
    var m := ToLe(5, 2) + [8, 0];
    assert out0 + z + ToLe(5, 2) + [8] + [0] + z + h == out0 + z + m + z + h;
    assert |out0 + z + m| == |out0| + 8;
    PatchTwice(out0, z, m, h, program, ToLe(|h|, 4), ToLe(8 + |h| + |program|, 4));
  }

  lemma {:induction false} PatchTwice(a: seq<Byte>, z: seq<Byte>, m: seq<Byte>, h: seq<Byte>, p: seq<Byte>, inner: seq<Byte>, outer: seq<Byte>)
    requires |z| == |inner| == |outer|
    ensures Patch(Patch(a + z + m + z + h, |a + z + m|, inner) + p, |a|, outer) == a + (outer + (m + inner + h + p))
  {
    hide Patch;
    PatchMiddle(a + z + m, z, h, inner);
    assert a + z + m + inner + h + p == a + z + (m + inner + h + p);
    PatchMiddle(a, z, m + inner + h + p, outer);
  }

  lemma {:induction false} PatchMiddle(a: seq<Byte>, z: seq<Byte>, b: seq<Byte>, w: seq<Byte>)
    requires |z| == |w|
    ensures Patch(a + z + b, |a|, w) == a + w + b
  {
  }

  lemma {:induction false} PoolBytes(pool: LineStrPool)
    ensures pool.Value().bytes == pool.bytes
  {
  }

  lemma {:induction false} EmitStart(cus: seq<Cu>)
    ensures LineAfter(cus, 0) == [] && PoolAfter(cus, 0) == Pool([], map[]) && Sound(PoolAfter(cus, 0))
  {
  }

  lemma {:induction false} EmitStep(cus: seq<Cu>, k: nat)
    requires k < |cus|
    ensures PoolAfter(cus, k + 1) == InternAll(PoolAfter(cus, k), PathsOf(cus[k])) && Sound(PoolAfter(cus, k + 1))
    ensures CoversCu(PoolAfter(cus, k + 1).offsets, cus[k])
    ensures LineAfter(cus, k + 1) == LineAfter(cus, k) + UnitBytes(cus[k], PoolAfter(cus, k + 1).offsets)
  {
    hide InternAll, PathsOf, UnitBytes, CoversCu;
    PoolIsSound(cus, k);
    PoolIsSound(cus, k + 1);
    InternedCovers(PoolAfter(cus, k), cus[k]);
  }

  /** The unit loop of `rewrite_buffer`: the new section, its string section, and each unit's offset. */
  method EmitAll(cus: seq<Cu>) returns (line: seq<Byte>, strs: seq<Byte>, offsets: seq<nat>)
    ensures line == LineAfter(cus, |cus|) && strs == PoolAfter(cus, |cus|).bytes
    ensures |offsets| == |cus| && forall k :: 0 <= k < |cus| ==> offsets[k] == |LineAfter(cus, k)|
  {
    hide *;
    line, offsets := [], [];
    var pool := new LineStrPool();
    EmitStart(cus);
    for k := 0 to |cus|
      invariant fresh(pool) && Sound(pool.Value())
      invariant line == LineAfter(cus, k) && pool.Value() == PoolAfter(cus, k)
      invariant |offsets| == k && forall j :: 0 <= j < k ==> offsets[j] == |LineAfter(cus, j)|
    {
      offsets := offsets + [|line|];
      EmitStep(cus, k);
      line := EmitUnit(line, cus[k], pool);
      PoolOffsets(pool);
    }
    PoolBytes(pool);
    strs := pool.bytes;
  }
}
