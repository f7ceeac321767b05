/** The incremental-link cache: its binary codec, the signature verdict and the dirty report. */
module LinkCache {
  import opened Bytes
  import opened Sets

  type Path = seq<Byte>

  const MAGIC: seq<Byte> := [87, 73, 76, 68, 73, 72, 48, 53]
  const SCHEMA_VERSION: nat := 5
  const HEADER_SIZE: nat := 62
  const U16_MAX: nat := 0xffff
  const U64: nat := 0x1_0000_0000_0000_0000
  const I128_HALF: int := 0x8000_0000_0000_0000_0000_0000_0000_0000

  datatype InputHash =
    | RlibFingerprint(fingerprint: seq<Byte>)
    | ContentHash(hash: seq<Byte>, size: nat, mtime: int)

  datatype Cache = Cache(argsHash: seq<Byte>, outputSize: nat, version: seq<Byte>, inputs: map<Path, InputHash>)

  datatype Entry = Entry(path: Path, hash: InputHash)

  /** How paths become text: `utf8` says which bytes are text, `lossy` replaces what is not. */
  datatype Text = Text(utf8: Path -> bool, lossy: Path -> Path) {
    ghost predicate Valid() {
      forall p: Path :: utf8(lossy(p)) && (utf8(p) ==> lossy(p) == p)
    }
  }

  predicate ValidHash(h: InputHash) {
    match h
    case RlibFingerprint(f) => |f| <= 64
    case ContentHash(hash, size, mtime) => |hash| == 32 && size < U64 && -I128_HALF <= mtime < I128_HALF
  }

  /** The widths the fields of a cache have. */
  predicate ValidCache(c: Cache, text: Text) {
    && |c.argsHash| == 32 && c.outputSize < U64 && text.utf8(c.version)
    && |c.inputs| < U64 && (forall p :: p in c.inputs ==> ValidHash(c.inputs[p]))
  }

  // ---------------------------------------------------------------- entries

  /** `to_le_bytes` and `from_le_bytes` of `i128`. */
  function Unsigned(m: int): nat
    requires -I128_HALF <= m < I128_HALF
  {
    if m >= 0 then m else m + 2 * I128_HALF
  }

  function Signed(n: nat): int { if n < I128_HALF then n else n - 2 * I128_HALF }

  function EncodeHash(h: InputHash): seq<Byte>
    requires ValidHash(h)
  {
    match h
    case RlibFingerprint(f) => [1, |f|] + f
    case ContentHash(hash, size, mtime) => [2] + hash + ToLe(size, 8) + ToLe(Unsigned(mtime), 16)
  }

  function EncodeEntry(path: Path, h: InputHash): seq<Byte>
    requires ValidHash(h)
  {
    ToLe(|path|, 2) + path + EncodeHash(h)
  }

  /** Reads tag and body; the second component is the bytes consumed. */
  function ReadHash(s: seq<Byte>): (r: Option<(InputHash, nat)>)
    ensures r.Some? ==> 0 < r.value.1 <= |s|
  {
    if s == [] then None
    else if s[0] == 1 then
      if |s| < 2 || |s| < 2 + s[1] as int then None
      else Some((RlibFingerprint(s[2..2 + s[1] as int]), 2 + s[1] as int))
    else if s[0] == 2 then
      if |s| < 57 then None
      else Some((ContentHash(s[1..33], FromLe(s[33..41]), Signed(FromLe(s[41..57]))), 57))
    else None
  }

  function ReadEntry(s: seq<Byte>, text: Text): (r: Option<(Path, InputHash, nat)>)
    ensures r.Some? ==> 0 < r.value.2 <= |s|
  {
    if |s| < 2 then None
    else
      var n := FromLe(s[..2]);
      if |s| < 2 + n + 1 || !text.utf8(s[2..2 + n]) then None
      else
        var h :- ReadHash(s[2 + n..]);
        Some((s[2..2 + n], h.0, 2 + n + h.1))
  }

  lemma {:induction false} SignedReadsBack(m: int)
    requires -I128_HALF <= m < I128_HALF
    ensures Signed(FromLe(ToLe(Unsigned(m), 16))) == m
  {
    PowerBounds();
    FromToLe(Unsigned(m), 16);
  }

  lemma {:induction false} HashReadsBack(h: InputHash, rest: seq<Byte>)
    requires ValidHash(h)
    ensures ReadHash(EncodeHash(h) + rest) == Some((h, |EncodeHash(h)|))
  {
    hide ToLe, FromLe;
    var s := EncodeHash(h) + rest;
    match h
    case RlibFingerprint(f) =>
      assert s[2..2 + |f|] == f;
    case ContentHash(hash, size, mtime) =>
      assert s[1..33] == hash;
      assert s[33..41] == ToLe(size, 8);
      assert s[41..57] == ToLe(Unsigned(mtime), 16);
      FromToLe64(size);
      SignedReadsBack(mtime);
  }

  lemma {:induction false} EntryReadsBack(path: Path, h: InputHash, rest: seq<Byte>, text: Text)
    requires ValidHash(h) && |path| <= U16_MAX && text.utf8(path)
    ensures ReadEntry(EncodeEntry(path, h) + rest, text) == Some((path, h, |EncodeEntry(path, h)|))
    ensures (EncodeEntry(path, h) + rest)[|EncodeEntry(path, h)|..] == rest
  {
    hide ToLe, FromLe, ReadHash, EncodeHash;
    var s := EncodeEntry(path, h) + rest;
    PowerBounds();
    FromToLe(|path|, 2);
    assert s[..2] == ToLe(|path|, 2);
    assert s[2..2 + |path|] == path;
    assert s[2 + |path|..] == EncodeHash(h) + rest;
    HashReadsBack(h, rest);
  }

  /** What the writer emits: entries whose text does not fit 16 bits are skipped. */
  function EncodeEntries(entries: seq<Entry>, text: Text): seq<Byte>
    requires forall i :: 0 <= i < |entries| ==> ValidHash(entries[i].hash)
  {
    if entries == [] then []
    else
      var path := text.lossy(entries[0].path);
      (if |path| > U16_MAX then [] else EncodeEntry(path, entries[0].hash)) + EncodeEntries(entries[1..], text)
  }

  /** The reader's loop. */
  function ReadEntries(s: seq<Byte>, count: nat, text: Text, inputs: map<Path, InputHash>): Option<map<Path, InputHash>>
    decreases count
  {
    if count == 0 then Some(inputs)
    else
      var e :- ReadEntry(s, text);
      ReadEntries(s[e.2..], count - 1, text, inputs[e.0 := e.1])
  }

  /** Inserting the entries under their text, in order. */
  function PutAll(inputs: map<Path, InputHash>, entries: seq<Entry>, text: Text): map<Path, InputHash>
    decreases |entries|
  {
    if entries == [] then inputs
    else PutAll(inputs[text.lossy(entries[0].path) := entries[0].hash], entries[1..], text)
  }

  predicate AllFit(entries: seq<Entry>, text: Text) {
    forall i :: 0 <= i < |entries| ==> |text.lossy(entries[i].path)| <= U16_MAX
  }

  predicate AllValid(entries: seq<Entry>) { forall i :: 0 <= i < |entries| ==> ValidHash(entries[i].hash) }

  /** The reader gets every entry back when all were written, and runs out of bytes when one was skipped. */
  lemma {:induction false} EntriesReadBack(entries: seq<Entry>, text: Text, count: nat, inputs: map<Path, InputHash>)
    requires text.Valid() && AllValid(entries) && count >= |entries|
    ensures ReadEntries(EncodeEntries(entries, text), count, text, inputs)
            == if count == |entries| && AllFit(entries, text) then Some(PutAll(inputs, entries, text)) else None
    decreases |entries|
  {
    hide ReadEntry, EncodeEntry, ValidHash;
    if entries == [] {
      NothingToRead(text);
    } else {
      var e := entries[0];
      var path := text.lossy(e.path);
      var rest := EncodeEntries(entries[1..], text);
      if |path| > U16_MAX {
        assert EncodeEntries(entries, text) == rest;
        EntriesReadBack(entries[1..], text, count, inputs);
      } else {
        EntryReadsBack(path, e.hash, rest, text);
        EntriesReadBack(entries[1..], text, count - 1, inputs[path := e.hash]);
        FitRest(entries, text);
      }
    }
  }

  lemma {:induction false} FitRest(entries: seq<Entry>, text: Text)
    requires |entries| > 0
    ensures AllFit(entries, text) <==> |text.lossy(entries[0].path)| <= U16_MAX && AllFit(entries[1..], text)
  {
  }

  lemma {:induction false} NothingToRead(text: Text)
    ensures ReadEntry([], text).None?
  {
  }

  // ---------------------------------------------------------------- the file

  /** The entries list each input of the cache once; the writer sorts them by path. */
  predicate Enumerates(entries: seq<Entry>, inputs: map<Path, InputHash>) {
    && |entries| == |inputs|
    && (forall i :: 0 <= i < |entries| ==> entries[i].path in inputs && inputs[entries[i].path] == entries[i].hash)
    && (forall i, j :: 0 <= i < j < |entries| ==> entries[i].path != entries[j].path)
    && (forall p :: p in inputs ==> exists i :: 0 <= i < |entries| && entries[i].path == p)
  }

  function Header(c: Cache, count: nat): seq<Byte> {
    MAGIC + ToLe(SCHEMA_VERSION, 4) + ToLe(count, 8) + c.argsHash + ToLe(c.outputSize, 8) + ToLe(|c.version|, 2)
  }

  function FileBytes(c: Cache, entries: seq<Entry>, text: Text): seq<Byte>
    requires AllValid(entries)
  {
    Header(c, |entries|) + c.version + EncodeEntries(entries, text)
  }

  /** The count and the cache without inputs, from the header and the version that follows it. */
  function ReadHeader(s: seq<Byte>, text: Text): (r: Option<(Cache, nat, nat)>)
    ensures r.Some? ==> r.value.2 <= |s|
  {
    if |s| < HEADER_SIZE || s[0..8] != MAGIC || FromLe(s[8..12]) != SCHEMA_VERSION then None
    else
      var n := FromLe(s[60..62]);
      if |s| < HEADER_SIZE + n || !text.utf8(s[HEADER_SIZE..HEADER_SIZE + n]) then None
      else
        Some((Cache(s[20..52], FromLe(s[52..60]), s[HEADER_SIZE..HEADER_SIZE + n], map[]), FromLe(s[12..20]), HEADER_SIZE + n))
  }

  function ReadFile(s: seq<Byte>, text: Text): Option<Cache> {
    var h :- ReadHeader(s, text);
    var inputs :- ReadEntries(s[h.2..], h.1, text, map[]);
    Some(h.0.(inputs := inputs))
  }

  /** `write_link_cache`: fails only for a version string that is too long. */
  method WriteLinkCache(c: Cache, entries: seq<Entry>, text: Text) returns (buf: Option<seq<Byte>>)
    requires ValidCache(c, text) && Enumerates(entries, c.inputs) && AllValid(entries)
    ensures buf == if |c.version| > U16_MAX then None else Some(FileBytes(c, entries, text))
  {
    hide EncodeEntry, EncodeFrom, FileBytes, Header, ValidCache, Enumerates, AllValid, ValidHash;
    if |c.version| > U16_MAX {
      return None;
    }
    var out := Header(c, |entries|) + c.version;
    ghost var whole := FileBytes(c, entries, text);
    StartsWithHeader(c, entries, text);
    for i := 0 to |entries|
      invariant forall k :: i <= k < |entries| ==> ValidHash(entries[k].hash)
      invariant out + EncodeFrom(entries, i, text) == whole
    {
      EncodeStep(entries, i, text);
      var path := text.lossy(entries[i].path);
      if |path| <= U16_MAX {
        Associate(out, EncodeEntry(path, entries[i].hash), EncodeFrom(entries, i + 1, text));
        out := out + EncodeEntry(path, entries[i].hash);
      }
    }
    EncodeEnd(entries, text);
    assert out + [] == out;
    buf := Some(out);
  }

  function EncodeFrom(entries: seq<Entry>, i: nat, text: Text): seq<Byte>
    requires i <= |entries| && forall k :: i <= k < |entries| ==> ValidHash(entries[k].hash)
  {
    EncodeEntries(entries[i..], text)
  }

  lemma {:induction false} StartsWithHeader(c: Cache, entries: seq<Entry>, text: Text)
    requires AllValid(entries)
    ensures forall k :: 0 <= k < |entries| ==> ValidHash(entries[k].hash)
    ensures Header(c, |entries|) + c.version + EncodeFrom(entries, 0, text) == FileBytes(c, entries, text)
  {
    assert entries[0..] == entries;
  }

  lemma {:induction false} EncodeStep(entries: seq<Entry>, i: nat, text: Text)
    requires i < |entries| && forall k :: i <= k < |entries| ==> ValidHash(entries[k].hash)
    ensures var path := text.lossy(entries[i].path);
            EncodeFrom(entries, i, text)
            == if |path| > U16_MAX then EncodeFrom(entries, i + 1, text)
               else EncodeEntry(path, entries[i].hash) + EncodeFrom(entries, i + 1, text)
  {
    hide EncodeEntry;
    assert entries[i..][1..] == entries[i + 1..] && entries[i..][0] == entries[i];
  }

  lemma {:induction false} EncodeEnd(entries: seq<Entry>, text: Text)
    ensures EncodeFrom(entries, |entries|, text) == []
  {
  }

  lemma {:induction false} Associate(a: seq<Byte>, b: seq<Byte>, c: seq<Byte>)
    ensures a + (b + c) == a + b + c
  {
  }

  /** `read_link_cache`. */
  method ReadLinkCache(buf: seq<Byte>, text: Text) returns (c: Option<Cache>)
    ensures c == ReadFile(buf, text)
  {
    hide ReadHeader, ReadEntry;
    var h := ReadHeader(buf, text);
    if h.None? {
      return None;
    }
    var cursor: nat, inputs := h.value.2, map[];
    var count := h.value.1;
    for i := 0 to count
      invariant cursor <= |buf|
      invariant ReadEntries(buf[h.value.2..], count, text, map[]) == ReadEntries(buf[cursor..], count - i, text, inputs)
    {
      var e := ReadEntry(buf[cursor..], text);
      if e.None? {
        return None;
      }
      assert buf[cursor..][e.value.2..] == buf[cursor + e.value.2..];
      inputs := inputs[e.value.0 := e.value.1];
      cursor := cursor + e.value.2;
    }
    c := Some(h.value.0.(inputs := inputs));
  }

  // ---------------------------------------------------------------- round trip

  lemma {:induction false} HeaderLength(c: Cache, count: nat)
    requires |c.argsHash| == 32
    ensures |Header(c, count)| == HEADER_SIZE
  {
  }

  lemma {:induction false} HeaderParts(c: Cache, count: nat, rest: seq<Byte>)
    requires |c.argsHash| == 32
    ensures var s := Header(c, count) + rest;
            && |s| >= HEADER_SIZE && s[0..8] == MAGIC && s[8..12] == ToLe(SCHEMA_VERSION, 4) && s[12..20] == ToLe(count, 8)
            && s[20..52] == c.argsHash && s[52..60] == ToLe(c.outputSize, 8) && s[60..62] == ToLe(|c.version|, 2)
  {
    hide ToLe;
  }

  lemma {:induction false} HeaderReadsBack(c: Cache, count: nat, rest: seq<Byte>, text: Text)
    requires |c.argsHash| == 32 && c.outputSize < U64 && text.utf8(c.version) && |c.version| <= U16_MAX && count < U64
    ensures var s := Header(c, count) + c.version + rest;
            && ReadHeader(s, text) == Some((c.(inputs := map[]), count, HEADER_SIZE + |c.version|))
            && s[HEADER_SIZE + |c.version|..] == rest
  {
    hide ToLe, FromLe;
    var s := Header(c, count) + c.version + rest;
    HeaderLength(c, count);
    HeaderParts(c, count, c.version + rest);
    assert s == Header(c, count) + (c.version + rest);
    FromToLe32(SCHEMA_VERSION);
    FromToLe64(count);
    FromToLe64(c.outputSize);
    PowerBounds();
    FromToLe(|c.version|, 2);
    assert s[HEADER_SIZE..HEADER_SIZE + |c.version|] == c.version;
  }

  /** Keys are text. */
  lemma {:induction false} KeysAreText(inputs: map<Path, InputHash>, entries: seq<Entry>, text: Text, p: Path)
    requires text.Valid() && p in PutAll(inputs, entries, text)
    ensures p in inputs || text.utf8(p)
    decreases |entries|
  {
    if entries != [] {
      KeysAreText(inputs[text.lossy(entries[0].path) := entries[0].hash], entries[1..], text, p);
    }
  }

  lemma {:induction false} OthersKept(inputs: map<Path, InputHash>, entries: seq<Entry>, text: Text, p: Path)
    requires forall i :: 0 <= i < |entries| ==> text.lossy(entries[i].path) != p
    ensures p in PutAll(inputs, entries, text) <==> p in inputs
    ensures p in inputs ==> PutAll(inputs, entries, text)[p] == inputs[p]
    decreases |entries|
  {
    if entries != [] {
      OthersKept(inputs[text.lossy(entries[0].path) := entries[0].hash], entries[1..], text, p);
    }
  }

  predicate AllText(entries: seq<Entry>, text: Text) { forall i :: 0 <= i < |entries| ==> text.utf8(entries[i].path) }

  lemma {:induction false} EntryIsPut(inputs: map<Path, InputHash>, entries: seq<Entry>, text: Text, i: nat)
    requires text.Valid() && AllText(entries, text) && i < |entries|
    requires forall j, k :: 0 <= j < k < |entries| ==> entries[j].path != entries[k].path
    ensures entries[i].path in PutAll(inputs, entries, text)
    ensures PutAll(inputs, entries, text)[entries[i].path] == entries[i].hash
    decreases |entries|
  {
    var next := inputs[text.lossy(entries[0].path) := entries[0].hash];
    if i == 0 {
      OthersKept(next, entries[1..], text, entries[0].path);
    } else {
      EntryIsPut(next, entries[1..], text, i - 1);
    }
  }

  lemma {:induction false} AllArePut(entries: seq<Entry>, inputs: map<Path, InputHash>, text: Text)
    requires text.Valid() && AllText(entries, text) && Enumerates(entries, inputs)
    ensures PutAll(map[], entries, text) == inputs
  {
    hide PutAll;
    var got := PutAll(map[], entries, text);
    forall p: Path ensures (p in got <==> p in inputs) && (p in inputs ==> got[p] == inputs[p]) {
      if p in inputs {
        var i :| 0 <= i < |entries| && entries[i].path == p;
        EntryIsPut(map[], entries, text, i);
      } else {
        OthersKept(map[], entries, text, p);
      }
    }
  }

  /** Storing every input under its text keeps the map if and only if all paths are text. */
  lemma {:induction false} TextIsTheMap(entries: seq<Entry>, inputs: map<Path, InputHash>, text: Text)
    requires text.Valid() && Enumerates(entries, inputs)
    ensures PutAll(map[], entries, text) == inputs <==> AllText(entries, text)
  {
    hide PutAll;
    if AllText(entries, text) {
      AllArePut(entries, inputs, text);
    } else {
      var i :| 0 <= i < |entries| && !text.utf8(entries[i].path);
      if entries[i].path in PutAll(map[], entries, text) {
        KeysAreText(map[], entries, text, entries[i].path);
      }
    }
  }

  /** Reading a written cache gives `None` when some path does not fit 16 bits, and otherwise the cache with every path
      replaced by its text; it is the cache that was written if and only if, besides, all paths are text. */
  lemma {:induction false} RoundTrip(c: Cache, entries: seq<Entry>, text: Text)
    requires text.Valid() && ValidCache(c, text) && |c.version| <= U16_MAX
    requires Enumerates(entries, c.inputs) && AllValid(entries)
    ensures ReadFile(FileBytes(c, entries, text), text)
            == if AllFit(entries, text) then Some(c.(inputs := PutAll(map[], entries, text))) else None
    ensures ReadFile(FileBytes(c, entries, text), text) == Some(c) <==> AllFit(entries, text) && AllText(entries, text)
  {
    hide Header, EncodeEntries, ReadHeader, ReadEntries, AllFit, AllValid, PutAll, ValidHash, AllText, Enumerates;
    ListedHeader(c, entries, text);
    EntriesReadBack(entries, text, |entries|, map[]);
    TextIsTheMap(entries, c.inputs, text);
  }

  lemma {:induction false} ListedHeader(c: Cache, entries: seq<Entry>, text: Text)
    requires ValidCache(c, text) && |c.version| <= U16_MAX && Enumerates(entries, c.inputs) && AllValid(entries)
    ensures ReadHeader(FileBytes(c, entries, text), text)
            == Some((c.(inputs := map[]), |entries|, HEADER_SIZE + |c.version|))
    ensures |FileBytes(c, entries, text)| >= HEADER_SIZE + |c.version|
    ensures FileBytes(c, entries, text)[HEADER_SIZE + |c.version|..] == EncodeEntries(entries, text)
  {
    hide Header, EncodeEntries, ReadHeader;
    HeaderReadsBack(c, |entries|, EncodeEntries(entries, text), text);
    HeaderLength(c, |entries|);
  }

  // ---------------------------------------------------------------- the verdict

  datatype Mismatch = WildVersion | Args | InputsChanged | InputSetChanged

  datatype Verdict = FullMatch | Differs(reason: Mismatch)

  /** Equal sizes, and every current input cached with the same hash: the maps are equal. */
  lemma {:induction false} SameInputs(current: map<Path, InputHash>, cached: map<Path, InputHash>)
    requires |current| == |cached|
    requires forall p :: p in current ==> p in cached && cached[p] == current[p]
    ensures current == cached
  {
    assert current.Keys <= cached.Keys;
    FullSubset(current.Keys, cached.Keys);
  }

  /** The state a link would be skipped for. */
  predicate Matches(argsHash: seq<Byte>, current: map<Path, InputHash>, cached: Cache, wildVersion: seq<Byte>) {
    cached.version == wildVersion && cached.argsHash == argsHash && cached.inputs == current
  }

  /** `classify_signature`, visiting the inputs in any order. A full match means exactly that the linker version, the
      argument hash and the whole input map are equal; the other verdicts name a difference that is there. */
  method ClassifySignature(argsHash: seq<Byte>, current: map<Path, InputHash>, cached: Cache, wildVersion: seq<Byte>)
    returns (v: Verdict)
    ensures v == FullMatch <==> Matches(argsHash, current, cached, wildVersion)
    ensures v == Differs(WildVersion) <==> cached.version != wildVersion
    ensures v == Differs(Args) <==> cached.version == wildVersion && cached.argsHash != argsHash
    ensures v == Differs(InputsChanged) ==> exists p :: p in current && p in cached.inputs && current[p] != cached.inputs[p]
    ensures v == Differs(InputSetChanged) ==> current.Keys != cached.inputs.Keys
  {
    if cached.version != wildVersion {
      return Differs(WildVersion);
    }
    if cached.argsHash != argsHash {
      return Differs(Args);
    }
    if |cached.inputs| != |current| {
      return Differs(InputSetChanged);
    }
    var left := current.Keys;
    while left != {}
      invariant left <= current.Keys
      invariant forall p :: p in current && p !in left ==> p in cached.inputs && cached.inputs[p] == current[p]
      decreases |left|
    {
      var p :| p in left;
      if p !in cached.inputs {
        return Differs(InputSetChanged);
      }
      if cached.inputs[p] != current[p] {
        return Differs(InputsChanged);
      }
      left := left - {p};
    }
    SameInputs(current, cached.inputs);
    v := FullMatch;
  }

  /** The verdict of the next link: the cache is written, read back, and compared. It is a full match exactly for the
      stored map, in which every path is replaced by its text. */
  method NextVerdict(c: Cache, entries: seq<Entry>, text: Text, argsHash: seq<Byte>, current: map<Path, InputHash>,
                     wildVersion: seq<Byte>) returns (v: Option<Verdict>)
    requires text.Valid() && ValidCache(c, text) && |c.version| <= U16_MAX
    requires Enumerates(entries, c.inputs) && AllValid(entries)
    ensures v.None? <==> !AllFit(entries, text)
    ensures v == Some(FullMatch) <==>
              AllFit(entries, text) && Matches(argsHash, current, c.(inputs := PutAll(map[], entries, text)), wildVersion)
  {
    hide FileBytes, ReadFile, AllValid, Enumerates, AllFit, ValidCache, PutAll, Matches;
    RoundTrip(c, entries, text);
    var file := WriteLinkCache(c, entries, text);
    var read := ReadLinkCache(file.value, text);
    if read.None? {
      return None;
    }
    var verdict := ClassifySignature(argsHash, current, read.value, wildVersion);
    v := Some(verdict);
  }

  /** What was written is what is matched if and only if all paths are text: with them no other state is ever taken for
      the written one, and without them no full match is for the written state. */
  lemma {:induction false} SkipsOnlyUnchanged(c: Cache, entries: seq<Entry>, text: Text, argsHash: seq<Byte>,
                                              current: map<Path, InputHash>, wildVersion: seq<Byte>)
    requires text.Valid() && Enumerates(entries, c.inputs)
    requires Matches(argsHash, current, c.(inputs := PutAll(map[], entries, text)), wildVersion)
    ensures c.version == wildVersion && c.argsHash == argsHash
    ensures Matches(argsHash, current, c, wildVersion) <==> AllText(entries, text)
  {
    hide Enumerates, AllText, PutAll;
    TextIsTheMap(entries, c.inputs, text);
  }

  /** A state that was never written gets a full match: the path `[255]` is not text and is stored as `[63]`. */
  lemma {:induction false} OtherStateMatches(h: InputHash, argsHash: seq<Byte>)
    requires ValidHash(h) && |argsHash| == 32
    ensures var text := Text(p => p != [255], p => if p == [255] then [63] else p);
            var c := Cache(argsHash, 0, [], map[[255] := h]);
            var entries := [Entry([255], h)];
            var current := map[[63] := h];
            && text.Valid() && ValidCache(c, text) && Enumerates(entries, c.inputs) && AllValid(entries) && AllFit(entries, text)
            && Matches(argsHash, current, c.(inputs := PutAll(map[], entries, text)), [])
            && current != c.inputs
  {
    var text := Text(p => p != [255], p => if p == [255] then [63] else p);
    var entries := [Entry([255], h)];
    assert entries[1..] == [];
    assert text.lossy([255]) == [63];
    assert PutAll(map[], entries, text) == PutAll(map[[63] := h], [], text) == map[[63] := h];
    assert [255] in map[[255] := h] && [255] !in map[[63] := h];
    assert entries[0].path == [255];
    assert |map[[255] := h]| == 1;
  }

  // ---------------------------------------------------------------- the dirty report

  datatype Report = Report(dirty: nat, clean: nat, orphans: nat, paths: seq<Path>)

  predicate IsClean(current: map<Path, InputHash>, cached: map<Path, InputHash>, p: Path) {
    p in current && p in cached && cached[p] == current[p]
  }

  function CleanPaths(current: map<Path, InputHash>, cached: map<Path, InputHash>): set<Path> {
    set p | p in current && IsClean(current, cached, p)
  }

  predicate NoDuplicates(s: seq<Path>) { forall i, j :: 0 <= i < j < |s| ==> s[i] != s[j] }

  /** The inputs not in `left` are listed: clean ones in `seen`, the others in `paths`. */
  ghost predicate Sorted(current: map<Path, InputHash>, cached: map<Path, InputHash>, left: set<Path>, seen: set<Path>, paths: seq<Path>) {
    && left <= current.Keys
    && (forall p :: p in seen <==> p in current && p !in left && IsClean(current, cached, p))
    && (forall p :: p in paths <==> p in current && p !in left && !IsClean(current, cached, p))
    && NoDuplicates(paths) && |paths| + |seen| + |left| == |current|
  }

  lemma {:induction false} SortClean(current: map<Path, InputHash>, cached: map<Path, InputHash>, left: set<Path>, seen: set<Path>, paths: seq<Path>, p: Path)
    requires Sorted(current, cached, left, seen, paths) && p in left && IsClean(current, cached, p)
    ensures Sorted(current, cached, left - {p}, seen + {p}, paths) && |seen + {p}| == |seen| + 1
  {
    hide IsClean;
  }

  lemma {:induction false} SortDirty(current: map<Path, InputHash>, cached: map<Path, InputHash>, left: set<Path>, seen: set<Path>, paths: seq<Path>, p: Path)
    requires Sorted(current, cached, left, seen, paths) && p in left && !IsClean(current, cached, p)
    ensures Sorted(current, cached, left - {p}, seen, paths + [p])
  {
    hide IsClean;
    assert p !in paths;
  }

  lemma {:induction false} SortNone(current: map<Path, InputHash>, cached: map<Path, InputHash>)
    ensures Sorted(current, cached, current.Keys, {}, [])
  {
    assert |current.Keys| == |current|;
  }

  lemma {:induction false} AllSorted(current: map<Path, InputHash>, cached: map<Path, InputHash>, seen: set<Path>, paths: seq<Path>)
    requires Sorted(current, cached, {}, seen, paths)
    ensures seen == CleanPaths(current, cached) && NoDuplicates(paths) && |paths| + |seen| == |current|
    ensures forall p :: p in paths <==> p in current.Keys - CleanPaths(current, cached)
  {
    hide IsClean;
    assert seen == CleanPaths(current, cached);
  }

  /** `classify_dirty`: the dirty paths are listed once each, and the three counts are exact. */
  method ClassifyDirty(current: map<Path, InputHash>, cached: map<Path, InputHash>) returns (r: Report)
    ensures r.clean == |CleanPaths(current, cached)|
    ensures r.dirty == |r.paths| && NoDuplicates(r.paths)
    ensures forall p :: p in r.paths <==> p in current.Keys - CleanPaths(current, cached)
    ensures r.orphans == |cached.Keys - current.Keys|
    ensures r.dirty + r.clean == |current|
  {
    hide Sorted, CleanPaths, NoDuplicates;
    var paths: seq<Path>, clean: nat := [], 0;
    var left := current.Keys;
    ghost var seen: set<Path> := {};
    SortNone(current, cached);
    while left != {}
      invariant Sorted(current, cached, left, seen, paths) && clean == |seen|
      decreases |left|
    {
      var p :| p in left;
      IsListed(current, cached, left, seen, paths, p);
      if p in cached && cached[p] == current[p] {
        SortClean(current, cached, left, seen, paths, p);
        seen := seen + {p};
        clean := clean + 1;
      } else {
        SortDirty(current, cached, left, seen, paths, p);
        paths := paths + [p];
      }
      left := left - {p};
    }
    AllSorted(current, cached, seen, paths);
    r := Report(|paths|, clean, |cached.Keys - current.Keys|, paths);
  }

  lemma {:induction false} IsListed(current: map<Path, InputHash>, cached: map<Path, InputHash>, left: set<Path>, seen: set<Path>, paths: seq<Path>, p: Path)
    requires Sorted(current, cached, left, seen, paths) && p in left
    ensures p in current
  {
  }

  /** Nothing dirty and nothing orphaned: exactly when the maps are equal. */
  lemma {:induction false} CleanIsEqual(current: map<Path, InputHash>, cached: map<Path, InputHash>)
    ensures |CleanPaths(current, cached)| == |current| && |cached.Keys - current.Keys| == 0 <==> current == cached
  {
    var clean := CleanPaths(current, cached);
    assert clean <= current.Keys;
    if |clean| == |current| && |cached.Keys - current.Keys| == 0 {
      FullSubset(clean, current.Keys);
      assert cached.Keys - current.Keys == {};
      assert forall p :: p in current ==> p in clean;
      assert forall p :: p in cached ==> p in current.Keys;
    }
    if current == cached {
      assert clean == current.Keys;
      assert cached.Keys - current.Keys == {};
    }
  }
}
