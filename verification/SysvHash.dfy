/** The `.hash` section: building the bucket and chain tables, and looking names up in them. */
module SysvHash {
  import opened Bytes
  import opened Words

  type Name = seq<Byte>

  const U32: nat := 0x1_0000_0000

  /** Bucket of each definition, in symbol order. */
  function BucketsOf(names: seq<Name>, hash: Name -> nat, count: nat): (r: seq<nat>)
    requires count > 0
    ensures |r| == |names|
    ensures forall k :: 0 <= k < |names| ==> r[k] == hash(names[k]) % count && r[k] < count
  {
    seq(|names|, k requires 0 <= k < |names| => hash(names[k]) % count)
  }

  /** The first definition of bucket `b` at or after `from`, or the number of definitions. */
  function NextIn(bs: seq<nat>, from: nat, b: nat): (j: nat)
    requires from <= |bs|
    ensures from <= j <= |bs|
    ensures j < |bs| ==> bs[j] == b
    ensures forall k :: from <= k < j ==> bs[k] != b
    decreases |bs| - from
  {
    if from == |bs| || bs[from] == b then from else NextIn(bs, from + 1, b)
  }

  /** The table word for definition `j`: its symbol index, or 0 for none. */
  function Word(start: nat, count: nat, j: nat): nat { if j < count then start + j else 0 }

  predicate HeadOk(start: nat, bs: seq<nat>, buckets: seq<nat>, b: nat)
    requires b < |buckets|
  {
    buckets[b] == Word(start, |bs|, NextIn(bs, 0, b))
  }

  predicate LinkOk(start: nat, bs: seq<nat>, chains: seq<nat>, k: nat)
    requires k < |bs| && start + |bs| <= |chains|
  {
    chains[start + k] == Word(start, |bs|, NextIn(bs, k + 1, bs[k]))
  }

  predicate LastOk(start: nat, bs: seq<nat>, last: seq<Option<nat>>, b: nat)
    requires b < |last|
  {
    match last[b]
    case None => NextIn(bs, 0, b) == |bs|
    case Some(at) => start <= at < start + |bs| && bs[at - start] == b && NextIn(bs, at - start + 1, b) == |bs|
  }

  /** The tables index the definitions whose buckets are `bs`, the first of which is symbol `start`. */
  ghost predicate Indexed(start: nat, bs: seq<nat>, buckets: seq<nat>, chains: seq<nat>)
    requires start + |bs| <= |chains|
  {
    && (forall b :: 0 <= b < |buckets| ==> HeadOk(start, bs, buckets, b))
    && (forall k :: 0 <= k < |bs| ==> LinkOk(start, bs, chains, k))
    && (forall i :: 0 <= i < |chains| && (i < start || start + |bs| <= i) ==> chains[i] == 0)
  }

  ghost predicate Lasts(start: nat, bs: seq<nat>, last: seq<Option<nat>>) {
    forall b :: 0 <= b < |last| ==> LastOk(start, bs, last, b)
  }

  lemma {:induction false} NextInMore(bs: seq<nat>, c: nat, from: nat, b: nat)
    requires from <= |bs|
    ensures NextIn(bs + [c], from, b)
            == if NextIn(bs, from, b) < |bs| then NextIn(bs, from, b) else if b == c then |bs| else |bs| + 1
    decreases |bs| - from
  {
    if from < |bs| && bs[from] != b {
      NextInMore(bs, c, from + 1, b);
    }
  }

  /** The effect of one turn of the writer's loop. */
  function BucketsAfter(start: nat, n: nat, buckets: seq<nat>, c: nat): seq<nat>
    requires c < |buckets|
  {
    if buckets[c] == 0 then buckets[c := start + n] else buckets
  }

  function ChainsAfter(start: nat, n: nat, buckets: seq<nat>, chains: seq<nat>, last: seq<Option<nat>>, c: nat): seq<nat>
    requires c < |buckets| == |last|
  {
    if buckets[c] != 0 && last[c].Some? && last[c].value < |chains| then chains[last[c].value := start + n] else chains
  }

  lemma {:induction false} HeadsKept(start: nat, bs: seq<nat>, buckets: seq<nat>, chains: seq<nat>, c: nat, b: nat)
    requires 0 < start && start + |bs| < |chains| && c < |buckets| && b < |buckets|
    requires Indexed(start, bs, buckets, chains)
    ensures HeadOk(start, bs + [c], BucketsAfter(start, |bs|, buckets, c), b)
  {
    assert HeadOk(start, bs, buckets, b) && HeadOk(start, bs, buckets, c);
    NextInMore(bs, c, 0, b);
  }

  lemma {:induction false} LastKept(start: nat, bs: seq<nat>, last: seq<Option<nat>>, c: nat, b: nat)
    requires c < |last| && b < |last|
    requires Lasts(start, bs, last)
    ensures LastOk(start, bs + [c], last[c := Some(start + |bs|)], b)
  {
    assert LastOk(start, bs, last, b);
    if b != c {
      NextInMore(bs, c, 0, b);
      if last[b].Some? {
        NextInMore(bs, c, last[b].value - start + 1, b);
      }
    }
  }

  /** A bucket in use has a last entry. */
  lemma {:induction false} LastIsKnown(start: nat, bs: seq<nat>, buckets: seq<nat>, chains: seq<nat>, last: seq<Option<nat>>, c: nat)
    requires start + |bs| <= |chains| && c < |buckets| == |last|
    requires Indexed(start, bs, buckets, chains) && Lasts(start, bs, last) && buckets[c] != 0
    ensures last[c].Some? && start <= last[c].value < start + |bs|
  {
    assert HeadOk(start, bs, buckets, c) && LastOk(start, bs, last, c);
  }

  lemma {:induction false} LinkKept(start: nat, bs: seq<nat>, buckets: seq<nat>, chains: seq<nat>, last: seq<Option<nat>>, c: nat, k: nat)
    requires 0 < start && start + |bs| < |chains| && c < |buckets| == |last| && k < |bs|
    requires Indexed(start, bs, buckets, chains) && Lasts(start, bs, last)
    ensures LinkOk(start, bs + [c], ChainsAfter(start, |bs|, buckets, chains, last, c), k)
  {
    assert LinkOk(start, bs, chains, k);
    assert HeadOk(start, bs, buckets, c) && LastOk(start, bs, last, c);
    NextInMore(bs, c, k + 1, bs[k]);
    assert (bs + [c])[k] == bs[k];
  }

  lemma {:induction false} NewestHasNoLink(start: nat, bs: seq<nat>, buckets: seq<nat>, chains: seq<nat>, last: seq<Option<nat>>, c: nat, i: nat)
    requires 0 < start && start + |bs| < |chains| && c < |buckets| == |last|
    requires Indexed(start, bs, buckets, chains) && Lasts(start, bs, last)
    requires i < |chains| && (i < start || start + |bs| <= i)
    ensures ChainsAfter(start, |bs|, buckets, chains, last, c)[i] == 0
  {
    assert LastOk(start, bs, last, c);
  }

  lemma {:induction false} OneMore(start: nat, bs: seq<nat>, buckets: seq<nat>, chains: seq<nat>, last: seq<Option<nat>>, c: nat)
    requires 0 < start && start + |bs| < |chains| && c < |buckets| == |last|
    requires Indexed(start, bs, buckets, chains) && Lasts(start, bs, last)
    ensures Indexed(start, bs + [c], BucketsAfter(start, |bs|, buckets, c), ChainsAfter(start, |bs|, buckets, chains, last, c))
    ensures Lasts(start, bs + [c], last[c := Some(start + |bs|)])
  {
    hide HeadOk, LastOk;
    var bs', buckets', chains', last' := bs + [c], BucketsAfter(start, |bs|, buckets, c),
      ChainsAfter(start, |bs|, buckets, chains, last, c), last[c := Some(start + |bs|)];
    forall b | 0 <= b < |buckets'| ensures HeadOk(start, bs', buckets', b) {
      HeadsKept(start, bs, buckets, chains, c, b);
    }
    forall b | 0 <= b < |last'| ensures LastOk(start, bs', last', b) {
      LastKept(start, bs, last, c, b);
    }
    NewestHasNoLink(start, bs, buckets, chains, last, c, start + |bs|);
    forall k | 0 <= k < |bs'| ensures LinkOk(start, bs', chains', k) {
      if k < |bs| {
        LinkKept(start, bs, buckets, chains, last, c, k);
      }
    }
    forall i | 0 <= i < |chains'| && (i < start || start + |bs'| <= i) ensures chains'[i] == 0 {
      NewestHasNoLink(start, bs, buckets, chains, last, c, i);
    }
  }

  // ---------------------------------------------------------------- the writer

  /** The four parts of the section. */
  datatype Table = Table(buckets: seq<nat>, chains: seq<nat>) {
    function Words(): seq<nat> { [|buckets|, |chains|] + buckets + chains }
  }

  /** `bucket_count` of `allocate_sysv_hash`. */
  function BucketCount(definitions: nat): (n: nat)
    ensures n > 0
  {
    NextPowerOfTwo(if definitions / 2 >= 1 then definitions / 2 else 1)
  }

  function ByteSize(bucketCount: nat, chainCount: nat): nat { 4 * (2 + bucketCount + chainCount) }

  /** `write_sysv_hash_table`: the loop over the definitions, filling the two tables in place. */
  method Fill(names: seq<Name>, hash: Name -> nat, start: nat, buckets: array<nat>, chains: array<nat>)
    requires 0 < start && buckets.Length > 0 && chains.Length == start + |names| && buckets != chains
    modifies buckets, chains
    ensures Indexed(start, BucketsOf(names, hash, buckets.Length), buckets[..], chains[..])
  {
    hide HeadOk, LinkOk, LastOk, Indexed, Lasts;
    var count := buckets.Length;
    ghost var bs := BucketsOf(names, hash, count);
    Clear(buckets);
    Clear(chains);
    var last := new Option<nat>[count](_ => None);
    NothingIndexed(start, buckets[..], chains[..], last[..]);
    assert bs[..0] == [];
    for i := 0 to |names|
      invariant Indexed(start, bs[..i], buckets[..], chains[..])
      invariant Lasts(start, bs[..i], last[..])
    {
      ghost var buckets0, chains0, last0 := buckets[..], chains[..], last[..];
      var symbol := start + i;
      var bucket: nat := hash(names[i]) % count;
      assert bs[i] == bucket;
      OneMore(start, bs[..i], buckets0, chains0, last0, bucket);
      if buckets[bucket] == 0 {
        buckets[bucket] := symbol;
      } else {
        LastIsKnown(start, bs[..i], buckets0, chains0, last0, bucket);
        var at := last[bucket].value;
        chains[at] := symbol;
      }
      last[bucket] := Some(symbol);
      assert buckets[..] == BucketsAfter(start, i, buckets0, bucket);
      assert chains[..] == ChainsAfter(start, i, buckets0, chains0, last0, bucket);
      assert last[..] == last0[bucket := Some(symbol)];
      assert bs[..i + 1] == bs[..i] + [bucket];
    }
    assert bs[..|names|] == bs;
  }

  method Clear(a: array<nat>)
    modifies a
    ensures forall i :: 0 <= i < a.Length ==> a[i] == 0
  {
    for i := 0 to a.Length
      invariant forall k :: 0 <= k < i ==> a[k] == 0
    {
      a[i] := 0;
    }
  }

  lemma {:induction false} NothingIndexed(start: nat, buckets: seq<nat>, chains: seq<nat>, last: seq<Option<nat>>)
    requires start <= |chains|
    requires forall i :: 0 <= i < |buckets| ==> buckets[i] == 0
    requires forall i :: 0 <= i < |chains| ==> chains[i] == 0
    requires forall i :: 0 <= i < |last| ==> last[i] == None
    ensures Indexed(start, [], buckets, chains) && Lasts(start, [], last)
  {
    assert forall b :: 0 <= b < |buckets| ==> HeadOk(start, [], buckets, b);
    assert forall b :: 0 <= b < |last| ==> LastOk(start, [], last, b);
  }

  // ---------------------------------------------------------------- chains

  /** The symbols of bucket `b`, from definition `from` on, in order. */
  function Members(start: nat, bs: seq<nat>, from: nat, b: nat): seq<nat>
    requires from <= |bs|
    decreases |bs| - from
  {
    if from == |bs| then []
    else if bs[from] == b then [start + from] + Members(start, bs, from + 1, b)
    else Members(start, bs, from + 1, b)
  }

  /** The entries met on at most `steps` steps along a chain from entry `i`; 0 ends it. */
  function Follow(chains: seq<nat>, i: nat, steps: nat): seq<nat>
    decreases steps
  {
    if i == 0 || steps == 0 || i >= |chains| then [] else [i] + Follow(chains, chains[i], steps - 1)
  }

  lemma {:induction false} MembersFromNext(start: nat, bs: seq<nat>, from: nat, b: nat)
    requires from <= |bs|
    ensures Members(start, bs, from, b) == Members(start, bs, NextIn(bs, from, b), b)
    decreases |bs| - from
  {
    if from < |bs| && bs[from] != b {
      MembersFromNext(start, bs, from + 1, b);
    }
  }

  lemma {:induction false} FollowFrom(start: nat, bs: seq<nat>, buckets: seq<nat>, chains: seq<nat>, b: nat, from: nat, steps: nat)
    requires 0 < start && start + |bs| <= |chains| && Indexed(start, bs, buckets, chains)
    requires from <= |bs| && steps >= |bs| - from
    ensures Follow(chains, Word(start, |bs|, NextIn(bs, from, b)), steps) == Members(start, bs, from, b)
    decreases |bs| - from
  {
    hide HeadOk;
    MembersFromNext(start, bs, from, b);
    var j := NextIn(bs, from, b);
    if j < |bs| {
      assert LinkOk(start, bs, chains, j);
      FollowFrom(start, bs, buckets, chains, b, j + 1, steps - 1);
    }
  }

  /** From every bucket the chain ends, and visits exactly the definitions of that bucket, in order. */
  lemma {:induction false} ChainIsBucket(start: nat, bs: seq<nat>, buckets: seq<nat>, chains: seq<nat>, b: nat, steps: nat)
    requires 0 < start && start + |bs| <= |chains| && Indexed(start, bs, buckets, chains) && b < |buckets|
    requires steps >= |bs|
    ensures Follow(chains, buckets[b], steps) == Members(start, bs, 0, b)
  {
    assert HeadOk(start, bs, buckets, b);
    FollowFrom(start, bs, buckets, chains, b, 0, steps);
  }

  predicate Increasing(s: seq<nat>) { forall i, j :: 0 <= i < j < |s| ==> s[i] < s[j] }

  lemma {:induction false} IncreasingCons(x: nat, s: seq<nat>)
    requires Increasing(s) && forall i <- s :: x < i
    ensures Increasing([x] + s)
  {
    forall i, j | 0 <= i < j < |s| + 1 ensures ([x] + s)[i] < ([x] + s)[j] {
      assert s[j - 1] in s;
    }
  }

  /** The members of a bucket are the symbols that hash to it, each once, in increasing order. */
  lemma {:induction false} MembersAreExact(start: nat, bs: seq<nat>, from: nat, b: nat)
    requires from <= |bs|
    ensures Increasing(Members(start, bs, from, b))
    ensures forall i :: i in Members(start, bs, from, b) <==> start + from <= i < start + |bs| && bs[i - start] == b
    decreases |bs| - from
  {
    hide Increasing;
    if from == |bs| {
      NoneIncreasing();
    } else {
      MembersAreExact(start, bs, from + 1, b);
      var rest := Members(start, bs, from + 1, b);
      if bs[from] == b {
        IncreasingCons(start + from, rest);
      }
    }
  }

  lemma {:induction false} NoneIncreasing()
    ensures Increasing([])
  {
  }

  // ---------------------------------------------------------------- lookup

  /** The first symbol from definition `from` on with this name, or 0. */
  function LinearSearch(start: nat, names: seq<Name>, from: nat, name: Name): (r: nat)
    requires from <= |names|
    ensures r != 0 ==> start + from <= r < start + |names| && names[r - start] == name
    ensures r == 0 && start > 0 ==> name !in names[from..]
    decreases |names| - from
  {
    if from == |names| then 0
    else if names[from] == name then start + from
    else LinearSearch(start, names, from + 1, name)
  }

  lemma {:induction false} NothingBefore(start: nat, names: seq<Name>, from: nat, to: nat, name: Name)
    requires from <= to <= |names|
    requires forall k :: from <= k < to ==> names[k] != name
    ensures LinearSearch(start, names, from, name) == LinearSearch(start, names, to, name)
    decreases |names| - from
  {
    if from < to {
      NothingBefore(start, names, from + 1, to, name);
    }
  }

  lemma {:induction false} FirstIs(start: nat, names: seq<Name>, j: nat, name: Name)
    requires j <= |names| && (j < |names| ==> names[j] == name)
    requires forall k :: 0 <= k < j ==> names[k] != name
    ensures LinearSearch(start, names, 0, name) == Word(start, |names|, j)
  {
    NothingBefore(start, names, 0, j, name);
  }

  /** The section as bytes holds these tables. */
  ghost predicate Holds(section: seq<Byte>, buckets: seq<nat>, chains: seq<nat>) {
    && section == ToBytes(Table(buckets, chains).Words())
    && (forall w <- Table(buckets, chains).Words() :: w < U32)
  }

  lemma {:induction false} HeldWords(section: seq<Byte>, buckets: seq<nat>, chains: seq<nat>)
    requires Holds(section, buckets, chains)
    ensures |section| == ByteSize(|buckets|, |chains|)
    ensures WordAt(section, 0) == |buckets| && WordAt(section, 1) == |chains|
    ensures forall b :: 0 <= b < |buckets| ==> WordAt(section, 2 + b) == buckets[b]
    ensures forall i :: 0 <= i < |chains| ==> WordAt(section, 2 + |buckets| + i) == chains[i]
  {
    var words := Table(buckets, chains).Words();
    forall i | 0 <= i < |words| ensures WordAt(section, i) == words[i] {
      assert words[i] in words;
      WordReadsBack(words, i);
    }
    assert words[0] == |buckets| && words[1] == |chains|;
    forall b | 0 <= b < |buckets| ensures WordAt(section, 2 + b) == buckets[b] {
      assert words[2 + b] == buckets[b];
    }
    forall i | 0 <= i < |chains| ensures WordAt(section, 2 + |buckets| + i) == chains[i] {
      assert words[2 + |buckets| + i] == chains[i];
    }
  }

  /** `write_sysv_hash_table`, as bytes. No section is made without definitions; the symbol count must fit 32 bits. */
  method WriteSysvHash(names: seq<Name>, hash: Name -> nat, start: nat) returns (section: Option<seq<Byte>>)
    requires 0 < start
    ensures section.None? <==> |names| == 0 || start + |names| >= U32
    ensures section.Some? ==> |section.value| == ByteSize(BucketCount(|names|), start + |names|)
    ensures section.Some? ==> IsHash(section.value, names, hash, start)
  {
    hide Indexed, Table.Words;
    if |names| == 0 || start + |names| >= U32 {
      return None;
    }
    var buckets, chains := new nat[BucketCount(|names|)], new nat[start + |names|];
    BucketsFit(|names|);
    Fill(names, hash, start, buckets, chains);
    WordsFit(start, BucketsOf(names, hash, buckets.Length), buckets[..], chains[..]);
    section := Some(ToBytes(Table(buckets[..], chains[..]).Words()));
    HeldWords(section.value, buckets[..], chains[..]);
    IsHashOf(section.value, names, hash, start, buckets[..], chains[..]);
  }

  /** The section holds tables that index the names. */
  ghost predicate IsHash(section: seq<Byte>, names: seq<Name>, hash: Name -> nat, start: nat) {
    exists buckets: seq<nat>, chains: seq<nat> :: Held(section, buckets, chains, names, hash, start)
  }

  ghost predicate Held(section: seq<Byte>, buckets: seq<nat>, chains: seq<nat>, names: seq<Name>, hash: Name -> nat, start: nat) {
    && Holds(section, buckets, chains) && |buckets| > 0 && |chains| == start + |names|
    && Indexed(start, BucketsOf(names, hash, |buckets|), buckets, chains)
  }

  lemma {:induction false} IsHashOf(section: seq<Byte>, names: seq<Name>, hash: Name -> nat, start: nat, buckets: seq<nat>, chains: seq<nat>)
    requires Held(section, buckets, chains, names, hash, start)
    ensures IsHash(section, names, hash, start)
  {
  }

  lemma {:induction false} BucketsFit(n: nat)
    requires 0 < n < U32
    ensures BucketCount(n) < U32
  {
  }

  lemma {:induction false} WordsFit(start: nat, bs: seq<nat>, buckets: seq<nat>, chains: seq<nat>)
    requires start + |bs| == |chains| < U32 && |buckets| < U32 && Indexed(start, bs, buckets, chains)
    ensures forall w <- Table(buckets, chains).Words() :: w < U32
  {
    forall i | 0 <= i < |buckets| ensures buckets[i] < U32 { assert HeadOk(start, bs, buckets, i); }
    forall i | 0 <= i < |chains| ensures chains[i] < U32 {
      if i >= start { assert LinkOk(start, bs, chains, i - start); }
    }
  }

  /** A loader's lookup: `symbolName(i)` is the name of symbol `i`. It agrees with a linear search of the definitions,
      for defined and undefined names alike. */
  method Lookup(section: seq<Byte>, symbolNames: seq<Name>, hash: Name -> nat, name: Name,
                ghost names: seq<Name>, ghost start: nat) returns (symbol: nat)
    requires 0 < start && start + |names| == |symbolNames| && symbolNames[start..] == names
    requires IsHash(section, names, hash, start)
    ensures symbol == LinearSearch(start, names, 0, name)
  {
    hide Indexed, HeadOk, LinkOk, Holds, NextIn, LinearSearch, FromLe, ToBytes;
    ghost var buckets: seq<nat>, chains: seq<nat> :| Held(section, buckets, chains, names, hash, start);
    HeldWords(section, buckets, chains);
    ghost var bs := BucketsOf(names, hash, |buckets|);
    var bucketCount := WordAt(section, 0);
    var bucket: nat := hash(name) % bucketCount;
    symbol := WordAt(section, 2 + bucket);
    ghost var from := 0;
    Head(start, bs, buckets, chains, bucket);
    while symbol != 0
      invariant from <= |bs| && symbol == Word(start, |bs|, NextIn(bs, from, bucket))
      invariant forall k :: 0 <= k < from ==> names[k] != name
      decreases |bs| - from
    {
      NextBounds(bs, from, bucket);
      ghost var j := NextIn(bs, from, bucket);
      Skipped(names, hash, |buckets|, from, name);
      assert symbolNames[symbol] == names[j] by { assert symbolNames[start..][j] == names[j]; }
      if symbolNames[symbol] == name {
        FirstIs(start, names, j, name);
        return;
      }
      Link(start, bs, buckets, chains, j);
      from := j + 1;
      symbol := WordAt(section, 2 + bucketCount + symbol);
    }
    NextBounds(bs, from, bucket);
    Skipped(names, hash, |buckets|, from, name);
    FirstIs(start, names, |names|, name);
  }

  lemma {:induction false} Head(start: nat, bs: seq<nat>, buckets: seq<nat>, chains: seq<nat>, b: nat)
    requires start + |bs| <= |chains| && Indexed(start, bs, buckets, chains) && b < |buckets|
    ensures buckets[b] == Word(start, |bs|, NextIn(bs, 0, b))
  {
    assert HeadOk(start, bs, buckets, b);
  }

  lemma {:induction false} Link(start: nat, bs: seq<nat>, buckets: seq<nat>, chains: seq<nat>, k: nat)
    requires start + |bs| <= |chains| && Indexed(start, bs, buckets, chains) && k < |bs|
    ensures chains[start + k] == Word(start, |bs|, NextIn(bs, k + 1, bs[k]))
  {
    assert LinkOk(start, bs, chains, k);
  }

  lemma {:induction false} NextBounds(bs: seq<nat>, from: nat, b: nat)
    requires from <= |bs|
    ensures from <= NextIn(bs, from, b) <= |bs|
    ensures NextIn(bs, from, b) < |bs| ==> bs[NextIn(bs, from, b)] == b
  {
  }

  /** No definition passed over on the way to the next of a bucket has a name of that bucket. */
  lemma {:induction false} Skipped(names: seq<Name>, hash: Name -> nat, count: nat, from: nat, name: Name)
    requires count > 0 && from <= |names|
    ensures var bs := BucketsOf(names, hash, count);
            var next := NextIn(bs, from, hash(name) % count);
            from <= next <= |names| && forall k :: from <= k < next ==> names[k] != name
  {
    var bs := BucketsOf(names, hash, count);
    forall k | from <= k < NextIn(bs, from, hash(name) % count) ensures names[k] != name {
      assert bs[k] != hash(name) % count;
    }
  }
}
