/** The `.gnu.hash` section: the bloom filter, buckets and hash chains over definitions sorted by bucket, and lookup. */
module GnuHash {
  import opened Bytes
  import opened Words
  import opened SysvHash

  /** A 64-bit bloom word, bit by bit. */
  type BloomWord = w: seq<bool> | |w| == 64 witness seq(64, _ => false)

  /** `GnuHashLayout`. */
  datatype Layout = Layout(bucketCount: nat, bloomShift: nat, bloomCount: nat, symbolBase: nat) {
    predicate Valid() { bucketCount > 0 && bloomCount > 0 && symbolBase > 0 }
    function BloomIndex(hash: nat): nat requires Valid() { hash / 64 % bloomCount }
    function Bit1(hash: nat): nat { hash % 64 }
    function Bit2(hash: nat): nat { hash / Pow2(bloomShift) % 64 }
  }

  /** `create_gnu_hash_layout`, with the symbol base that is filled in later. */
  function LayoutFor(definitions: nat, symbolBase: nat): (l: Layout)
    requires symbolBase > 0
    ensures l.Valid()
  {
    Layout(NextPowerOfTwo(definitions / 2), 6, 1, symbolBase)
  }

  predicate SortedByBucket(bs: seq<nat>) { forall i, j :: 0 <= i < j < |bs| ==> bs[i] <= bs[j] }

  // ---------------------------------------------------------------- the bloom filter

  type Bloom = seq<BloomWord>

  function AddHash(l: Layout, bloom: Bloom, hash: nat): (r: Bloom)
    requires l.Valid() && |bloom| == l.bloomCount
    ensures |r| == l.bloomCount
  {
    var i := l.BloomIndex(hash);
    bloom[i := bloom[i][l.Bit1(hash) := true][l.Bit2(hash) := true]]
  }

  function BloomOf(l: Layout, hashes: seq<nat>): (r: Bloom)
    requires l.Valid()
    ensures |r| == l.bloomCount
  {
    if hashes == [] then seq(l.bloomCount, _ => seq(64, _ => false))
    else AddHash(l, BloomOf(l, hashes[..|hashes| - 1]), hashes[|hashes| - 1])
  }

  predicate Passes(l: Layout, bloom: Bloom, hash: nat)
    requires l.Valid() && |bloom| == l.bloomCount
  {
    var word := bloom[l.BloomIndex(hash)];
    word[l.Bit1(hash)] && word[l.Bit2(hash)]
  }

  /** A hash sets this bit of this word. */
  predicate Sets(l: Layout, hash: nat, word: nat, bit: nat)
    requires l.Valid()
  {
    l.BloomIndex(hash) == word && (l.Bit1(hash) == bit || l.Bit2(hash) == bit)
  }

  lemma {:induction false} AddBits(l: Layout, bloom: Bloom, hash: nat, word: nat, bit: nat)
    requires l.Valid() && |bloom| == l.bloomCount && word < l.bloomCount && bit < 64
    ensures AddHash(l, bloom, hash)[word][bit] <==> bloom[word][bit] || Sets(l, hash, word, bit)
  {
  }

  ghost predicate AnySets(l: Layout, hashes: seq<nat>, word: nat, bit: nat)
    requires l.Valid()
  {
    exists k :: 0 <= k < |hashes| && Sets(l, hashes[k], word, bit)
  }

  lemma {:induction false} AnySetsMore(l: Layout, hashes: seq<nat>, word: nat, bit: nat)
    requires l.Valid() && |hashes| > 0
    ensures AnySets(l, hashes, word, bit)
            <==> AnySets(l, hashes[..|hashes| - 1], word, bit) || Sets(l, hashes[|hashes| - 1], word, bit)
  {
    hide Sets;
    var n := |hashes| - 1;
    if AnySets(l, hashes, word, bit) {
      var k :| 0 <= k < |hashes| && Sets(l, hashes[k], word, bit);
      if k < n {
        assert Sets(l, hashes[..n][k], word, bit);
      }
    }
  }

  /** The bits of the filter are exactly those that some definition sets. */
  lemma {:induction false} BloomBits(l: Layout, hashes: seq<nat>, word: nat, bit: nat)
    requires l.Valid() && word < l.bloomCount && bit < 64
    ensures BloomOf(l, hashes)[word][bit] <==> AnySets(l, hashes, word, bit)
    decreases |hashes|
  {
    hide AddHash, Sets, Layout.BloomIndex, Layout.Bit1, Layout.Bit2;
    if hashes != [] {
      var n := |hashes| - 1;
      BloomBits(l, hashes[..n], word, bit);
      AddBits(l, BloomOf(l, hashes[..n]), hashes[n], word, bit);
      AnySetsMore(l, hashes, word, bit);
    }
  }

  /** The filter never rejects a hash that was added. */
  lemma {:induction false} NeverRejects(l: Layout, hashes: seq<nat>, k: nat)
    requires l.Valid() && k < |hashes|
    ensures Passes(l, BloomOf(l, hashes), hashes[k])
  {
    hide BloomOf;
    var h := hashes[k];
    assert Sets(l, h, l.BloomIndex(h), l.Bit1(h)) && Sets(l, h, l.BloomIndex(h), l.Bit2(h));
    BloomBits(l, hashes, l.BloomIndex(h), l.Bit1(h));
    BloomBits(l, hashes, l.BloomIndex(h), l.Bit2(h));
  }

  // ---------------------------------------------------------------- the tables

  function LastInRun(bs: seq<nat>, k: nat): bool
    requires k < |bs|
  {
    k + 1 == |bs| || bs[k + 1] != bs[k]
  }

  /** The chain word of definition `k`: its hash with bit 0 replaced by the end-of-run mark. */
  function ChainWord(hashes: seq<nat>, bs: seq<nat>, k: nat): nat
    requires k < |bs| == |hashes|
  {
    hashes[k] - hashes[k] % 2 + (if LastInRun(bs, k) then 1 else 0)
  }

  predicate ChainOk(hashes: seq<nat>, bs: seq<nat>, chains: seq<nat>, k: nat)
    requires k < |bs| == |hashes| == |chains|
  {
    chains[k] == ChainWord(hashes, bs, k)
  }

  ghost predicate Heads(base: nat, bs: seq<nat>, buckets: seq<nat>) {
    forall b :: 0 <= b < |buckets| ==> HeadOk(base, bs, buckets, b)
  }

  ghost predicate Chains(hashes: seq<nat>, bs: seq<nat>, chains: seq<nat>, n: nat)
    requires n <= |bs| == |hashes| == |chains|
  {
    forall k :: 0 <= k < n ==> ChainOk(hashes, bs, chains, k)
  }

  /** A run starts at definition `i`. */
  predicate RunStarts(bs: seq<nat>, i: nat)
    requires i <= |bs|
  {
    i == 0 || i == |bs| || bs[i] != bs[i - 1]
  }

  lemma {:induction false} NotBeforeRun(bs: seq<nat>, i: nat)
    requires i < |bs| && SortedByBucket(bs) && RunStarts(bs, i)
    ensures NextIn(bs[..i], 0, bs[i]) == i
  {
    forall k | 0 <= k < i ensures bs[..i][k] != bs[i] {
      assert bs[k] <= bs[i - 1] < bs[i];
    }
  }

  lemma {:induction false} HeadStep(base: nat, bs: seq<nat>, i: nat, buckets: seq<nat>, b: nat)
    requires base > 0 && i < |bs| && SortedByBucket(bs) && bs[i] < |buckets| && b < |buckets|
    requires Heads(base, bs[..i], buckets)
    ensures HeadOk(base, bs[..i] + [bs[i]], if RunStarts(bs, i) then buckets[bs[i] := base + i] else buckets, b)
  {
    var c := bs[i];
    assert HeadOk(base, bs[..i], buckets, b) && HeadOk(base, bs[..i], buckets, c);
    NextInMore(bs[..i], c, 0, b);
    NextInMore(bs[..i], c, 0, c);
    if RunStarts(bs, i) {
      NotBeforeRun(bs, i);
    } else {
      assert bs[..i][i - 1] == c;
    }
  }

  lemma {:induction false} HeadsStep(base: nat, bs: seq<nat>, i: nat, buckets: seq<nat>)
    requires base > 0 && i < |bs| && SortedByBucket(bs) && bs[i] < |buckets|
    requires Heads(base, bs[..i], buckets)
    ensures Heads(base, bs[..i + 1], if RunStarts(bs, i) then buckets[bs[i] := base + i] else buckets)
  {
    hide HeadOk;
    var more := bs[..i] + [bs[i]];
    assert bs[..i + 1] == more;
    var after := if RunStarts(bs, i) then buckets[bs[i] := base + i] else buckets;
    forall b | 0 <= b < |after| ensures HeadOk(base, more, after, b) {
      HeadStep(base, bs, i, buckets, b);
    }
  }

  lemma {:induction false} ChainsStep(hashes: seq<nat>, bs: seq<nat>, chains: seq<nat>, i: nat)
    requires i < |bs| == |hashes| == |chains|
    requires Chains(hashes, bs, chains, i)
    ensures Chains(hashes, bs, chains[i := ChainWord(hashes, bs, i)], i + 1)
  {
    var after := chains[i := ChainWord(hashes, bs, i)];
    forall k | 0 <= k < i + 1 ensures ChainOk(hashes, bs, after, k) {
      if k < i {
        assert ChainOk(hashes, bs, chains, k);
      }
    }
  }

  lemma {:induction false} BloomStep(l: Layout, hashes: seq<nat>, i: nat)
    requires l.Valid() && i < |hashes|
    ensures BloomOf(l, hashes[..i + 1]) == AddHash(l, BloomOf(l, hashes[..i]), hashes[i])
  {
    hide AddHash;
    assert hashes[..i + 1][..i] == hashes[..i];
  }

  /** The loop of `write_gnu_hash_tables`, filling the three tables in place. `hashes` are the definitions' hashes. */
  method Fill(l: Layout, hashes: seq<nat>, ghost bs: seq<nat>, bloom: array<BloomWord>, buckets: array<nat>, chains: array<nat>)
    requires l.Valid() && bloom.Length == l.bloomCount && buckets.Length == l.bucketCount && chains.Length == |hashes|
    requires |bs| == |hashes| && (forall k :: 0 <= k < |bs| ==> bs[k] == hashes[k] % l.bucketCount)
    requires SortedByBucket(bs) && buckets != chains
    modifies bloom, buckets, chains
    ensures bloom[..] == BloomOf(l, hashes)
    ensures Heads(l.symbolBase, bs, buckets[..])
    ensures Chains(hashes, bs, chains[..], |hashes|)
  {
    hide HeadOk, Heads, Chains, BloomOf, AddHash;
    SysvHash.Clear(buckets);
    ClearBloom(l, bloom);
    var startOfChain := true;
    NoHeads(l.symbolBase, buckets[..]);
    NoChains(hashes, bs, chains[..]);
    assert bs[..0] == [] && hashes[..0] == [];
    for i := 0 to |hashes|
      invariant bloom[..] == BloomOf(l, hashes[..i])
      invariant Heads(l.symbolBase, bs[..i], buckets[..])
      invariant Chains(hashes, bs, chains[..], i)
      invariant startOfChain == RunStarts(bs, i)
    {
      var hash := hashes[i];
      ghost var buckets0: seq<nat>, chains0: seq<nat> := buckets[..], chains[..];
      PutBloom(l, bloom, hash);
      BloomStep(l, hashes, i);
      HeadsStep(l.symbolBase, bs, i, buckets0);
      var bucket: nat := hash % l.bucketCount;
      if startOfChain {
        buckets[bucket] := l.symbolBase + i;
        startOfChain := false;
      }
      assert buckets[..] == if RunStarts(bs, i) then buckets0[bs[i] := l.symbolBase + i] else buckets0;
      chains[i] := hash - hash % 2;
      var last := i + 1 == |hashes| || hashes[i + 1] % l.bucketCount != bucket;
      if last {
        chains[i] := chains[i] + 1;
        startOfChain := true;
      }
      ChainsStep(hashes, bs, chains0, i);
      assert chains[..] == chains0[i := ChainWord(hashes, bs, i)];
    }
    assert bs[..|hashes|] == bs && hashes[..|hashes|] == hashes;
  }

  method PutBloom(l: Layout, bloom: array<BloomWord>, hash: nat)
    requires l.Valid() && bloom.Length == l.bloomCount
    modifies bloom
    ensures bloom[..] == AddHash(l, old(bloom[..]), hash)
  {
    var i := l.BloomIndex(hash);
    bloom[i] := bloom[i][l.Bit1(hash) := true][l.Bit2(hash) := true];
  }

  method ClearBloom(l: Layout, bloom: array<BloomWord>)
    requires l.Valid() && bloom.Length == l.bloomCount
    modifies bloom
    ensures bloom[..] == BloomOf(l, [])
  {
    var zero := seq(64, _ => false);
    for i := 0 to bloom.Length
      invariant forall k :: 0 <= k < i ==> bloom[k] == zero
    {
      bloom[i] := zero;
    }
  }

  lemma {:induction false} NoHeads(base: nat, buckets: seq<nat>)
    requires forall i :: 0 <= i < |buckets| ==> buckets[i] == 0
    ensures Heads(base, [], buckets)
  {
  }

  lemma {:induction false} NoChains(hashes: seq<nat>, bs: seq<nat>, chains: seq<nat>)
    requires |bs| == |hashes| == |chains|
    ensures Chains(hashes, bs, chains, 0)
  {
  }

  // ---------------------------------------------------------------- runs

  /** After the last of a run, no definition of that bucket follows. */
  lemma {:induction false} NoneAfterRun(bs: seq<nat>, j: nat)
    requires j < |bs| && SortedByBucket(bs)
    ensures NextIn(bs, j + 1, bs[j]) == if LastInRun(bs, j) then |bs| else j + 1
  {
    if LastInRun(bs, j) {
      forall k | j + 1 <= k < |bs| ensures bs[k] != bs[j] {
        assert bs[j] < bs[j + 1] <= bs[k];
      }
    }
  }

  /** The symbols from chain entry `j` to the first one marked as the end. */
  function RunFrom(base: nat, chains: seq<nat>, j: nat): seq<nat>
    decreases |chains| - j
  {
    if j >= |chains| then []
    else [base + j] + (if chains[j] % 2 == 1 then [] else RunFrom(base, chains, j + 1))
  }

  lemma {:induction false} MarkIsParity(hashes: seq<nat>, bs: seq<nat>, chains: seq<nat>, j: nat)
    requires j < |bs| == |hashes| == |chains| && Chains(hashes, bs, chains, |bs|)
    ensures chains[j] % 2 == (if LastInRun(bs, j) then 1 else 0)
    ensures chains[j] / 2 == hashes[j] / 2
  {
    assert ChainOk(hashes, bs, chains, j);
  }

  lemma {:induction false} RunIsMembers(base: nat, hashes: seq<nat>, bs: seq<nat>, chains: seq<nat>, j: nat)
    requires |bs| == |hashes| == |chains| && Chains(hashes, bs, chains, |bs|) && SortedByBucket(bs) && j < |bs|
    ensures RunFrom(base, chains, j) == Members(base, bs, j, bs[j])
    decreases |bs| - j
  {
    hide Chains, SortedByBucket;
    MarkIsParity(hashes, bs, chains, j);
    NoneAfterRun(bs, j);
    if LastInRun(bs, j) {
      MembersFromNext(base, bs, j + 1, bs[j]);
    } else {
      RunIsMembers(base, hashes, bs, chains, j + 1);
    }
  }

  /** What the section holds. */
  datatype GnuTable = GnuTable(layout: Layout, bloom: Bloom, buckets: seq<nat>, chains: seq<nat>)

  function HashesOf(names: seq<Name>, hash: Name -> nat): seq<nat> { seq(|names|, k requires 0 <= k < |names| => hash(names[k])) }

  /** The table indexes the names, which are sorted by bucket. */
  ghost predicate IsGnuHash(t: GnuTable, names: seq<Name>, hash: Name -> nat) {
    && t.layout.Valid() && |t.buckets| == t.layout.bucketCount && |t.chains| == |names|
    && var bs := BucketsOf(names, hash, t.layout.bucketCount);
       var hashes := HashesOf(names, hash);
       && SortedByBucket(bs) && t.bloom == BloomOf(t.layout, hashes)
       && Heads(t.layout.symbolBase, bs, t.buckets) && Chains(hashes, bs, t.chains, |names|)
  }

  /** Every bucket points at the full run of its definitions, ended by the low bit; an empty bucket holds 0. */
  lemma {:induction false} BucketIsRun(t: GnuTable, names: seq<Name>, hash: Name -> nat, b: nat)
    requires IsGnuHash(t, names, hash) && b < |t.buckets|
    ensures var base := t.layout.symbolBase;
            var members := Members(base, BucketsOf(names, hash, t.layout.bucketCount), 0, b);
            if t.buckets[b] == 0 then members == []
            else base <= t.buckets[b] && RunFrom(base, t.chains, t.buckets[b] - base) == members
  {
    hide Chains, BloomOf, SortedByBucket, NextIn;
    var base := t.layout.symbolBase;
    var bs := BucketsOf(names, hash, t.layout.bucketCount);
    assert HeadOk(base, bs, t.buckets, b);
    MembersFromNext(base, bs, 0, b);
    NextBounds(bs, 0, b);
    var j := NextIn(bs, 0, b);
    if j < |bs| {
      RunIsMembers(base, HashesOf(names, hash), bs, t.chains, j);
    }
  }

  /** `write_gnu_hash_tables` on definitions already sorted by bucket. */
  method WriteGnuHash(names: seq<Name>, hash: Name -> nat, symbolBase: nat) returns (t: GnuTable)
    requires symbolBase > 0
    requires SortedByBucket(BucketsOf(names, hash, LayoutFor(|names|, symbolBase).bucketCount))
    ensures t.layout == LayoutFor(|names|, symbolBase) && IsGnuHash(t, names, hash)
  {
    hide Heads, Chains, BloomOf, SortedByBucket;
    var l := LayoutFor(|names|, symbolBase);
    var zero: BloomWord := seq(64, _ => false);
    var bloom := new BloomWord[l.bloomCount](_ => zero);
    var buckets, chains := new nat[l.bucketCount], new nat[|names|];
    var hashes := HashesOf(names, hash);
    Fill(l, hashes, BucketsOf(names, hash, l.bucketCount), bloom, buckets, chains);
    t := GnuTable(l, bloom[..], buckets[..], chains[..]);
  }

  // ---------------------------------------------------------------- lookup

  /** A name the filter rejects is not defined. */
  lemma {:induction false} RejectedIsUndefined(t: GnuTable, names: seq<Name>, hash: Name -> nat, name: Name)
    requires IsGnuHash(t, names, hash) && !Passes(t.layout, t.bloom, hash(name))
    ensures LinearSearch(t.layout.symbolBase, names, 0, name) == 0
  {
    hide Heads, Chains, BloomOf, SortedByBucket, Passes;
    forall k | 0 <= k < |names| ensures names[k] != name {
      if names[k] == name {
        NeverRejects(t.layout, HashesOf(names, hash), k);
        assert false;
      }
    }
    FirstIs(t.layout.symbolBase, names, |names|, name);
  }

  lemma {:induction false} GnuHead(t: GnuTable, names: seq<Name>, hash: Name -> nat, b: nat)
    requires IsGnuHash(t, names, hash) && b < |t.buckets|
    ensures var bs := BucketsOf(names, hash, t.layout.bucketCount);
            var j := NextIn(bs, 0, b);
            t.buckets[b] == Word(t.layout.symbolBase, |names|, j) && (j < |names| ==> bs[j] == b)
  {
    hide Chains, BloomOf, SortedByBucket;
    assert HeadOk(t.layout.symbolBase, BucketsOf(names, hash, t.layout.bucketCount), t.buckets, b);
  }

  lemma {:induction false} GnuLink(t: GnuTable, names: seq<Name>, hash: Name -> nat, j: nat)
    requires IsGnuHash(t, names, hash) && j < |names|
    ensures var bs := BucketsOf(names, hash, t.layout.bucketCount);
            && NextIn(bs, j + 1, bs[j]) == (if t.chains[j] % 2 == 1 then |names| else j + 1)
            && (t.chains[j] % 2 == 0 ==> j + 1 < |names| && bs[j + 1] == bs[j])
            && t.chains[j] / 2 == hash(names[j]) / 2
  {
    hide Heads, Chains, BloomOf, SortedByBucket, NextIn;
    MarkIsParity(HashesOf(names, hash), BucketsOf(names, hash, t.layout.bucketCount), t.chains, j);
    NoneAfterRun(BucketsOf(names, hash, t.layout.bucketCount), j);
  }

  // ---------------------------------------------------------------- the section's bytes

  /** The number with these bits, lowest first. */
  function WordOfBits(bits: seq<bool>): (n: nat)
    decreases |bits|
  {
    if bits == [] then 0 else (if bits[0] then 1 else 0) + 2 * WordOfBits(bits[1..])
  }

  function BitOf(n: nat, k: nat): bool {
    if k == 0 then n % 2 == 1 else BitOf(n / 2, k - 1)
  }

  lemma {:induction false} BitReadsBack(bits: seq<bool>, k: nat)
    requires k < |bits|
    ensures BitOf(WordOfBits(bits), k) == bits[k]
    decreases k
  {
    assert WordOfBits(bits) / 2 == WordOfBits(bits[1..]);
    if k > 0 {
      BitReadsBack(bits[1..], k - 1);
    }
  }

  lemma {:induction false} BitsFit(bits: seq<bool>)
    ensures WordOfBits(bits) < Pow2(|bits|)
    decreases |bits|
  {
    if bits != [] {
      BitsFit(bits[1..]);
    }
  }

  lemma {:induction false} ThirtyTwoBitsFit(bits: seq<bool>)
    requires |bits| == 32
    ensures WordOfBits(bits) < U32
  {
    BitsFit(bits);
    assert Pow2(8) == 0x100 && Pow2(16) == 0x1_0000 by { assert Pow2(4) == 0x10; assert Pow2(12) == 0x1000; }
    assert Pow2(24) == 0x100_0000 by { assert Pow2(20) == 0x10_0000; }
    assert Pow2(32) == U32 by { assert Pow2(28) == 0x1000_0000; }
  }

  /** A 64-bit little-endian word as two 32-bit ones. */
  function BloomWords(bloom: Bloom): (words: seq<nat>)
    ensures |words| == 2 * |bloom|
    ensures forall i :: 0 <= i < |bloom| ==> words[2 * i] == WordOfBits(bloom[i][..32]) && words[2 * i + 1] == WordOfBits(bloom[i][32..])
  {
    if bloom == [] then []
    else BloomWords(bloom[..|bloom| - 1]) + [WordOfBits(bloom[|bloom| - 1][..32]), WordOfBits(bloom[|bloom| - 1][32..])]
  }

  /** The header, the filter, the buckets and the chains. */
  function SectionWords(t: GnuTable): seq<nat> {
    [t.layout.bucketCount, t.layout.symbolBase, t.layout.bloomCount, t.layout.bloomShift]
    + BloomWords(t.bloom) + t.buckets + t.chains
  }

  /** The section holds this table. */
  ghost predicate SectionHolds(section: seq<Byte>, t: GnuTable) {
    && section == ToBytes(SectionWords(t)) && |t.bloom| == t.layout.bloomCount
    && forall i :: 0 <= i < |SectionWords(t)| ==> SectionWords(t)[i] < U32
  }

  /** The bytes `GnuHashLayout::allocate` reserves. */
  function ByteSize(l: Layout, definitions: nat): nat { 16 + 8 * l.bloomCount + 4 * l.bucketCount + 4 * definitions }

  lemma {:induction false} WordInSection(section: seq<Byte>, t: GnuTable, i: nat)
    requires SectionHolds(section, t) && i < |SectionWords(t)|
    ensures |section| == 4 * |SectionWords(t)| && 4 * i + 4 <= |section| && WordAt(section, i) == SectionWords(t)[i]
  {
    WordReadsBack(SectionWords(t), i);
  }

  lemma {:induction false} HeaderInSection(section: seq<Byte>, t: GnuTable)
    requires SectionHolds(section, t)
    ensures |section| == 4 * (4 + 2 * |t.bloom| + |t.buckets| + |t.chains|)
    ensures WordAt(section, 0) == t.layout.bucketCount && WordAt(section, 1) == t.layout.symbolBase
    ensures WordAt(section, 2) == t.layout.bloomCount && WordAt(section, 3) == t.layout.bloomShift
  {
    hide ToBytes, WordAt, BloomWords;
    WordInSection(section, t, 0);
    WordInSection(section, t, 1);
    WordInSection(section, t, 2);
    WordInSection(section, t, 3);
  }

  /** Bit `bit` of bloom word `i`, read from the section. */
  function BloomBit(section: seq<Byte>, i: nat, bit: nat): bool
    requires bit < 64 && 24 + 8 * i <= |section|
  {
    if bit < 32 then BitOf(WordAt(section, 4 + 2 * i), bit) else BitOf(WordAt(section, 5 + 2 * i), bit - 32)
  }

  lemma {:induction false} BloomInSection(section: seq<Byte>, t: GnuTable, i: nat, bit: nat)
    requires SectionHolds(section, t) && i < |t.bloom| && bit < 64
    ensures 24 + 8 * i <= |section| && BloomBit(section, i, bit) == t.bloom[i][bit]
  {
    hide ToBytes, WordAt, WordOfBits, BitOf;
    assert SectionWords(t)[4 + 2 * i] == BloomWords(t.bloom)[2 * i];
    assert SectionWords(t)[5 + 2 * i] == BloomWords(t.bloom)[2 * i + 1];
    WordInSection(section, t, 4 + 2 * i);
    WordInSection(section, t, 5 + 2 * i);
    if bit < 32 {
      BitReadsBack(t.bloom[i][..32], bit);
    } else {
      BitReadsBack(t.bloom[i][32..], bit - 32);
    }
  }

  /** Bucket `b`, read from the section. */
  lemma {:induction false} BucketInSection(section: seq<Byte>, t: GnuTable, b: nat)
    requires SectionHolds(section, t) && b < |t.buckets|
    ensures 4 * (4 + 2 * |t.bloom| + b) + 4 <= |section|
    ensures WordAt(section, 4 + 2 * |t.bloom| + b) == t.buckets[b]
  {
    hide ToBytes, WordAt, BloomWords;
    WordInSection(section, t, 4 + 2 * |t.bloom| + b);
  }

  /** Chain word `j`, read from the section. */
  lemma {:induction false} ChainInSection(section: seq<Byte>, t: GnuTable, j: nat)
    requires SectionHolds(section, t) && j < |t.chains|
    ensures 4 * (4 + 2 * |t.bloom| + |t.buckets| + j) + 4 <= |section|
    ensures WordAt(section, 4 + 2 * |t.bloom| + |t.buckets| + j) == t.chains[j]
  {
    hide ToBytes, WordAt, BloomWords;
    WordInSection(section, t, 4 + 2 * |t.bloom| + |t.buckets| + j);
  }

  /** All words of a table fit 32 bits when the hashes and the symbol indexes do. */
  lemma {:induction false} TableFits(t: GnuTable, names: seq<Name>, hash: Name -> nat)
    requires IsGnuHash(t, names, hash) && t.layout.symbolBase + |names| < U32
    requires t.layout.bucketCount < U32 && t.layout.bloomCount < U32 && t.layout.bloomShift < U32
    requires forall k :: 0 <= k < |names| ==> hash(names[k]) < U32
    ensures forall i :: 0 <= i < |SectionWords(t)| ==> SectionWords(t)[i] < U32
  {
    hide SortedByBucket, BloomOf, WordOfBits, NextIn, Heads, Chains, Words.ToBytes;
    var bloom := BloomWords(t.bloom);
    forall i | 0 <= i < |bloom| ensures bloom[i] < U32 {
      var w := i / 2;
      assert i == 2 * w || i == 2 * w + 1;
      ThirtyTwoBitsFit(t.bloom[w][..32]);
      ThirtyTwoBitsFit(t.bloom[w][32..]);
    }
    forall b | 0 <= b < |t.buckets| ensures t.buckets[b] < U32 {
      GnuHead(t, names, hash, b);
    }
    forall j | 0 <= j < |t.chains| ensures t.chains[j] < U32 {
      GnuLink(t, names, hash, j);
    }
    hide BloomWords, IsGnuHash;
    AllFit([t.layout.bucketCount, t.layout.symbolBase, t.layout.bloomCount, t.layout.bloomShift], bloom, t.buckets, t.chains);
  }

  lemma {:induction false} AllFit(a: seq<nat>, b: seq<nat>, c: seq<nat>, d: seq<nat>)
    requires forall i :: 0 <= i < |a| ==> a[i] < U32
    requires forall i :: 0 <= i < |b| ==> b[i] < U32
    requires forall i :: 0 <= i < |c| ==> c[i] < U32
    requires forall i :: 0 <= i < |d| ==> d[i] < U32
    ensures forall i :: 0 <= i < |a + b + c + d| ==> (a + b + c + d)[i] < U32
  {
  }

  /** The section, as bytes, of exactly the reserved size. */
  method WriteGnuSection(names: seq<Name>, hash: Name -> nat, symbolBase: nat) returns (section: seq<Byte>, ghost t: GnuTable)
    requires symbolBase > 0 && symbolBase + |names| < U32
    requires forall k :: 0 <= k < |names| ==> hash(names[k]) < U32
    requires SortedByBucket(BucketsOf(names, hash, LayoutFor(|names|, symbolBase).bucketCount))
    ensures IsGnuHash(t, names, hash) && SectionHolds(section, t)
    ensures |section| == ByteSize(LayoutFor(|names|, symbolBase), |names|)
  {
    hide IsGnuHash, SortedByBucket, SectionWords, ToBytes;
    var table := WriteGnuHash(names, hash, symbolBase);
    t := table;
    LayoutFits(|names|, symbolBase);
    TableFits(table, names, hash);
    TableShape(table, names, hash);
    section := ToBytes(SectionWords(table));
    HeaderInSection(section, table);
  }

  lemma {:induction false} LayoutFits(n: nat, symbolBase: nat)
    requires symbolBase > 0 && n < U32
    ensures LayoutFor(n, symbolBase).bucketCount < U32
  {
  }

  lemma {:induction false} TableShape(t: GnuTable, names: seq<Name>, hash: Name -> nat)
    requires IsGnuHash(t, names, hash)
    ensures t.layout.Valid() && |t.buckets| == t.layout.bucketCount && |t.chains| == |names| && |t.bloom| == t.layout.bloomCount
  {
    hide Heads, Chains, SortedByBucket;
  }

  /** The filter test of a loader, on the section's bytes. */
  method TestBloom(section: seq<Byte>, h: nat, ghost t: GnuTable) returns (passes: bool)
    requires t.layout.Valid() && SectionHolds(section, t)
    ensures passes == Passes(t.layout, t.bloom, h)
  {
    hide SectionHolds, WordAt, BloomBit, Pow2;
    HeaderInSection(section, t);
    SectionBloom(section, t);
    var l := Layout(WordAt(section, 0), WordAt(section, 3), WordAt(section, 2), WordAt(section, 1));
    var i := l.BloomIndex(h);
    BloomInSection(section, t, i, l.Bit1(h));
    BloomInSection(section, t, i, l.Bit2(h));
    passes := BloomBit(section, i, l.Bit1(h)) && BloomBit(section, i, l.Bit2(h));
  }

  lemma {:induction false} SectionBloom(section: seq<Byte>, t: GnuTable)
    requires SectionHolds(section, t)
    ensures |t.bloom| == t.layout.bloomCount
  {
  }

  /** A loader's lookup in the section's bytes: filter, bucket, then the run. It agrees with a linear search of the
      definitions, for defined and undefined names alike. */
  method Lookup(section: seq<Byte>, symbolNames: seq<Name>, hash: Name -> nat, name: Name,
                ghost t: GnuTable, ghost names: seq<Name>) returns (symbol: nat)
    requires IsGnuHash(t, names, hash) && SectionHolds(section, t)
    requires t.layout.symbolBase + |names| == |symbolNames| && symbolNames[t.layout.symbolBase..] == names
    ensures symbol == LinearSearch(t.layout.symbolBase, names, 0, name)
  {
    hide IsGnuHash, SectionHolds, NextIn, LinearSearch, Passes, WordAt;
    TableShape(t, names, hash);
    HeaderInSection(section, t);
    var base := WordAt(section, 1);
    var h := hash(name);
    var passes := TestBloom(section, h, t);
    if !passes {
      RejectedIsUndefined(t, names, hash, name);
      return 0;
    }
    var bucketsAt := 4 + 2 * WordAt(section, 2);
    var chainsAt := bucketsAt + WordAt(section, 0);
    ghost var bs := BucketsOf(names, hash, t.layout.bucketCount);
    var bucket: nat := h % WordAt(section, 0);
    BucketInSection(section, t, bucket);
    var first := WordAt(section, bucketsAt + bucket);
    GnuHead(t, names, hash, bucket);
    Skipped(names, hash, t.layout.bucketCount, 0, name);
    if first == 0 {
      FirstIs(base, names, |names|, name);
      return 0;
    }
    var j := first - base;
    while true
      invariant 0 <= j < |names| && bs[j] == bucket
      invariant forall k :: 0 <= k < j ==> names[k] != name
      decreases |names| - j
    {
      GnuLink(t, names, hash, j);
      ChainInSection(section, t, j);
      var link := WordAt(section, chainsAt + j);
      assert symbolNames[base + j] == names[j] by { assert symbolNames[base..][j] == names[j]; }
      if link / 2 == h / 2 && symbolNames[base + j] == name {
        FirstIs(base, names, j, name);
        return base + j;
      }
      Skipped(names, hash, t.layout.bucketCount, j + 1, name);
      if link % 2 == 1 {
        FirstIs(base, names, |names|, name);
        return 0;
      }
      j := j + 1;
    }
  }
}
