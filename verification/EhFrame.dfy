/** `.eh_frame` garbage collection: layout's frame chains against the writer's independent filter. */
module EhFrame {
  import opened Bytes

  const PREFIX_LEN: nat := 8
  const FDE_PC_BEGIN_OFFSET: nat := 8

  /** What a relocation's symbol refers to. */
  datatype Target = Absolute | Undefined | InSection(index: nat)

  datatype Rel = Rel(offset: nat, target: Target)

  /** One CIE or FDE: its place, its CIE id field, and the relocations in its range. */
  datatype Item = Item(pos: nat, size: nat, id: nat, rels: seq<Rel>) {
    predicate IsCie() { id == 0 }
    function End(): nat { pos + size }
  }

  /** The entries of a section and the bytes too few to be one. */
  datatype Scan = Scan(items: seq<Item>, trailing: nat)

  function SizeAt(data: seq<Byte>, pos: nat): nat
    requires pos + PREFIX_LEN <= |data|
  {
    4 + FromLe(data[pos..pos + 4])
  }

  function IdAt(data: seq<Byte>, pos: nat): nat
    requires pos + PREFIX_LEN <= |data|
  {
    FromLe(data[pos + 4..pos + 8])
  }

  /** How many relocations the peeking loops consume before one at or past `limit`. */
  function Below(rels: seq<Rel>, limit: nat): (n: nat)
    ensures n <= |rels|
    ensures forall i :: 0 <= i < n ==> rels[i].offset < limit
  {
    if rels == [] || limit <= rels[0].offset then 0 else 1 + Below(rels[1..], limit)
  }

  function Prepend(done: seq<Item>, s: Option<Scan>): Option<Scan> {
    if s.None? then None else Some(Scan(done + s.value.items, s.value.trailing))
  }

  /** The byte stream cut into entries, from `pos`, with the relocations not consumed yet. */
  function ScanFrom(data: seq<Byte>, pos: nat, rels: seq<Rel>): Option<Scan>
    requires pos <= |data|
    decreases |data| - pos
  {
    if |data| < pos + PREFIX_LEN then Some(Scan([], |data| - pos))
    else
      var size := SizeAt(data, pos);
      if |data| < pos + size then None
      else
        var n := Below(rels, pos + size);
        Prepend([Item(pos, size, IdAt(data, pos), rels[..n])], ScanFrom(data, pos + size, rels[n..]))
  }

  // ---------------------------------------------------------------- layout

  /** The section of the last pc-begin relocation with a symbol. */
  function SeenBy(pos: nat, rels: seq<Rel>): Option<nat> {
    if rels == [] then None
    else
      var r := rels[|rels| - 1];
      if r.offset == pos + FDE_PC_BEGIN_OFFSET && r.target != Absolute then
        if r.target.InSection? then Some(r.target.index) else None
      else SeenBy(pos, rels[..|rels| - 1])
  }

  datatype Frame = Frame(size: nat, previous: Option<nat>)

  /** The frames pushed so far, the section each is for, and the last frame of each section. */
  datatype Layout = Layout(frames: seq<Frame>, owners: seq<nat>, last: map<nat, nat>)

  function LastOf(last: map<nat, nat>, s: nat): Option<nat> {
    if s in last then Some(last[s]) else None
  }

  function AddItem(l: Layout, item: Item, unloaded: set<nat>): Layout {
    var s := SeenBy(item.pos, item.rels);
    if item.IsCie() || s.None? || s.value !in unloaded then l
    else Push(l, item.size, s.value)
  }

  /** `exception_frames.push` with `last_frame_index.replace`. */
  function Push(l: Layout, size: nat, s: nat): Layout {
    Layout(l.frames + [Frame(size, LastOf(l.last, s))], l.owners + [s], l.last[s := |l.frames|])
  }

  function LayoutOf(items: seq<Item>, unloaded: set<nat>): Layout {
    if items == [] then Layout([], [], map[])
    else AddItem(LayoutOf(items[..|items| - 1], unloaded), items[|items| - 1], unloaded)
  }

  function CieBytes(items: seq<Item>): nat {
    if items == [] then 0
    else CieBytes(items[..|items| - 1]) + (if items[|items| - 1].IsCie() then items[|items| - 1].size else 0)
  }

  /** The last index below `n` whose owner is `s`. */
  function PreviousOf(owners: seq<nat>, n: nat, s: nat): (r: Option<nat>)
    requires n <= |owners|
    ensures r.Some? ==> r.value < n && owners[r.value] == s
  {
    if n == 0 then None else if owners[n - 1] == s then Some(n - 1) else PreviousOf(owners, n - 1, s)
  }

  predicate LinkedAt(l: Layout, i: nat)
    requires i < |l.frames| == |l.owners|
  {
    l.frames[i].previous == PreviousOf(l.owners, i, l.owners[i])
  }

  predicate LastIs(l: Layout, s: nat) {
    LastOf(l.last, s) == PreviousOf(l.owners, |l.owners|, s)
  }

  /** Every frame links to the previous frame of the same section; `last` names each section's newest. */
  ghost predicate Threaded(l: Layout) {
    && |l.owners| == |l.frames|
    && (forall i :: 0 <= i < |l.frames| ==> LinkedAt(l, i))
    && (forall s: nat :: LastIs(l, s))
  }

  lemma {:induction false} PreviousIgnoresLater(owners: seq<nat>, more: seq<nat>, n: nat, s: nat)
    requires n <= |owners|
    ensures PreviousOf(owners + more, n, s) == PreviousOf(owners, n, s)
  {
    if n > 0 { PreviousIgnoresLater(owners, more, n - 1, s); }
  }

  lemma {:induction false} PushKeepsThreaded(l: Layout, size: nat, s: nat)
    requires Threaded(l)
    ensures Threaded(Push(l, size, s))
  {
    var l' := Push(l, size, s);
    var n := |l.frames|;
    forall i | 0 <= i < |l'.frames|
      ensures LinkedAt(l', i)
    {
      PreviousIgnoresLater(l.owners, [s], i, l'.owners[i]);
      if i < n { assert LinkedAt(l, i); } else { assert LastIs(l, s); }
    }
    forall t: nat
      ensures LastIs(l', t)
    {
      PreviousIgnoresLater(l.owners, [s], n, t);
      assert LastIs(l, t);
    }
  }

  lemma {:induction false} LayoutIsThreaded(items: seq<Item>, unloaded: set<nat>)
    ensures Threaded(LayoutOf(items, unloaded))
  {
    if items != [] {
      LayoutIsThreaded(items[..|items| - 1], unloaded);
      var l, item := LayoutOf(items[..|items| - 1], unloaded), items[|items| - 1];
      hide SeenBy, Threaded, Push;
      if SeenBy(item.pos, item.rels).Some? {
        PushKeepsThreaded(l, item.size, SeenBy(item.pos, item.rels).value);
      }
    }
  }

  // ---------------------------------------------------------------- chains

  /** The frames visited from `at` by following `previous`. */
  ghost function Chain(l: Layout, at: Option<nat>): seq<nat>
    requires Threaded(l)
    requires at.Some? ==> at.value < |l.frames|
    decreases if at.None? then 0 else at.value + 1
  {
    if at.None? then []
    else
      assert LinkedAt(l, at.value);
      [at.value] + Chain(l, l.frames[at.value].previous)
  }

  /** All frames of section `s` below `n`, newest first. */
  function FramesFor(owners: seq<nat>, n: nat, s: nat): seq<nat>
    requires n <= |owners|
  {
    if n == 0 then []
    else if owners[n - 1] == s then [n - 1] + FramesFor(owners, n - 1, s)
    else FramesFor(owners, n - 1, s)
  }

  lemma {:induction false} ChainVisits(l: Layout, n: nat, s: nat)
    requires Threaded(l) && n <= |l.frames|
    ensures Chain(l, PreviousOf(l.owners, n, s)) == FramesFor(l.owners, n, s)
  {
    if n > 0 {
      ChainVisits(l, n - 1, s);
      assert LinkedAt(l, n - 1);
    }
  }

  lemma {:induction false} FramesForMembers(owners: seq<nat>, n: nat, s: nat)
    requires n <= |owners|
    ensures forall i :: i in FramesFor(owners, n, s) <==> 0 <= i < n && owners[i] == s
    ensures forall a, b :: 0 <= a < b < |FramesFor(owners, n, s)| ==> FramesFor(owners, n, s)[b] < FramesFor(owners, n, s)[a]
  {
    if n > 0 {
      FramesForMembers(owners, n - 1, s);
      var rest := FramesFor(owners, n - 1, s);
      if owners[n - 1] == s {
        var all := [n - 1] + rest;
        forall a, b | 0 <= a < b < |all|
          ensures all[b] < all[a]
        {
          assert all[b] == rest[b - 1] && rest[b - 1] in rest;
        }
      }
    }
  }

  /** The chain of a section strictly decreases and visits exactly the frames of that section, so the
      chains of all sections partition the frames. */
  lemma {:induction false} ChainsPartition(items: seq<Item>, unloaded: set<nat>, s: nat)
    ensures var l := LayoutOf(items, unloaded);
            && Threaded(l)
            && (LastOf(l.last, s).Some? ==> LastOf(l.last, s).value < |l.frames|)
            && (forall i :: i in Chain(l, LastOf(l.last, s)) <==> 0 <= i < |l.frames| && l.owners[i] == s)
            && (forall a, b :: 0 <= a < b < |Chain(l, LastOf(l.last, s))| ==>
                  Chain(l, LastOf(l.last, s))[b] < Chain(l, LastOf(l.last, s))[a])
  {
    hide LayoutOf, Chain;
    var l := LayoutOf(items, unloaded);
    LayoutIsThreaded(items, unloaded);
    ChainVisits(l, |l.frames|, s);
    assert LastIs(l, s);
    FramesForMembers(l.owners, |l.frames|, s);
  }

  // ---------------------------------------------------------------- sums over chains

  /** What is added up over frames: their bytes, or their number. */
  datatype Measure = ByBytes | ByCount

  function Weight(f: Frame, m: Measure): nat { if m == ByBytes then f.size else 1 }

  /** The walk of `process_section_exception_frames`. */
  ghost function ChainTotal(l: Layout, at: Option<nat>, m: Measure): nat
    requires Threaded(l)
    requires at.Some? ==> at.value < |l.frames|
    decreases if at.None? then 0 else at.value + 1
  {
    if at.None? then 0
    else
      assert LinkedAt(l, at.value);
      Weight(l.frames[at.value], m) + ChainTotal(l, l.frames[at.value].previous, m)
  }

  /** The frames below `n` that belong to a section of `live`. */
  function TotalIn(l: Layout, n: nat, live: set<nat>, m: Measure): nat
    requires n <= |l.frames| == |l.owners|
  {
    if n == 0 then 0
    else TotalIn(l, n - 1, live, m) + (if l.owners[n - 1] in live then Weight(l.frames[n - 1], m) else 0)
  }

  lemma {:induction false} ChainTotalIs(l: Layout, n: nat, s: nat, m: Measure)
    requires Threaded(l) && n <= |l.frames|
    ensures ChainTotal(l, PreviousOf(l.owners, n, s), m) == TotalIn(l, n, {s}, m)
  {
    if n > 0 {
      ChainTotalIs(l, n - 1, s, m);
      assert LinkedAt(l, n - 1);
    }
  }

  lemma {:induction false} TotalOfDisjoint(l: Layout, n: nat, a: set<nat>, b: set<nat>, m: Measure)
    requires n <= |l.frames| == |l.owners| && a !! b
    ensures TotalIn(l, n, a + b, m) == TotalIn(l, n, a, m) + TotalIn(l, n, b, m)
  {
    if n > 0 { TotalOfDisjoint(l, n - 1, a, b, m); }
  }

  lemma {:induction false} TotalOfNone(l: Layout, n: nat, m: Measure)
    requires n <= |l.frames| == |l.owners|
    ensures TotalIn(l, n, {}, m) == 0
  {
    if n > 0 { TotalOfNone(l, n - 1, m); }
  }

  /** What loading the sections `loads`, in that order, adds up to. */
  ghost function LoadedTotal(l: Layout, loads: seq<nat>, m: Measure): nat
    requires Threaded(l)
  {
    if loads == [] then 0
    else
      var s := loads[|loads| - 1];
      assert LastIs(l, s);
      LoadedTotal(l, loads[..|loads| - 1], m) + ChainTotal(l, LastOf(l.last, s), m)
  }

  predicate Distinct(loads: seq<nat>) {
    forall i, j :: 0 <= i < j < |loads| ==> loads[i] != loads[j]
  }

  function SetOf(loads: seq<nat>): set<nat> { set s <- loads }

  /** Whatever the order of loading, the chains add up to the frames of the loaded sections. */
  lemma {:induction false} LoadedTotalIs(l: Layout, loads: seq<nat>, m: Measure)
    requires Threaded(l) && Distinct(loads)
    ensures LoadedTotal(l, loads, m) == TotalIn(l, |l.frames|, SetOf(loads), m)
  {
    hide Threaded;
    LengthsAgree(l);
    if loads == [] {
      assert SetOf(loads) == {};
      TotalOfNone(l, |l.frames|, m);
    } else {
      var n := |loads| - 1;
      LoadedTotalIs(l, loads[..n], m);
      LastChain(l, loads[n], m);
      assert SetOf(loads) == SetOf(loads[..n]) + {loads[n]} by {
        assert loads == loads[..n] + [loads[n]];
      }
      TotalOfDisjoint(l, |l.frames|, SetOf(loads[..n]), {loads[n]}, m);
    }
  }

  lemma {:induction false} LengthsAgree(l: Layout)
    requires Threaded(l)
    ensures |l.frames| == |l.owners|
  {
  }

  lemma {:induction false} LastChain(l: Layout, s: nat, m: Measure)
    requires Threaded(l)
    ensures LastOf(l.last, s).Some? ==> LastOf(l.last, s).value < |l.frames|
    ensures ChainTotal(l, LastOf(l.last, s), m) == TotalIn(l, |l.frames|, {s}, m)
  {
    assert LastIs(l, s);
    ChainTotalIs(l, |l.frames|, s, m);
  }

  // ---------------------------------------------------------------- the writer's filter

  datatype Verdict = Keep | Drop | Fail

  /** The writer looks only at the first relocation of an entry. */
  function VerdictOn(item: Item, live: set<nat>): Verdict {
    if item.IsCie() then Keep
    else if item.rels == [] || item.rels[0].offset != item.pos + FDE_PC_BEGIN_OFFSET then Drop
    else
      match item.rels[0].target
      case InSection(s) => if s in live then Keep else Drop
      case _ => Fail
  }

  function KeptTotal(items: seq<Item>, live: set<nat>): nat {
    if items == [] then 0
    else KeptTotal(items[..|items| - 1], live)
         + (if VerdictOn(items[|items| - 1], live) == Keep then items[|items| - 1].size else 0)
  }

  function KeptFdes(items: seq<Item>, live: set<nat>): nat {
    if items == [] then 0
    else KeptFdes(items[..|items| - 1], live)
         + (if !items[|items| - 1].IsCie() && VerdictOn(items[|items| - 1], live) == Keep then 1 else 0)
  }

  /** In an FDE, relocations are sorted, none touches the length or the CIE pointer, and relocations at
      one place have one target. */
  predicate Tidy(item: Item) {
    item.IsCie() ||
    (forall i :: 0 <= i < |item.rels| ==>
       && item.pos + FDE_PC_BEGIN_OFFSET <= item.rels[i].offset
       && (item.rels[i].offset == item.rels[0].offset ==> item.rels[i].target == item.rels[0].target)
       && item.rels[0].offset <= item.rels[i].offset)
  }

  function FirstSection(pos: nat, rels: seq<Rel>): Option<nat> {
    if rels != [] && rels[0].offset == pos + FDE_PC_BEGIN_OFFSET && rels[0].target.InSection?
    then Some(rels[0].target.index) else None
  }

  /** Layout's last pc-begin relocation and the writer's first one name the same section. */
  lemma {:induction false} SeenIsFirst(pos: nat, rels: seq<Rel>, first: Rel)
    requires rels == [] || rels[0] == first
    requires forall i :: 0 <= i < |rels| ==>
               && pos + FDE_PC_BEGIN_OFFSET <= first.offset <= rels[i].offset
               && (rels[i].offset == first.offset ==> rels[i].target == first.target)
    ensures SeenBy(pos, rels) == FirstSection(pos, rels)
  {
    if rels != [] {
      SeenIsFirst(pos, rels[..|rels| - 1], first);
    }
  }

  lemma {:induction false} TotalIgnoresLater(l: Layout, size: nat, s: nat, n: nat, live: set<nat>, m: Measure)
    requires n <= |l.frames| == |l.owners|
    ensures TotalIn(Push(l, size, s), n, live, m) == TotalIn(l, n, live, m)
  {
    if n > 0 { TotalIgnoresLater(l, size, s, n - 1, live, m); }
  }

  lemma {:induction false} PushTotal(l: Layout, size: nat, s: nat, live: set<nat>, m: Measure)
    requires |l.frames| == |l.owners|
    ensures var l' := Push(l, size, s);
            && |l'.frames| == |l'.owners|
            && TotalIn(l', |l'.frames|, live, m)
               == TotalIn(l, |l.frames|, live, m)
                + (if s in live then (if m == ByBytes then size else 1) else 0)
  {
    TotalIgnoresLater(l, size, s, |l.frames|, live, m);
  }

  /** Per entry, what layout counts for the loaded sections is what the writer keeps. */
  lemma {:induction false} FilterMatchesLayout(items: seq<Item>, unloaded: set<nat>, live: set<nat>)
    requires live <= unloaded
    requires forall i :: 0 <= i < |items| ==> Tidy(items[i])
    ensures var l := LayoutOf(items, unloaded);
            && |l.frames| == |l.owners|
            && KeptTotal(items, live) == CieBytes(items) + TotalIn(l, |l.frames|, live, ByBytes)
            && KeptFdes(items, live) == TotalIn(l, |l.frames|, live, ByCount)
  {
    if items != [] {
      var n := |items| - 1;
      FilterMatchesLayout(items[..n], unloaded, live);
      var l, item := LayoutOf(items[..n], unloaded), items[n];
      assert Tidy(item);
      hide LayoutOf, TotalIn, SeenBy, Push;
      LayoutStep(items, unloaded);
      if !item.IsCie() {
        if item.rels != [] { SeenIsFirst(item.pos, item.rels, item.rels[0]); } else { SeenIsFirst(item.pos, [], Rel(0, Absolute)); }
        var s := SeenBy(item.pos, item.rels);
        if s.Some? {
          PushTotal(l, item.size, s.value, live, ByBytes);
          PushTotal(l, item.size, s.value, live, ByCount);
        }
      }
    }
  }

  lemma {:induction false} LayoutStep(items: seq<Item>, unloaded: set<nat>)
    requires items != []
    ensures LayoutOf(items, unloaded)
         == AddItem(LayoutOf(items[..|items| - 1], unloaded), items[|items| - 1], unloaded)
  {
  }

  /** The bytes that layout reserves: trailing bytes, every CIE, and the chains of the loaded sections. */
  ghost function Reserved(scan: Scan, unloaded: set<nat>, loads: seq<nat>): nat {
    LayoutIsThreaded(scan.items, unloaded);
    scan.trailing + LoadedTotal(LayoutOf(scan.items, unloaded), loads, ByBytes) + CieBytes(scan.items)
  }

  ghost function ReservedFrames(scan: Scan, unloaded: set<nat>, loads: seq<nat>): nat {
    LayoutIsThreaded(scan.items, unloaded);
    LoadedTotal(LayoutOf(scan.items, unloaded), loads, ByCount)
  }

  /** The main equality: bytes and header entries reserved are bytes and header entries kept, for every
      stream of entries and every order of loading. */
  lemma {:induction false} ReservedIsKept(scan: Scan, unloaded: set<nat>, loads: seq<nat>)
    requires Distinct(loads) && SetOf(loads) <= unloaded
    requires forall i :: 0 <= i < |scan.items| ==> Tidy(scan.items[i])
    ensures Reserved(scan, unloaded, loads) == KeptTotal(scan.items, SetOf(loads)) + scan.trailing
    ensures ReservedFrames(scan, unloaded, loads) == KeptFdes(scan.items, SetOf(loads))
  {
    var l := LayoutOf(scan.items, unloaded);
    LayoutIsThreaded(scan.items, unloaded);
    hide LayoutOf, TotalIn, LoadedTotal, Tidy, Threaded;
    LoadedTotalIs(l, loads, ByBytes);
    LoadedTotalIs(l, loads, ByCount);
    FilterMatchesLayout(scan.items, unloaded, SetOf(loads));
  }

  // ---------------------------------------------------------------- what the writer writes

  /** The effect of `apply_relocation` on the bytes of the entry at an input position. */
  type Reloc = (nat, seq<Byte>) -> seq<Byte>

  /** Relocating an entry keeps its length and its length and CIE pointer fields. */
  ghost predicate KeepsPrefix(reloc: Reloc) {
    forall p: nat, e: seq<Byte> ::
      |reloc(p, e)| == |e| && forall i :: 0 <= i < 8 && i < |e| ==> reloc(p, e)[i] == e[i]
  }

  /** An item is the entry that the data has at its position. */
  predicate RealItem(data: seq<Byte>, item: Item) {
    && item.pos + PREFIX_LEN <= |data| && item.End() <= |data|
    && item.size == SizeAt(data, item.pos) && item.id == IdAt(data, item.pos)
    && (forall i :: 0 <= i < |item.rels| ==> item.rels[i].offset < item.End())
  }

  predicate AllReal(data: seq<Byte>, items: seq<Item>) {
    forall i :: 0 <= i < |items| ==> RealItem(data, items[i])
  }

  /** The bytes written, where each CIE went, and the output position of each FDE that gets an entry of the search
      table in `.eh_frame_hdr`. */
  datatype Written = Written(out: seq<Byte>, cies: map<nat, nat>, frames: seq<nat>)

  function EntryBytes(data: seq<Byte>, item: Item): seq<Byte>
    requires item.End() <= |data|
  {
    data[item.pos..item.End()]
  }

  /** The offset of the CIE that an FDE names, if its pointer stays inside the section. */
  function CieOf(item: Item): Option<nat> {
    if item.pos + 4 < item.id then None else Some(item.pos + 4 - item.id)
  }

  function WriteItem(data: seq<Byte>, w: Written, item: Item, live: set<nat>, reloc: Reloc): Option<Written>
    requires RealItem(data, item)
  {
    match VerdictOn(item, live)
    case Drop => Some(w)
    case Fail => None
    case Keep =>
      if item.IsCie() then
        Some(Written(w.out + reloc(item.pos, EntryBytes(data, item)), w.cies[item.pos := |w.out|], w.frames))
      else
        var c :- CieOf(item);
        if c !in w.cies || |w.out| + 4 < w.cies[c] then None
        else
          Some(w.(out := w.out + reloc(item.pos, Patch(EntryBytes(data, item), 4, ToLe(|w.out| + 4 - w.cies[c], 4))),
                  frames := w.frames + [|w.out|]))
  }

  /** Every CIE written so far is found, relocated, at its output offset. */
  ghost predicate CiesStored(data: seq<Byte>, w: Written, reloc: Reloc) {
    forall c <- w.cies ::
      && c + PREFIX_LEN <= |data| && c + SizeAt(data, c) <= |data| && IdAt(data, c) == 0
      && Holds(w.out, w.cies[c], reloc(c, data[c..c + SizeAt(data, c)]))
  }

  lemma {:induction false} WriteKeepsStored(data: seq<Byte>, w: Written, item: Item, live: set<nat>, reloc: Reloc)
    requires RealItem(data, item) && CiesStored(data, w, reloc)
    requires WriteItem(data, w, item, live, reloc).Some?
    ensures CiesStored(data, WriteItem(data, w, item, live, reloc).value, reloc)
  {
    var w' := WriteItem(data, w, item, live, reloc).value;
    if w'.out != w.out || w'.cies != w.cies {
      var more := w'.out[|w.out|..];
      assert w'.out == w.out + more;
      forall c <- w'.cies
        ensures c + PREFIX_LEN <= |data| && c + SizeAt(data, c) <= |data| && IdAt(data, c) == 0
        ensures Holds(w'.out, w'.cies[c], reloc(c, data[c..c + SizeAt(data, c)]))
      {
        if item.IsCie() && c == item.pos {
          HoldsInTail(w.out, more, 0, more);
        } else {
          HoldsInHead(w.out, more, w.cies[c], reloc(c, data[c..c + SizeAt(data, c)]));
        }
      }
    }
  }

  function WriteItems(data: seq<Byte>, items: seq<Item>, live: set<nat>, reloc: Reloc): Option<Written>
    requires AllReal(data, items)
  {
    if items == [] then Some(Written([], map[], []))
    else
      var w :- WriteItems(data, items[..|items| - 1], live, reloc);
      WriteItem(data, w, items[|items| - 1], live, reloc)
  }

  lemma {:induction false} WrittenCiesStored(data: seq<Byte>, items: seq<Item>, live: set<nat>, reloc: Reloc)
    requires AllReal(data, items)
    requires WriteItems(data, items, live, reloc).Some?
    ensures CiesStored(data, WriteItems(data, items, live, reloc).value, reloc)
  {
    hide CiesStored, WriteItem, RealItem;
    if items == [] {
      NothingStored(data, reloc);
    } else {
      var n := |items| - 1;
      WrittenCiesStored(data, items[..n], live, reloc);
      WriteKeepsStored(data, WriteItems(data, items[..n], live, reloc).value, items[n], live, reloc);
    }
  }

  lemma {:induction false} NothingStored(data: seq<Byte>, reloc: Reloc)
    ensures CiesStored(data, Written([], map[], []), reloc)
  {
  }

  lemma {:induction false} WriteItemLength(data: seq<Byte>, w: Written, item: Item, live: set<nat>, reloc: Reloc)
    requires RealItem(data, item) && KeepsPrefix(reloc)
    requires WriteItem(data, w, item, live, reloc).Some?
    ensures var w' := WriteItem(data, w, item, live, reloc).value;
            && |w'.out| == |w.out| + (if VerdictOn(item, live) == Keep then item.size else 0)
            && w.out <= w'.out
  {
  }

  /** The output is as long as the kept entries, and earlier output is a prefix of later output. */
  lemma {:induction false} WrittenLength(data: seq<Byte>, items: seq<Item>, live: set<nat>, reloc: Reloc, k: nat)
    requires AllReal(data, items)
    requires KeepsPrefix(reloc) && k <= |items|
    requires WriteItems(data, items, live, reloc).Some?
    ensures |WriteItems(data, items, live, reloc).value.out| == KeptTotal(items, live)
    ensures WriteItems(data, items[..k], live, reloc).Some?
    ensures WriteItems(data, items[..k], live, reloc).value.out <= WriteItems(data, items, live, reloc).value.out
    ensures forall c <- WriteItems(data, items[..k], live, reloc).value.cies ::
              c in WriteItems(data, items, live, reloc).value.cies
  {
    hide WriteItem, RealItem, KeepsPrefix, VerdictOn;
    if k == |items| { assert items[..k] == items; }
    if items != [] {
      var n := |items| - 1;
      var w := WriteItems(data, items[..n], live, reloc).value;
      WriteItemLength(data, w, items[n], live, reloc);
      WriteItemCies(data, w, items[n], live, reloc);
      WrittenLength(data, items[..n], live, reloc, if k <= n then k else n);
      if k <= n { assert items[..n][..k] == items[..k]; }
    }
  }

  lemma {:induction false} WriteItemCies(data: seq<Byte>, w: Written, item: Item, live: set<nat>, reloc: Reloc)
    requires RealItem(data, item)
    requires WriteItem(data, w, item, live, reloc).Some?
    ensures forall c <- w.cies :: c in WriteItem(data, w, item, live, reloc).value.cies
  {
  }

  /** Where the entry at index `k` is put. */
  function OutputPos(data: seq<Byte>, items: seq<Item>, live: set<nat>, reloc: Reloc, k: nat): nat
    requires AllReal(data, items)
    requires k <= |items| && WriteItems(data, items[..k], live, reloc).Some?
  {
    |WriteItems(data, items[..k], live, reloc).value.out|
  }

  /** The search table has one entry for each kept FDE, in order, and it names the place where that FDE was put. */
  lemma {:induction false} TableNamesKeptFdes(data: seq<Byte>, items: seq<Item>, live: set<nat>, reloc: Reloc, k: nat)
    requires AllReal(data, items) && k < |items|
    requires WriteItems(data, items, live, reloc).Some?
    ensures WriteItems(data, items[..k], live, reloc).Some?
    ensures var frames := WriteItems(data, items, live, reloc).value.frames;
            && |frames| == KeptFdes(items, live)
            && (!items[k].IsCie() && VerdictOn(items[k], live) == Keep ==>
                  && KeptFdes(items[..k], live) < |frames|
                  && frames[KeptFdes(items[..k], live)] == OutputPos(data, items, live, reloc, k))
    decreases |items|
  {
    hide RealItem, WriteItem;
    var n := |items| - 1;
    var w := WriteItems(data, items[..n], live, reloc).value;
    FramesStep(data, w, items[n], live, reloc);
    if n == 0 {
      assert items[..0] == [];
    } else {
      TableNamesKeptFdes(data, items[..n], live, reloc, if k < n then k else 0);
      if k < n { assert items[..n][..k] == items[..k]; }
    }
  }

  lemma {:induction false} FramesStep(data: seq<Byte>, w: Written, item: Item, live: set<nat>, reloc: Reloc)
    requires RealItem(data, item) && WriteItem(data, w, item, live, reloc).Some?
    ensures WriteItem(data, w, item, live, reloc).value.frames
            == w.frames + (if !item.IsCie() && VerdictOn(item, live) == Keep then [|w.out|] else [])
  {
  }

  /** The pointer written for a kept FDE, on the output before the trailing bytes. */
  lemma {:induction false} KeptFdePointer(data: seq<Byte>, items: seq<Item>, live: set<nat>, reloc: Reloc, k: nat)
    requires |data| < 0xffff_fff0 && KeepsPrefix(reloc)
    requires AllReal(data, items)
    requires WriteItems(data, items, live, reloc).Some?
    requires KeptTotal(items, live) <= |data|
    requires k < |items| && !items[k].IsCie() && VerdictOn(items[k], live) == Keep
    ensures WriteItems(data, items[..k], live, reloc).Some?
    ensures CieOf(items[k]).Some?
    ensures var out := WriteItems(data, items, live, reloc).value.out;
            var o := OutputPos(data, items, live, reloc, k);
            var c := CieOf(items[k]).value;
            && o + 8 <= |out| && c + PREFIX_LEN <= |data| && c + SizeAt(data, c) <= |data|
            && IdAt(data, c) == 0
            && FromLe(out[o + 4..o + 8]) <= o + 4
            && Holds(out, o + 4 - FromLe(out[o + 4..o + 8]), reloc(c, data[c..c + SizeAt(data, c)]))
  {
    hide *;
    RealParts(data, items, k);
    WriteStep(data, items, live, reloc, k);
    var w := WriteItems(data, items[..k], live, reloc).value;
    var w1 := WriteItems(data, items[..k + 1], live, reloc).value;
    WrittenCiesStored(data, items[..k], live, reloc);
    PointerWritten(data, w, items[k], live, reloc);
    var out := WriteItems(data, items, live, reloc).value.out;
    var o: nat, c: nat := |w.out|, CieOf(items[k]).value;
    StoredCie(data, w, reloc, c);
    PrefixKeeps(w1.out, out, w.cies[c], reloc(c, data[c..c + SizeAt(data, c)]));
    PrefixSlice(w1.out, out, o + 4, o + 8);
    OutputPosIs(data, items, live, reloc, k);
  }

  lemma {:induction false} RealParts(data: seq<Byte>, items: seq<Item>, k: nat)
    requires AllReal(data, items) && k < |items|
    ensures AllReal(data, items[..k]) && AllReal(data, items[..k + 1]) && RealItem(data, items[k])
  {
    hide RealItem;
  }

  lemma {:induction false} OutputPosIs(data: seq<Byte>, items: seq<Item>, live: set<nat>, reloc: Reloc, k: nat)
    requires AllReal(data, items)
    requires k <= |items| && WriteItems(data, items[..k], live, reloc).Some?
    ensures OutputPos(data, items, live, reloc, k) == |WriteItems(data, items[..k], live, reloc).value.out|
  {
  }

  lemma {:induction false} WriteStep(data: seq<Byte>, items: seq<Item>, live: set<nat>, reloc: Reloc, k: nat)
    requires KeepsPrefix(reloc) && k < |items|
    requires AllReal(data, items)
    requires WriteItems(data, items, live, reloc).Some?
    ensures WriteItems(data, items[..k], live, reloc).Some? && WriteItems(data, items[..k + 1], live, reloc).Some?
    ensures WriteItems(data, items[..k + 1], live, reloc)
         == WriteItem(data, WriteItems(data, items[..k], live, reloc).value, items[k], live, reloc)
    ensures WriteItems(data, items[..k + 1], live, reloc).value.out <= WriteItems(data, items, live, reloc).value.out
    ensures |WriteItems(data, items, live, reloc).value.out| == KeptTotal(items, live)
  {
    hide RealItem, KeepsPrefix, WriteItem, KeptTotal;
    WrittenLength(data, items, live, reloc, k);
    WrittenLength(data, items, live, reloc, k + 1);
    assert items[..k + 1][..k] == items[..k] && items[..k + 1][k] == items[k];
  }

  lemma {:induction false} PrefixSlice(s: seq<Byte>, t: seq<Byte>, lo: nat, hi: nat)
    requires s <= t && lo <= hi <= |s|
    ensures t[lo..hi] == s[lo..hi]
  {
  }

  lemma {:induction false} PrefixKeeps(s: seq<Byte>, t: seq<Byte>, at: int, w: seq<Byte>)
    requires s <= t && Holds(s, at, w)
    ensures Holds(t, at, w)
  {
  }

  lemma {:induction false} PointerWritten(data: seq<Byte>, w: Written, item: Item, live: set<nat>, reloc: Reloc)
    requires RealItem(data, item) && KeepsPrefix(reloc) && CiesStored(data, w, reloc)
    requires !item.IsCie() && VerdictOn(item, live) == Keep
    requires WriteItem(data, w, item, live, reloc).Some?
    requires |WriteItem(data, w, item, live, reloc).value.out| < 0xffff_fff0
    ensures CieOf(item).Some? && CieOf(item).value in w.cies
    ensures var w' := WriteItem(data, w, item, live, reloc).value;
            var o, c := |w.out|, CieOf(item).value;
            && o + 8 <= |w'.out|
            && FromLe(w'.out[o + 4..o + 8]) == o + 4 - w.cies[c]
            && Holds(w'.out, w.cies[c], reloc(c, data[c..c + SizeAt(data, c)]))
  {
    hide *;
    KeptFdeStep(data, w, item, live, reloc);
    var o: nat, c: nat := |w.out|, CieOf(item).value;
    var ptr: nat := o + 4 - w.cies[c];
    var entry := Patch(EntryBytes(data, item), 4, ToLe(ptr, 4));
    RelocatedField(reloc, item.pos, entry, ToLe(ptr, 4));
    TailSlice(w.out, reloc(item.pos, entry), 4, 8);
    StoredCie(data, w, reloc, c);
    HoldsInHead(w.out, reloc(item.pos, entry), w.cies[c], reloc(c, data[c..c + SizeAt(data, c)]));
    FromToLe32(ptr);
  }

  lemma {:induction false} KeptFdeStep(data: seq<Byte>, w: Written, item: Item, live: set<nat>, reloc: Reloc)
    requires RealItem(data, item)
    requires !item.IsCie() && VerdictOn(item, live) == Keep
    requires WriteItem(data, w, item, live, reloc).Some?
    ensures item.End() <= |data| && 8 <= |EntryBytes(data, item)|
    ensures CieOf(item).Some? && CieOf(item).value in w.cies && w.cies[CieOf(item).value] <= |w.out| + 4
    ensures WriteItem(data, w, item, live, reloc).value.out
         == w.out + reloc(item.pos, Patch(EntryBytes(data, item), 4, ToLe(|w.out| + 4 - w.cies[CieOf(item).value], 4)))
  {
  }

  lemma {:induction false} RelocatedField(reloc: Reloc, p: nat, entry: seq<Byte>, field: seq<Byte>)
    requires KeepsPrefix(reloc) && |field| == 4 && 8 <= |entry| && Holds(entry, 4, field)
    ensures |reloc(p, entry)| == |entry| && reloc(p, entry)[4..8] == field
  {
    assert |reloc(p, entry)| == |entry|;
    HoldsIsSlice(entry, 4, field);
  }

  lemma {:induction false} TailSlice(head: seq<Byte>, tail: seq<Byte>, a: nat, b: nat)
    requires a <= b <= |tail|
    ensures (head + tail)[|head| + a..|head| + b] == tail[a..b]
  {
  }

  lemma {:induction false} StoredCie(data: seq<Byte>, w: Written, reloc: Reloc, c: nat)
    requires CiesStored(data, w, reloc) && c in w.cies
    ensures c + PREFIX_LEN <= |data| && c + SizeAt(data, c) <= |data| && IdAt(data, c) == 0
    ensures Holds(w.out, w.cies[c], reloc(c, data[c..c + SizeAt(data, c)]))
  {
  }

  // ---------------------------------------------------------------- facts about the scan

  function SumSizes(items: seq<Item>): nat {
    if items == [] then 0 else SumSizes(items[..|items| - 1]) + items[|items| - 1].size
  }

  lemma {:induction false} SumFirst(item: Item, rest: seq<Item>)
    ensures SumSizes([item] + rest) == item.size + SumSizes(rest)
  {
    if rest == [] {
      assert [item] + rest == [item] && [item][..0] == [];
    } else {
      var n := |rest| - 1;
      SumFirst(item, rest[..n]);
      assert ([item] + rest)[..|rest|] == [item] + rest[..n];
    }
  }

  lemma {:induction false} KeptAtMost(items: seq<Item>, live: set<nat>)
    ensures KeptTotal(items, live) <= SumSizes(items)
  {
    if items != [] { KeptAtMost(items[..|items| - 1], live); }
  }

  /** The scan's items are the entries of the data, and with the trailing bytes they make up the data. */
  lemma {:induction false} ScanIsReal(data: seq<Byte>, pos: nat, rels: seq<Rel>)
    requires pos <= |data| && ScanFrom(data, pos, rels).Some?
    ensures var s := ScanFrom(data, pos, rels).value;
            && AllReal(data, s.items)
            && SumSizes(s.items) + s.trailing == |data| - pos
    decreases |data| - pos
  {
    if pos + PREFIX_LEN <= |data| {
      var size := SizeAt(data, pos);
      var n := Below(rels, pos + size);
      ScanIsReal(data, pos + size, rels[n..]);
      var rest := ScanFrom(data, pos + size, rels[n..]).value;
      var item := Item(pos, size, IdAt(data, pos), rels[..n]);
      hide SizeAt, IdAt, ScanFrom;
      assert RealItem(data, item);
      SumFirst(item, rest.items);
      ScanStep(data, pos, rels);
    }
  }

  lemma {:induction false} ScanStep(data: seq<Byte>, pos: nat, rels: seq<Rel>)
    requires pos + PREFIX_LEN <= |data|
    ensures var size := SizeAt(data, pos);
            var n := Below(rels, pos + size);
            ScanFrom(data, pos, rels)
            == if |data| < pos + size then None
               else Prepend([Item(pos, size, IdAt(data, pos), rels[..n])], ScanFrom(data, pos + size, rels[n..]))
  {
    hide SizeAt, IdAt;
  }

  /** Layout and writer agree to the byte: what is reserved for the loaded sections is exactly what a
      successful write fills, so nothing is missing and nothing is left over. */
  lemma {:induction false} ReservedIsExactlyFilled(data: seq<Byte>, rels: seq<Rel>, unloaded: set<nat>, loads: seq<nat>, reloc: Reloc)
    requires ScanFrom(data, 0, rels).Some? && KeepsPrefix(reloc)
    requires Distinct(loads) && SetOf(loads) <= unloaded
    requires forall i :: 0 <= i < |ScanFrom(data, 0, rels).value.items| ==> Tidy(ScanFrom(data, 0, rels).value.items[i])
    ensures var s := ScanFrom(data, 0, rels).value;
            && AllReal(data, s.items)
            && Reserved(s, unloaded, loads) <= |data|
            && (WriteItems(data, s.items, SetOf(loads), reloc).Some? ==>
                  |WriteItems(data, s.items, SetOf(loads), reloc).value.out| + s.trailing == Reserved(s, unloaded, loads))
  {
    hide ScanFrom, KeepsPrefix, Tidy, WriteItems, Reserved, RealItem, Distinct, SetOf;
    var s := ScanFrom(data, 0, rels).value;
    ScanIsReal(data, 0, rels);
    ReservedIsKept(s, unloaded, loads);
    KeptAtMost(s.items, SetOf(loads));
    if WriteItems(data, s.items, SetOf(loads), reloc).Some? {
      WrittenLength(data, s.items, SetOf(loads), reloc, 0);
    }
  }

  /** For a kept FDE in the written section: the pointer field leads back to the copied, relocated bytes
      of the CIE that the FDE named in the input, whatever was dropped in between. */
  lemma {:induction false} KeptFdeFindsItsCie(data: seq<Byte>, rels: seq<Rel>, live: set<nat>, reloc: Reloc, k: nat)
    requires |data| < 0xffff_fff0 && KeepsPrefix(reloc)
    requires ScanFrom(data, 0, rels).Some? && AllReal(data, ScanFrom(data, 0, rels).value.items)
    requires WriteItems(data, ScanFrom(data, 0, rels).value.items, live, reloc).Some?
    requires k < |ScanFrom(data, 0, rels).value.items|
    requires var item := ScanFrom(data, 0, rels).value.items[k]; !item.IsCie() && VerdictOn(item, live) == Keep
    ensures ScanFrom(data, 0, rels).value.trailing <= |data|
    ensures var scan := ScanFrom(data, 0, rels).value;
            && WriteItems(data, scan.items[..k], live, reloc).Some? && CieOf(scan.items[k]).Some?
            && var out := SectionOutput(data, scan, WriteItems(data, scan.items, live, reloc).value);
               var o := OutputPos(data, scan.items, live, reloc, k);
               var c := CieOf(scan.items[k]).value;
               && o + 8 <= |out| && c + PREFIX_LEN <= |data| && c + SizeAt(data, c) <= |data|
               && IdAt(data, c) == 0
               && FromLe(out[o + 4..o + 8]) <= o + 4
               && Holds(out, o + 4 - FromLe(out[o + 4..o + 8]), reloc(c, data[c..c + SizeAt(data, c)]))
  {
    hide *;
    var scan := ScanFrom(data, 0, rels).value;
    ScanIsReal(data, 0, rels);
    RealParts(data, scan.items, k);
    KeptAtMost(scan.items, live);
    KeptFdePointer(data, scan.items, live, reloc, k);
    var w := WriteItems(data, scan.items, live, reloc).value;
    var tail := data[|data| - scan.trailing..];
    SectionOutputHas(data, scan, w);
    var o := OutputPos(data, scan.items, live, reloc, k);
    var c: nat := CieOf(scan.items[k]).value;
    PrefixSlice(w.out, w.out + tail, o + 4, o + 8);
    HoldsInHead(w.out, tail, o + 4 - FromLe(w.out[o + 4..o + 8]), reloc(c, data[c..c + SizeAt(data, c)]));
  }

  lemma {:induction false} SectionOutputHas(data: seq<Byte>, scan: Scan, w: Written)
    requires scan.trailing <= |data|
    ensures SectionOutput(data, scan, w) == w.out + data[|data| - scan.trailing..]
  {
  }

  // ---------------------------------------------------------------- the loops

  lemma {:induction false} BelowIs(rels: seq<Rel>, lo: nat, hi: nat, limit: nat)
    requires lo <= hi <= |rels|
    requires forall i :: lo <= i < hi ==> rels[i].offset < limit
    requires hi == |rels| || limit <= rels[hi].offset
    ensures Below(rels[lo..], limit) == hi - lo
    decreases hi - lo
  {
    if lo < hi {
      BelowIs(rels, lo + 1, hi, limit);
      assert rels[lo..][1..] == rels[lo + 1..];
    }
  }

  lemma {:induction false} PrependTwice(done: seq<Item>, item: Item, s: Option<Scan>)
    ensures Prepend(done, Prepend([item], s)) == Prepend(done + [item], s)
  {
    if s.Some? { assert done + ([item] + s.value.items) == done + [item] + s.value.items; }
  }

  lemma {:induction false} PrependNothing(s: Option<Scan>)
    ensures Prepend([], s) == s
  {
    if s.Some? { assert [] + s.value.items == s.value.items; }
  }

  /** Consumes the relocations of the entry that ends at `next`, noting the section layout sees. */
  method TakeRels(rels: seq<Rel>, start: nat, pos: nat, next: nat) returns (end: nat, seen: Option<nat>)
    requires start <= |rels|
    ensures end == start + Below(rels[start..], next) <= |rels|
    ensures seen == SeenBy(pos, rels[start..end])
  {
    end, seen := start, None;
    assert rels[start..start] == [];
    while end < |rels| && rels[end].offset < next
      invariant start <= end <= |rels|
      invariant forall i :: start <= i < end ==> rels[i].offset < next
      invariant seen == SeenBy(pos, rels[start..end])
    {
      assert rels[start..end + 1][..end - start] == rels[start..end];
      if rels[end].offset == pos + FDE_PC_BEGIN_OFFSET && rels[end].target != Absolute {
        seen := if rels[end].target.InSection? then Some(rels[end].target.index) else None;
      }
      end := end + 1;
    }
    BelowIs(rels, start, end, next);
  }

  datatype Parsed = Parsed(frames: seq<Frame>, last: map<nat, nat>, cieBytes: nat, trailing: nat)

  /** `process_eh_frame_relocations`. */
  method ParseFrames(data: seq<Byte>, rels: seq<Rel>, unloaded: set<nat>) returns (r: Option<Parsed>)
    ensures r.Some? <==> ScanFrom(data, 0, rels).Some?
    ensures r.Some? ==>
              var s := ScanFrom(data, 0, rels).value;
              var l := LayoutOf(s.items, unloaded);
              r.value == Parsed(l.frames, l.last, CieBytes(s.items), s.trailing)
  {
    hide SeenBy, Below, SizeAt, IdAt;
    var pos, ri: nat := 0, 0;
    var frames: seq<Frame>, last: map<nat, nat>, cieBytes: nat := [], map[], 0;
    ghost var done: seq<Item> := [];
    ghost var owners: seq<nat> := [];
    assert rels[0..] == rels;
    PrependNothing(ScanFrom(data, 0, rels));
    while pos + PREFIX_LEN <= |data|
      invariant pos <= |data| && ri <= |rels|
      invariant ScanFrom(data, 0, rels) == Prepend(done, ScanFrom(data, pos, rels[ri..]))
      invariant Layout(frames, owners, last) == LayoutOf(done, unloaded) && cieBytes == CieBytes(done)
      decreases |data| - pos
    {
      var size := SizeAt(data, pos);
      var next := pos + size;
      ScanStep(data, pos, rels[ri..]);
      if |data| < next { return None; }
      var id := IdAt(data, pos);
      var end, seen := TakeRels(rels, ri, pos, next);
      ghost var item := Item(pos, size, id, rels[ri..end]);
      assert rels[ri..][..end - ri] == rels[ri..end] && rels[ri..][end - ri..] == rels[end..];
      PrependTwice(done, item, ScanFrom(data, next, rels[end..]));
      assert (done + [item])[..|done|] == done;
      if id == 0 {
        cieBytes := cieBytes + size;
      } else if seen.Some? && seen.value in unloaded {
        var previous := LastOf(last, seen.value);
        last := last[seen.value := |frames|];
        frames := frames + [Frame(size, previous)];
        owners := owners + [seen.value];
      }
      done := done + [item];
      pos, ri := next, end;
      SizePositive(data, next - size);
    }
    r := Some(Parsed(frames, last, cieBytes, |data| - pos));
    assert done + [] == done;
  }

  lemma {:induction false} SizePositive(data: seq<Byte>, pos: nat)
    requires pos + PREFIX_LEN <= |data|
    ensures 4 <= SizeAt(data, pos)
  {
  }

  /** `process_section_exception_frames`: walks one section's chain. */
  method SectionFrames(ghost l: Layout, frames: seq<Frame>, start: Option<nat>) returns (count: nat, bytes: nat)
    requires Threaded(l) && frames == l.frames
    requires start.Some? ==> start.value < |frames|
    ensures bytes == ChainTotal(l, start, ByBytes) && count == ChainTotal(l, start, ByCount)
  {
    count, bytes := 0, 0;
    var next: Option<nat> := start;
    while next.Some?
      invariant next.Some? ==> next.value < |frames|
      invariant bytes + ChainTotal(l, next, ByBytes) == ChainTotal(l, start, ByBytes)
      invariant count + ChainTotal(l, next, ByCount) == ChainTotal(l, start, ByCount)
      decreases if next.None? then 0 else next.value + 1
    {
      assert LinkedAt(l, next.value);
      bytes := bytes + frames[next.value].size;
      count := count + 1;
      next := frames[next.value].previous;
    }
  }

  /** The writer's whole output for a section. */
  function SectionOutput(data: seq<Byte>, scan: Scan, w: Written): seq<Byte>
    requires scan.trailing <= |data|
  {
    w.out + data[|data| - scan.trailing..]
  }

  /** `write_eh_frame_relocations` into a buffer of `capacity` bytes. */
  method WriteFrames(data: seq<Byte>, rels: seq<Rel>, live: set<nat>, reloc: Reloc, capacity: nat) returns (r: Option<seq<Byte>>)
    requires KeepsPrefix(reloc)
    ensures r.Some? ==> ScanFrom(data, 0, rels).Some?
    ensures ScanFrom(data, 0, rels).Some? ==>
              var s := ScanFrom(data, 0, rels).value;
              && AllReal(data, s.items) && s.trailing <= |data|
              && (r.Some? <==> WriteItems(data, s.items, live, reloc).Some? && KeptTotal(s.items, live) + s.trailing <= capacity)
              && (r.Some? ==> r.value == SectionOutput(data, s, WriteItems(data, s.items, live, reloc).value))
  {
    hide *;
    var pos, ri: nat := 0, 0;
    var w := Written([], map[], []);
    ghost var done: seq<Item> := [];
    ghost var whole := ScanFrom(data, 0, rels);
    WriteStart(data, rels, live, reloc);
    assert rels[0..] == rels;
    PrependNothing(whole);
    while pos + 8 <= |data|
      invariant pos <= |data| && ri <= |rels|
      invariant whole == Prepend(done, ScanFrom(data, pos, rels[ri..]))
      invariant AllReal(data, done) && WriteItems(data, done, live, reloc) == Some(w)
      invariant |w.out| == KeptTotal(done, live) <= capacity
      decreases |data| - pos
    {
      PrefixLength();
      var size := SizeAt(data, pos);
      var next := pos + size;
      ScanStep(data, pos, rels[ri..]);
      if |data| < next { PrependFails(done); return None; }
      var n := Below(rels[ri..], next);
      var item := Item(pos, size, IdAt(data, pos), rels[ri..][..n]);
      assert rels[ri..][n..] == rels[ri + n..];
      ghost var rest := ScanFrom(data, next, rels[ri + n..]);
      PrependTwice(done, item, rest);
      RealNow(data, pos, rels[ri..]);
      WriteOne(data, done, item, live, reloc);
      PrependIs(done + [item], rest);
      if VerdictOn(item, live) == Keep && capacity < |w.out| + size {
        if whole.Some? { KeptGrows(done + [item], rest.value.items, live); }
        return None;
      }
      var step := WriteItem(data, w, item, live, reloc);
      if step.None? {
        if whole.Some? { WriteStuck(data, done + [item], rest.value.items, live, reloc); }
        return None;
      }
      WriteItemLength(data, w, item, live, reloc);
      w := step.value;
      done := done + [item];
      pos, ri := next, ri + n;
      SizePositive(data, next - size);
    }
    ScanEnd(data, pos, rels[ri..]);
    PrependIs(done, Some(Scan([], |data| - pos)));
    assert done + [] == done;
    SectionOutputIs(data, done, pos, w);
    if capacity < |w.out| + (|data| - pos) { return None; }
    return Some(w.out + data[pos..]);
  }

  lemma {:induction false} PrefixLength() ensures PREFIX_LEN == 8 { }

  lemma {:induction false} PrependFails(done: seq<Item>) ensures Prepend(done, None) == None { }

  lemma {:induction false} PrependIs(done: seq<Item>, s: Option<Scan>)
    ensures s.Some? ==> Prepend(done, s) == Some(Scan(done + s.value.items, s.value.trailing))
    ensures s.None? ==> Prepend(done, s).None?
  {
  }

  lemma {:induction false} ScanEnd(data: seq<Byte>, pos: nat, rels: seq<Rel>)
    requires pos <= |data| < pos + 8
    ensures ScanFrom(data, pos, rels) == Some(Scan([], |data| - pos))
  {
  }

  lemma {:induction false} SectionOutputIs(data: seq<Byte>, items: seq<Item>, pos: nat, w: Written)
    requires pos <= |data|
    ensures SectionOutput(data, Scan(items, |data| - pos), w) == w.out + data[pos..]
  {
  }

  lemma {:induction false} WriteStart(data: seq<Byte>, rels: seq<Rel>, live: set<nat>, reloc: Reloc)
    ensures AllReal(data, []) && WriteItems(data, [], live, reloc) == Some(Written([], map[], [])) && KeptTotal([], live) == 0
    ensures ScanFrom(data, 0, rels).Some? ==>
              AllReal(data, ScanFrom(data, 0, rels).value.items) && ScanFrom(data, 0, rels).value.trailing <= |data|
  {
    hide ScanFrom;
    if ScanFrom(data, 0, rels).Some? { ScanIsReal(data, 0, rels); }
  }

  lemma {:induction false} WriteOne(data: seq<Byte>, done: seq<Item>, item: Item, live: set<nat>, reloc: Reloc)
    requires AllReal(data, done) && RealItem(data, item) && WriteItems(data, done, live, reloc).Some?
    ensures AllReal(data, done + [item])
    ensures WriteItems(data, done + [item], live, reloc)
         == WriteItem(data, WriteItems(data, done, live, reloc).value, item, live, reloc)
    ensures KeptTotal(done + [item], live)
         == KeptTotal(done, live) + (if VerdictOn(item, live) == Keep then item.size else 0)
  {
    hide RealItem, WriteItem, VerdictOn;
    assert (done + [item])[..|done|] == done;
  }

  lemma {:induction false} RealNow(data: seq<Byte>, pos: nat, rels: seq<Rel>)
    requires pos + PREFIX_LEN <= |data| && pos + SizeAt(data, pos) <= |data|
    ensures RealItem(data, Item(pos, SizeAt(data, pos), IdAt(data, pos), rels[..Below(rels, pos + SizeAt(data, pos))]))
  {
  }

  lemma {:induction false} KeptGrows(items: seq<Item>, more: seq<Item>, live: set<nat>)
    ensures KeptTotal(items, live) <= KeptTotal(items + more, live)
  {
    if more == [] {
      assert items + more == items;
    } else {
      KeptGrows(items, more[..|more| - 1], live);
      assert (items + more)[..|items + more| - 1] == items + more[..|more| - 1];
    }
  }

  lemma {:induction false} WriteStuck(data: seq<Byte>, items: seq<Item>, more: seq<Item>, live: set<nat>, reloc: Reloc)
    requires AllReal(data, items + more) && AllReal(data, items)
    requires WriteItems(data, items, live, reloc).None?
    ensures WriteItems(data, items + more, live, reloc).None?
  {
    if more == [] {
      assert items + more == items;
    } else {
      hide WriteItem, RealItem;
      var n := |items + more| - 1;
      assert (items + more)[..n] == items + more[..|more| - 1];
      assert forall i :: 0 <= i < n ==> (items + more[..|more| - 1])[i] == (items + more)[i];
      WriteStuck(data, items, more[..|more| - 1], live, reloc);
    }
  }
}
