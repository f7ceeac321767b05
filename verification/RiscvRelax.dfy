/** One RISC-V relaxation pass: which bytes are deleted, and what that does to the places that must be aligned. */
module RiscvRelax {
  import opened Bytes
  import opened Words
  import opened Deletions

  const U64: nat := 0x1_0000_0000_0000_0000

  datatype Kind = Align | Call | Hi20 | Relax | Other

  datatype Reloc = Reloc(kind: Kind, offset: nat, addend: int, symbol: Option<nat>)

  /** The output address of a symbol, and whether it may be overridden. */
  datatype Target = Target(address: nat, interposable: bool)

  /** A section being scanned: its output address, its bytes, and the symbol resolver. */
  datatype Section = Section(address: nat, bytes: seq<Byte>, resolve: nat -> Option<Target>)

  // ---------------------------------------------------------------- single decisions

  predicate FitsJal(distance: int) { -0x10_0000 <= distance <= 0xf_ffff }

  /** `hi20` of an address: the upper part after rounding. */
  function UpperPart(value: nat): nat { (value + 0x800) % U64 / 0x1000 }

  predicate UpperIsZero(value: nat) { UpperPart(value) % 0x10_0000 == 0 }

  /** `hi20_fits_clui`: the six low bits, sign-extended, against the upper part as the unsigned shift leaves it. */
  predicate FitsClui(value: nat) {
    var low := UpperPart(value) % 64;
    (if low >= 32 then low - 64 else low) == UpperPart(value) != 0
  }

  /** The number of different upper parts. */
  const UPPER_PARTS: nat := 0x10_0000_0000_0000

  /** The upper part read as the signed number that `lui` and `c.lui` build. */
  function SignedUpper(value: nat): int {
    if UpperPart(value) < UPPER_PARTS / 2 then UpperPart(value) else UpperPart(value) - UPPER_PARTS
  }

  /** The range the comment on `hi20_fits_clui` names: [-32, -1] and [1, 31]. */
  predicate InCluiRange(value: nat) { -32 <= SignedUpper(value) <= 31 && SignedUpper(value) != 0 }

  /** The code finds exactly the positive half of that range; the two differ exactly on the negative half. */
  lemma {:induction false} FitsCluiExactly(value: nat)
    requires value < U64
    ensures UpperPart(value) < UPPER_PARTS
    ensures FitsClui(value) <==> 1 <= UpperPart(value) <= 31
    ensures FitsClui(value) <==> InCluiRange(value) && SignedUpper(value) > 0
    ensures InCluiRange(value) && !FitsClui(value) <==> UPPER_PARTS - 32 <= UpperPart(value)
  {
    UpperPartBound(value);
    var u := UpperPart(value);
    if u >= 64 {
      assert u % 64 < 64;
    }
  }

  lemma {:induction false} UpperPartBound(value: nat)
    ensures UpperPart(value) < UPPER_PARTS
  {
    assert (value + 0x800) % U64 < U64;
  }

  /** An address one page below the end of the address space is in range, and is not found. */
  lemma {:induction false} NegativeUpperIsMissed()
    ensures var value := 0xffff_ffff_ffff_f000;
            SignedUpper(value) == -1 && InCluiRange(value) && !FitsClui(value)
  {
    assert UpperPart(0xffff_ffff_ffff_f000) == 0xf_ffff_ffff_ffff;
  }

  /** The target of a relocation when it is known and final. */
  function FinalTarget(s: Section, r: Reloc): Option<nat> {
    if r.symbol.None? then None
    else
      var t := s.resolve(r.symbol.value);
      if t.None? || t.value.interposable then None else Some(t.value.address)
  }

  /** The `jalr` after an `auipc` goes when the target is in `jal` range. */
  function CallDeletion(s: Section, call: Reloc): Option<Deletion> {
    var target := FinalTarget(s, call);
    if target.Some? && FitsJal(target.value - (s.address + call.offset)) then Some(Deletion(call.offset + 4, 4)) else None
  }

  /** The `lui` goes when the upper part is zero; its upper half goes when a compressed `lui` can hold it. */
  function Hi20Deletion(s: Section, r: Reloc): Option<Deletion> {
    var target := FinalTarget(s, r);
    if target.None? || r.offset + 4 > |s.bytes| then None
    else
      var value := (target.value + r.addend) % U64;
      var rd := FromLe(s.bytes[r.offset..r.offset + 4]) / 128 % 32;
      if UpperIsZero(value) then Some(Deletion(r.offset, 4))
      else if rd != 0 && rd != 2 && FitsClui(value) then Some(Deletion(r.offset + 2, 2))
      else None
  }

  /** How far a call that stays is from `jal` range. */
  function CallMargin(s: Section, call: Reloc): Option<nat> {
    var target := FinalTarget(s, call);
    if target.None? then None
    else
      var distance := target.value - (s.address + call.offset);
      if FitsJal(distance) then None else Some((if distance < 0 then -distance else distance) - 0xf_ffff)
  }

  /** How far a `lui` that stays is from the range of a compressed one; the other arms of the source's cascade cannot
      be reached. */
  function Hi20Margin(s: Section, r: Reloc): Option<nat> {
    var target := FinalTarget(s, r);
    if target.None? || r.offset + 4 > |s.bytes| then None
    else
      var value := (target.value + r.addend) % U64;
      var rd := FromLe(s.bytes[r.offset..r.offset + 4]) / 128 % 32;
      if UpperIsZero(value) || rd == 0 || rd == 2 || FitsClui(value) then None
      else if UpperPart(value) > 31 then Some((UpperPart(value) - 31) * 0x1000)
      else Some(0x1000)
  }

  /** A call whose target comes closer by its margin is in range. */
  lemma {:induction false} CallMarginIsEnough(s: Section, call: Reloc, closer: int)
    requires CallMargin(s, call).Some?
    requires var distance := FinalTarget(s, call).value - (s.address + call.offset);
             if distance >= 0 then 0 <= closer <= distance - CallMargin(s, call).value
             else distance + CallMargin(s, call).value <= closer <= 0
    ensures FitsJal(closer)
  {
  }

  /** A `lui` whose value falls by its margin fits a compressed one, and no smaller whole number of pages is enough. */
  lemma {:induction false} Hi20MarginIsLeast(s: Section, r: Reloc, pages: nat)
    requires Hi20Margin(s, r).Some?
    ensures FinalTarget(s, r).Some?
    ensures var value := (FinalTarget(s, r).value + r.addend) % U64;
            && UpperPart(value) > 31 && Hi20Margin(s, r).value == (UpperPart(value) - 31) * 0x1000 <= value + 0x800
            && (pages < UpperPart(value) && pages * 0x1000 <= value ==>
                  (FitsClui(value - pages * 0x1000) <==> pages * 0x1000 >= Hi20Margin(s, r).value))
  {
    hide FromLe;
    var value := (FinalTarget(s, r).value + r.addend) % U64;
    FitsCluiExactly(value);
    ZeroUpper(value);
    if pages < UpperPart(value) && pages * 0x1000 <= value {
      UpperFalls(value, pages);
      FitsCluiExactly(value - pages * 0x1000);
    }
  }

  lemma {:induction false} ZeroUpper(value: nat)
    ensures UpperPart(value) == 0 ==> UpperIsZero(value)
    ensures UpperPart(value) * 0x1000 <= value + 0x800
  {
  }

  lemma {:induction false} UpperFalls(value: nat, pages: nat)
    requires value < U64 && pages * 0x1000 <= value && 0 < UpperPart(value)
    ensures UpperPart(value - pages * 0x1000) == UpperPart(value) - pages
  {
    assert (value + 0x800) % U64 == value + 0x800;
    assert (value - pages * 0x1000 + 0x800) % U64 == value - pages * 0x1000 + 0x800;
  }

  function NextMultiple(p: nat, a: nat): (q: nat)
    requires a > 0
    ensures p <= q < p + a
  {
    if p % a == 0 then p else p + (a - p % a)
  }

  /** `addend.next_power_of_two()`. */
  function Alignment(addend: nat): (a: nat)
    ensures a > 0 && a >= addend
  {
    NextPowerOfTwo(addend)
  }

  /** The surplus of an alignment sled whose place, less what was deleted before, is `p`. */
  function AlignDeletion(r: Reloc, p: nat): Option<Deletion>
    requires r.addend > 0
  {
    var desired := NextMultiple(p, Alignment(r.addend));
    if p + r.addend > desired then Some(Deletion(r.offset, p + r.addend - desired)) else None
  }

  // ---------------------------------------------------------------- one pass

  /** What the relocation at index `i` deletes, when `gone` bytes were deleted by the relocations before it. With
      well-formed relocations those bytes lie before the sled (`SledDeletion`), so its place is not negative. */
  function DeletionAt(s: Section, rels: seq<Reloc>, i: nat, gone: nat): Option<Deletion>
    requires i < |rels|
  {
    var r := rels[i];
    match r.kind
    case Align =>
      if r.addend <= 0 || gone > r.offset then None else AlignDeletion(r, s.address + (r.offset - gone))
    case Relax =>
      if i == 0 || rels[i - 1].offset != r.offset then None
      else if rels[i - 1].kind.Call? then CallDeletion(s, rels[i - 1])
      else if rels[i - 1].kind.Hi20? then Hi20Deletion(s, rels[i - 1])
      else None
    case _ => None
  }

  function Listed(d: Option<Deletion>): seq<Deletion> { if d.None? then [] else [d.value] }

  /** The deletions of the first `n` relocations. */
  function Collected(s: Section, rels: seq<Reloc>, n: nat): seq<Deletion>
    requires n <= |rels|
  {
    if n == 0 then []
    else
      var before := Collected(s, rels, n - 1);
      before + Listed(DeletionAt(s, rels, n - 1, SumTo(before, |before|)))
  }

  /** The margin the relocation at index `i` reports. */
  function MarginAt(s: Section, rels: seq<Reloc>, i: nat): Option<nat>
    requires i < |rels|
  {
    if i == 0 || !rels[i].kind.Relax? || rels[i - 1].offset != rels[i].offset then None
    else if rels[i - 1].kind.Call? then CallMargin(s, rels[i - 1])
    else if rels[i - 1].kind.Hi20? then Hi20Margin(s, rels[i - 1])
    else None
  }

  function Least(a: Option<nat>, b: Option<nat>): Option<nat> {
    if a.None? then b else if b.None? || a.value <= b.value then a else b
  }

  /** The smallest margin among the first `n` relocations. */
  function MarginOf(s: Section, rels: seq<Reloc>, n: nat): Option<nat>
    requires n <= |rels|
  {
    if n == 0 then None else Least(MarginOf(s, rels, n - 1), MarginAt(s, rels, n - 1))
  }

  /** It is the margin of some candidate, and no candidate has a smaller one; there is none exactly without candidates. */
  lemma {:induction false} MarginIsLeast(s: Section, rels: seq<Reloc>, n: nat)
    requires n <= |rels|
    ensures MarginOf(s, rels, n).None? <==> forall i :: 0 <= i < n ==> MarginAt(s, rels, i).None?
    ensures MarginOf(s, rels, n).Some? ==>
              && (exists i :: 0 <= i < n && MarginAt(s, rels, i) == MarginOf(s, rels, n))
              && forall i :: 0 <= i < n && MarginAt(s, rels, i).Some? ==> MarginOf(s, rels, n).value <= MarginAt(s, rels, i).value
    decreases n
  {
    hide MarginAt;
    if n > 0 {
      MarginIsLeast(s, rels, n - 1);
    }
  }

  lemma {:induction false} CollectedNone(s: Section, rels: seq<Reloc>)
    ensures Collected(s, rels, 0) == []
  {
  }

  /** The `n`-th relocation appends its deletion, if any. */
  lemma {:induction false} CollectedStep(s: Section, rels: seq<Reloc>, n: nat) returns (gone: nat)
    requires 0 < n <= |rels|
    ensures gone == SumTo(Collected(s, rels, n - 1), |Collected(s, rels, n - 1)|)
    ensures Collected(s, rels, n) == Collected(s, rels, n - 1) + Listed(DeletionAt(s, rels, n - 1, gone))
  {
    hide DeletionAt;
    var before := Collected(s, rels, n - 1);
    gone := SumTo(before, |before|);
  }

  /** `collect_relaxation_deltas` without earlier deltas. */
  method CollectDeltas(s: Section, rels: seq<Reloc>) returns (raw: seq<Deletion>, margin: Option<nat>)
    ensures raw == Collected(s, rels, |rels|) && margin == MarginOf(s, rels, |rels|)
  {
    hide CallDeletion, Hi20Deletion, AlignDeletion, Collected, SumTo, CallMargin, Hi20Margin;
    raw, margin := [], None;
    CollectedNone(s, rels);
    SumNone();
    var prevCall: Option<Reloc>, prevHi20: Option<Reloc>, gone := None, None, 0;
    for i := 0 to |rels|
      invariant margin == MarginOf(s, rels, i)
      invariant raw == Collected(s, rels, i) && gone == SumTo(raw, |raw|)
      invariant prevCall == if i > 0 && rels[i - 1].kind.Call? && rels[i - 1].symbol.Some? then Some(rels[i - 1]) else None
      invariant prevHi20 == if i > 0 && rels[i - 1].kind.Hi20? && rels[i - 1].symbol.Some? then Some(rels[i - 1]) else None
    {
      var r := rels[i];
      var found: Option<Deletion>, short: Option<nat> := None, None;
      match r.kind {
        case Align =>
          if r.addend > 0 && gone <= r.offset {
            found := AlignDeletion(r, s.address + (r.offset - gone));
          }
          prevCall, prevHi20 := None, None;
        case Call =>
          prevCall, prevHi20 := if r.symbol.Some? then Some(r) else None, None;
        case Hi20 =>
          prevHi20, prevCall := if r.symbol.Some? then Some(r) else None, None;
        case Relax =>
          if prevCall.Some? && r.offset == prevCall.value.offset {
            found := CallDeletion(s, prevCall.value);
            short := CallMargin(s, prevCall.value);
          } else if prevHi20.Some? && r.offset == prevHi20.value.offset {
            found := Hi20Deletion(s, prevHi20.value);
            short := Hi20Margin(s, prevHi20.value);
          }
          prevCall, prevHi20 := None, None;
        case Other =>
          prevCall, prevHi20 := None, None;
      }
      NoSymbolNoDeletion(s, rels, i);
      ghost var sum := CollectedStep(s, rels, i + 1);
      assert found == DeletionAt(s, rels, i, gone) && short == MarginAt(s, rels, i);
      if short.Some? {
        margin := if margin.Some? && margin.value <= short.value then margin else short;
      }
      if found.Some? {
        SumMore(raw, found.value);
        raw := raw + [found.value];
        gone := gone + found.value.count;
      }
    }
  }

  lemma {:induction false} NoSymbolNoDeletion(s: Section, rels: seq<Reloc>, i: nat)
    requires i < |rels|
    ensures i > 0 && rels[i - 1].symbol.None? ==> CallDeletion(s, rels[i - 1]).None? && Hi20Deletion(s, rels[i - 1]).None?
    ensures i > 0 && rels[i - 1].symbol.None? ==> CallMargin(s, rels[i - 1]).None? && Hi20Margin(s, rels[i - 1]).None?
  {
  }

  lemma {:induction false} SumPrefix(a: seq<Deletion>, b: seq<Deletion>, k: nat)
    requires k <= |a|
    ensures SumTo(a + b, k) == SumTo(a, k)
  {
    if k > 0 {
      SumPrefix(a, b, k - 1);
    }
  }

  lemma {:induction false} SumNone()
    ensures SumTo([], 0) == 0
  {
  }

  lemma {:induction false} SumMore(ds: seq<Deletion>, d: Deletion)
    ensures SumTo(ds + [d], |ds| + 1) == SumTo(ds, |ds|) + d.count
  {
    SumPrefix(ds, [d], |ds|);
  }

  // ---------------------------------------------------------------- well-formed inputs

  /** A relocation that owns bytes: a sled, a call pair, or a `lui`. */
  predicate Owns(r: Reloc) { r.kind.Call? || r.kind.Hi20? || (r.kind.Align? && r.addend > 0) }

  function Extent(r: Reloc): nat {
    match r.kind
    case Align => if r.addend > 0 then r.addend else 0
    case Call => 8
    case Hi20 => 4
    case _ => 0
  }

  /** Sorted relocations whose owned bytes do not overlap and lie in the section. */
  predicate WellFormedRelocs(s: Section, rels: seq<Reloc>) {
    && (forall i :: 0 <= i < |rels| && Owns(rels[i]) ==> rels[i].offset + Extent(rels[i]) <= |s.bytes|)
    && (forall i, j :: 0 <= i < j < |rels| && Owns(rels[i]) && Owns(rels[j]) ==> rels[i].offset + Extent(rels[i]) <= rels[j].offset)
  }

  /** Which relocation owns the bytes that index `i` deletes. */
  function Owner(rels: seq<Reloc>, i: nat): nat
    requires i < |rels|
  {
    if rels[i].kind.Relax? && i > 0 then i - 1 else i
  }

  /** A deletion is non-empty and inside the bytes of its owner. */
  lemma {:induction false} DeletionIsOwned(s: Section, rels: seq<Reloc>, i: nat, gone: nat)
    requires i < |rels| && DeletionAt(s, rels, i, gone).Some?
    ensures var d := DeletionAt(s, rels, i, gone).value;
            var r := rels[Owner(rels, i)];
            Owns(r) && d.count > 0 && r.offset <= d.at && d.End() <= r.offset + Extent(r)
    ensures rels[i].kind.Align? || (i > 0 && rels[i].kind.Relax? && !rels[i - 1].kind.Align?)
  {
    hide FinalTarget, Alignment, UpperIsZero, FitsClui, FromLe, FitsJal;
  }

  predicate Below(ds: seq<Deletion>, limit: nat) { forall k :: 0 <= k < |ds| ==> ds[k].End() <= limit }

  /** The bytes of relocation `j` are untouched after the first `n` relocations. */
  predicate Untouched(rels: seq<Reloc>, n: nat, j: nat)
    requires j < |rels|
  {
    Owns(rels[j]) && (j >= n || (j + 1 == n && !rels[j].kind.Align?))
  }

  lemma {:induction false} EarlierIsBelow(s: Section, rels: seq<Reloc>, n: nat, j: nat)
    requires WellFormedRelocs(s, rels) && n <= |rels| && j < |rels| && Untouched(rels, n, j)
    ensures Below(Collected(s, rels, n), rels[j].offset)
    decreases n
  {
    hide DeletionAt, WellFormedRelocs, Collected, SumTo;
    if n == 0 {
      CollectedNone(s, rels);
    } else {
      EarlierIsBelow(s, rels, n - 1, j);
      var before := Collected(s, rels, n - 1);
      var gone := CollectedStep(s, rels, n);
      if DeletionAt(s, rels, n - 1, gone).Some? {
        DeletionIsOwned(s, rels, n - 1, gone);
        OwnersApart(s, rels, Owner(rels, n - 1), j);
      }
    }
  }

  lemma {:induction false} OwnersApart(s: Section, rels: seq<Reloc>, i: nat, j: nat)
    requires WellFormedRelocs(s, rels) && i < |rels| && j < |rels|
    ensures i < j && Owns(rels[i]) && Owns(rels[j]) ==> rels[i].offset + Extent(rels[i]) <= rels[j].offset
    ensures Owns(rels[i]) ==> rels[i].offset + Extent(rels[i]) <= |s.bytes|
  {
  }

  lemma {:induction false} AppendKeepsOrder(ds: seq<Deletion>, d: Deletion, size: nat)
    requires Deletions.WellFormed(ds, size) && Below(ds, d.at) && d.count > 0 && d.End() <= size
    ensures Deletions.WellFormed(ds + [d], size)
  {
  }

  /** The deletions of a pass are ascending, non-overlapping and inside the section. */
  lemma {:induction false} CollectedIsWellFormed(s: Section, rels: seq<Reloc>, n: nat)
    requires WellFormedRelocs(s, rels) && n <= |rels|
    ensures Deletions.WellFormed(Collected(s, rels, n), |s.bytes|)
    decreases n
  {
    hide DeletionAt, WellFormedRelocs, Deletions.WellFormed, Below, Extent, Collected, SumTo;
    if n == 0 {
      CollectedNone(s, rels);
      NoneIsWellFormed(|s.bytes|);
    } else {
      CollectedIsWellFormed(s, rels, n - 1);
      var before := Collected(s, rels, n - 1);
      var gone := CollectedStep(s, rels, n);
      if DeletionAt(s, rels, n - 1, gone).Some? {
        DeletionIsOwned(s, rels, n - 1, gone);
        var o := Owner(rels, n - 1);
        EarlierIsBelow(s, rels, n - 1, o);
        OwnersApart(s, rels, o, o);
        var d := DeletionAt(s, rels, n - 1, gone).value;
        BelowMore(before, rels[o].offset, d.at);
        AppendKeepsOrder(before, d, |s.bytes|);
        assert Collected(s, rels, n) == before + [d];
      } else {
        assert Collected(s, rels, n) == before;
      }
    }
  }

  lemma {:induction false} NoneIsWellFormed(size: nat)
    ensures Deletions.WellFormed([], size)
  {
  }

  lemma {:induction false} BelowMore(ds: seq<Deletion>, a: nat, b: nat)
    requires Below(ds, a) && a <= b
    ensures Below(ds, b)
  {
  }

  // ---------------------------------------------------------------- alignment

  /** The deletions after relocation `j` only follow those up to it. */
  lemma {:induction false} CollectedGrows(s: Section, rels: seq<Reloc>, m: nat, n: nat)
    requires m <= n <= |rels|
    ensures Collected(s, rels, m) <= Collected(s, rels, n)
    decreases n
  {
    hide DeletionAt, Collected;
    if m < n {
      CollectedGrows(s, rels, m, n - 1);
      var gone := CollectedStep(s, rels, n);
    }
  }

  /** Deletions made after an alignment sled lie after it. */
  lemma {:induction false} LaterIsAbove(s: Section, rels: seq<Reloc>, j: nat, n: nat, k: nat)
    requires WellFormedRelocs(s, rels) && j < n <= |rels| && Owns(rels[j]) && rels[j].kind.Align?
    requires |Collected(s, rels, j + 1)| <= k < |Collected(s, rels, n)|
    ensures Collected(s, rels, n)[k].at >= rels[j].offset + rels[j].addend
    decreases n
  {
    hide DeletionAt, WellFormedRelocs, Collected;
    var before := Collected(s, rels, n - 1);
    var gone := CollectedStep(s, rels, n);
    if j == n - 1 {
      assert false;
    } else if k < |before| {
      LaterIsAbove(s, rels, j, n - 1, k);
    } else {
      DeletionIsOwned(s, rels, n - 1, gone);
      OwnersApart(s, rels, j, Owner(rels, n - 1));
    }
  }

  /** The bytes deleted before a place fit before it. */
  lemma {:induction false} SumIsBelow(ds: seq<Deletion>, size: nat, k: nat)
    requires Deletions.WellFormed(ds, size) && k <= |ds|
    ensures SumTo(ds, k) <= StartOf(ds, k)
  {
    hide Deletions.WellFormed;
    if k > 0 {
      SumIsBelow(ds, size, k - 1);
      Bounds(ds, size, k - 1);
    }
  }

  /** The place of sled `j` less what was deleted before it: its output address. */
  function Place(s: Section, rels: seq<Reloc>, j: nat): int
    requires j < |rels|
  {
    var before := Collected(s, rels, j);
    s.address + rels[j].offset - SumTo(before, |before|)
  }

  /** What sled `j` loses. */
  function Removed(s: Section, rels: seq<Reloc>, j: nat): nat
    requires j < |rels|
  {
    if rels[j].kind.Align? && rels[j].addend > 0 && Place(s, rels, j) >= 0 then
      var d := AlignDeletion(rels[j], Place(s, rels, j));
      if d.Some? then d.value.count else 0
    else 0
  }

  predicate IsSled(s: Section, rels: seq<Reloc>, j: nat) {
    WellFormedRelocs(s, rels) && j < |rels| && rels[j].kind.Align? && rels[j].addend > 0
  }

  lemma {:induction false} SledDeletion(s: Section, rels: seq<Reloc>, j: nat)
    requires IsSled(s, rels, j)
    ensures s.address <= Place(s, rels, j)
    ensures Collected(s, rels, j + 1)
            == Collected(s, rels, j) + (if Removed(s, rels, j) > 0 then [Deletion(rels[j].offset, Removed(s, rels, j))] else [])
    ensures Removed(s, rels, j) <= rels[j].addend
  {
    hide WellFormedRelocs, Alignment, Below;
    var before := Collected(s, rels, j);
    CollectedIsWellFormed(s, rels, j);
    EarlierIsBelow(s, rels, j, j);
    SumIsBelow(before, |s.bytes|, |before|);
    if |before| > 0 {
      BelowAt(before, rels[j].offset, |before| - 1);
    }
  }

  lemma {:induction false} BelowAt(ds: seq<Deletion>, limit: nat, k: nat)
    requires Below(ds, limit) && k < |ds|
    ensures ds[k].End() <= limit
  {
  }

  /** The deletions that shift an offset `t` bytes into sled `j`: those before it, and from its first byte on its own. */
  lemma {:induction false} SledPartition(s: Section, rels: seq<Reloc>, j: nat, t: nat)
    requires IsSled(s, rels, j) && (t == 0 || Removed(s, rels, j) <= t <= rels[j].addend)
    ensures Partition(Collected(s, rels, |rels|), rels[j].offset + t, 0)
            == if t == 0 then |Collected(s, rels, j)| else |Collected(s, rels, j + 1)|
  {
    hide WellFormedRelocs, DeletionAt, Partition, Place, Removed, Deletions.WellFormed, Below, Collected;
    var ds, before, upto := Collected(s, rels, |rels|), Collected(s, rels, j), Collected(s, rels, j + 1);
    CollectedIsWellFormed(s, rels, |rels|);
    CollectedGrows(s, rels, j + 1, |rels|);
    SledDeletion(s, rels, j);
    var o := rels[j].offset;
    EarlierIsBelow(s, rels, j, j);
    if |before| > 0 {
      BelowAt(before, o, |before| - 1);
      Apart(ds, |s.bytes|, |before| - 1, |before| - 1);
    }
    if |upto| < |ds| {
      LaterIsAbove(s, rels, j, |rels|, |upto|);
    }
    PartitionIs(ds, |s.bytes|, o + t, 0, if t == 0 then |before| else |upto|);
  }

  /** Where offsets `t` bytes into a sled go: `t` at its start, or anything from the removed bytes to its end. */
  lemma {:induction false} SledOffsets(s: Section, rels: seq<Reloc>, j: nat, t: nat)
    requires IsSled(s, rels, j) && (t == 0 || Removed(s, rels, j) <= t <= rels[j].addend)
    ensures var ds := Collected(s, rels, |rels|);
            s.address + InputToOutput(ds, rels[j].offset + t)
            == Place(s, rels, j) + t - (if t == 0 then 0 else Removed(s, rels, j))
  {
    hide IsSled, DeletionAt, Partition, Place, Removed, Collected, SumTo;
    SledIs(s, rels, j);
    var ds, before, upto := Collected(s, rels, |rels|), Collected(s, rels, j), Collected(s, rels, j + 1);
    SledPartition(s, rels, j, t);
    CollectedGrows(s, rels, j + 1, |rels|);
    CollectedGrows(s, rels, j, |rels|);
    SledDeletion(s, rels, j);
    SumOfPrefix(ds, before);
    SumOfPrefix(ds, upto);
    if Removed(s, rels, j) > 0 {
      SumMore(before, Deletion(rels[j].offset, Removed(s, rels, j)));
    } else {
      assert upto == before;
    }
    PlaceIs(s, rels, j);
  }

  lemma {:induction false} SledIs(s: Section, rels: seq<Reloc>, j: nat)
    requires IsSled(s, rels, j)
    ensures j < |rels| && rels[j].addend > 0
  {
  }

  lemma {:induction false} PlaceIs(s: Section, rels: seq<Reloc>, j: nat)
    requires j < |rels|
    ensures Place(s, rels, j) == s.address + rels[j].offset - SumTo(Collected(s, rels, j), |Collected(s, rels, j)|)
  {
  }

  lemma {:induction false} SumOfPrefix(ds: seq<Deletion>, before: seq<Deletion>)
    requires before <= ds
    ensures SumTo(ds, |before|) == SumTo(before, |before|)
  {
    assert ds == before + ds[|before|..];
    SumPrefix(before, ds[|before|..], |before|);
  }

  lemma {:induction false} ProductGrows(k: int, a: nat)
    ensures k >= 1 ==> k * a >= a
    ensures k <= -1 ==> k * a + a <= 0
    decreases if k >= 0 then k else -k
  {
    if k > 1 {
      ProductGrows(k - 1, a);
    } else if k < -1 {
      ProductGrows(k + 1, a);
    }
  }

  lemma {:induction false} QuotientIs(x: nat, a: nat, q: nat, r: nat)
    requires a > 0 && r < a && x == q * a + r
    ensures x % a == r
  {
    ProductGrows(q - x / a, a);
    assert (q - x / a) * a == q * a - x / a * a;
  }

  /** Two multiples of `a` differ by none or at least `a`. */
  lemma {:induction false} MultiplesApart(x: nat, y: nat, a: nat)
    requires a > 0 && x % a == 0 && y % a == 0 && x < y
    ensures x + a <= y
  {
    ProductGrows(y / a - x / a, a);
    assert (y / a - x / a) * a == y / a * a - x / a * a;
  }

  lemma {:induction false} NextMultipleIs(p: nat, a: nat)
    requires a > 0
    ensures NextMultiple(p, a) % a == 0
  {
    if p % a != 0 {
      assert p + (a - p % a) == (p / a + 1) * a + 0;
      QuotientIs(p + (a - p % a), a, p / a + 1, 0);
    }
  }

  /** The NOP bytes needed to bring the sled's output address to its alignment. */
  function Gap(s: Section, rels: seq<Reloc>, j: nat): nat
    requires j < |rels| && rels[j].addend > 0 && Place(s, rels, j) >= 0
  {
    NextMultiple(Place(s, rels, j), Alignment(rels[j].addend)) - Place(s, rels, j)
  }

  lemma {:induction false} EndOfSled(s: Section, rels: seq<Reloc>, j: nat)
    requires IsSled(s, rels, j)
    ensures Place(s, rels, j) >= 0
    ensures var p := Place(s, rels, j);
            var landed := s.address + InputToOutput(Collected(s, rels, |rels|), rels[j].offset + rels[j].addend);
            && landed == p + rels[j].addend - Removed(s, rels, j)
            && (Gap(s, rels, j) <= rels[j].addend ==> landed == NextMultiple(p, Alignment(rels[j].addend)))
            && (Gap(s, rels, j) > rels[j].addend ==> landed == p + rels[j].addend)
  {
    hide WellFormedRelocs, Collected, Alignment, InputToOutput, NextMultiple;
    SledDeletion(s, rels, j);
    SledOffsets(s, rels, j, rels[j].addend);
  }

  /** The output address of the code after sled `j`. */
  function Landing(s: Section, rels: seq<Reloc>, j: nat): int
    requires j < |rels| && rels[j].offset + rels[j].addend >= 0
  {
    s.address + InputToOutput(Collected(s, rels, |rels|), rels[j].offset + rels[j].addend)
  }

  /** The code after a sled lands on a multiple of the alignment computed from its length if and only if the sled is
      long enough for the gap at its output address. */
  lemma {:induction false} CodeIsAligned(s: Section, rels: seq<Reloc>, j: nat)
    requires IsSled(s, rels, j)
    ensures Place(s, rels, j) >= 0 && Landing(s, rels, j) >= 0
    ensures Landing(s, rels, j) % Alignment(rels[j].addend) == 0 <==> Gap(s, rels, j) <= rels[j].addend
  {
    hide WellFormedRelocs, Collected, Alignment, InputToOutput, Removed, Place;
    SledIs(s, rels, j);
    EndOfSled(s, rels, j);
    var p, a := Place(s, rels, j), Alignment(rels[j].addend);
    NextMultipleIs(p, a);
    if Gap(s, rels, j) > rels[j].addend && (p + rels[j].addend) % a == 0 {
      MultiplesApart(p + rels[j].addend, NextMultiple(p, a), a);
    }
  }

  /** A sled whose length is its computed alignment is always long enough for that alignment. */
  lemma {:induction false} PowerOfTwoIsEnough(s: Section, rels: seq<Reloc>, j: nat)
    requires IsSled(s, rels, j) && Alignment(rels[j].addend) == rels[j].addend
    ensures Place(s, rels, j) >= 0 && Gap(s, rels, j) <= rels[j].addend
  {
    hide Place, Alignment, WellFormedRelocs;
    SledDeletion(s, rels, j);
  }

  lemma {:induction false} DivisorOfSum(x: nat, y: nat, g: nat)
    requires g > 0 && x % g == 0 && y % g == 0 && x <= y
    ensures (y - x) % g == 0
  {
    ProductGrows(y / g - x / g, g);
    assert y - x == (y / g - x / g) * g + 0;
    if y / g >= x / g {
      QuotientIs(y - x, g, y / g - x / g, 0);
    }
  }

  lemma {:induction false} DivisorOfMultiple(x: nat, a: nat, g: nat)
    requires a > 0 && g > 0 && x % a == 0 && a % g == 0
    ensures x % g == 0
  {
    assert x == x / a * a && a == a / g * g;
    assert x / a * (a / g * g) == x / a * (a / g) * g;
    QuotientIs(x, g, x / a * (a / g), 0);
  }

  /** A sled that is short of its alignment by a divisor of both the alignment and the place is long enough: with
      two-byte instructions the assembler emits alignment less two. */
  lemma {:induction false} ShortSledIsEnough(s: Section, rels: seq<Reloc>, j: nat)
    requires IsSled(s, rels, j) && Alignment(rels[j].addend) > rels[j].addend
    requires var g := Alignment(rels[j].addend) - rels[j].addend;
             Alignment(rels[j].addend) % g == 0 && Place(s, rels, j) >= 0 && Place(s, rels, j) % g == 0
    ensures Gap(s, rels, j) <= rels[j].addend
  {
    hide Place, Alignment, WellFormedRelocs, IsSled;
    SledIs(s, rels, j);
    var p, a := Place(s, rels, j), Alignment(rels[j].addend);
    var g := a - rels[j].addend;
    NextMultipleIs(p, a);
    DivisorOfMultiple(NextMultiple(p, a), a, g);
    DivisorOfSum(p, NextMultiple(p, a), g);
    if Gap(s, rels, j) > rels[j].addend {
      assert a % g == 0 && Gap(s, rels, j) % g == 0 && Gap(s, rels, j) < a;
      MultiplesApart(Gap(s, rels, j), a, g);
    }
  }

  // ---------------------------------------------------------------- the requested alignment

  /** Sled `j` was emitted for an alignment of `Pow2(k)`: the assembler leaves out one smallest instruction of `u` bytes. */
  predicate EmittedFor(s: Section, rels: seq<Reloc>, j: nat, k: nat, u: nat) {
    IsSled(s, rels, j) && (u == 2 || u == 4) && rels[j].addend == Pow2(k) - u
  }

  lemma {:induction false} SmallPowers()
    ensures Pow2(0) == 1 && Pow2(1) == 2 && Pow2(2) == 4 && Pow2(3) == 8 && Pow2(4) == 16
  {
  }

  /** The computed alignment is the requested one, but for a request of twice the smallest instruction. */
  lemma {:induction false} ComputedAlignment(s: Section, rels: seq<Reloc>, j: nat, k: nat, u: nat)
    requires EmittedFor(s, rels, j, k, u)
    ensures Pow2(k) % u == 0 && Pow2(k) >= 2 * u
    ensures Alignment(rels[j].addend) == if Pow2(k) == 2 * u then u else Pow2(k)
  {
    hide WellFormedRelocs, NextPowerOfTwo;
    SmallPowers();
    var n := rels[j].addend;
    if k >= 4 {
      PowersGrow(4, k);
      PowersOfTwoDivide(k);
      NextPowerIs(n, k);
    } else if k == 3 {
      if u == 2 { NextPowerIs(n, 3); } else { NextPowerIs(n, 2); }
    } else if k == 2 {
      NextPowerIs(n, 1);
    }
  }

  lemma {:induction false} PowersOfTwoDivide(k: nat)
    requires k >= 2
    ensures Pow2(k) % 2 == 0 && Pow2(k) % 4 == 0
  {
    assert Pow2(k) == 2 * Pow2(k - 1) == 4 * Pow2(k - 2);
  }

  /** For requests above twice the smallest instruction the code is aligned as requested if and only if the sled is long
      enough for its gap. */
  lemma {:induction false} LargeRequest(s: Section, rels: seq<Reloc>, j: nat, k: nat, u: nat)
    requires EmittedFor(s, rels, j, k, u) && Pow2(k) > 2 * u
    ensures Place(s, rels, j) >= 0 && Landing(s, rels, j) >= 0
    ensures Landing(s, rels, j) % Pow2(k) == 0 <==> Gap(s, rels, j) <= rels[j].addend
  {
    hide WellFormedRelocs, Alignment, Landing, Place;
    SledIs(s, rels, j);
    ComputedAlignment(s, rels, j, k, u);
    CodeIsAligned(s, rels, j);
  }

  /** The exact condition when the code before the sled is a whole number of smallest instructions: the request is met
      unless it is for twice the smallest instruction, when it is met only by a place that is aligned already. */
  lemma {:induction false} RequestIsMet(s: Section, rels: seq<Reloc>, j: nat, k: nat, u: nat)
    requires EmittedFor(s, rels, j, k, u) && Place(s, rels, j) % u == 0
    ensures Place(s, rels, j) >= 0 && Landing(s, rels, j) >= 0
    ensures Landing(s, rels, j) % Pow2(k) == 0 <==> Pow2(k) > 2 * u || Place(s, rels, j) % Pow2(k) == 0
    ensures Pow2(k) == 2 * u ==> Landing(s, rels, j) == Place(s, rels, j)
  {
    hide WellFormedRelocs, Alignment, Place, InputToOutput, Collected, Removed;
    SledIs(s, rels, j);
    ComputedAlignment(s, rels, j, k, u);
    EndOfSled(s, rels, j);
    if Pow2(k) > 2 * u {
      ShortSledIsEnough(s, rels, j);
      LargeRequest(s, rels, j, k, u);
    }
  }

  /** A request for four-byte alignment where instructions have two bytes: the sled is dropped at a place that is not
      aligned. */
  lemma {:induction false} SmallRequestIsNotMet()
    ensures var s := Section(0, seq(8, _ => 0), _ => None);
            var rels := [Reloc(Align, 2, 2, None)];
            && EmittedFor(s, rels, 0, 2, 2) && Place(s, rels, 0) == 2
            && Landing(s, rels, 0) == 2 && Landing(s, rels, 0) % Pow2(2) != 0
  {
    var s := Section(0, seq(8, _ => 0), _ => None);
    var rels := [Reloc(Align, 2, 2, None)];
    SmallPowers();
    assert Place(s, rels, 0) == 2 by { CollectedNone(s, rels); SumNone(); }
    RequestIsMet(s, rels, 0, 2, 2);
  }

  /** Four-byte NOPs after one compressed instruction: the sled is too short and the code lands at 14 instead of 16. */
  lemma {:induction false} MixedSizesAreNotAligned()
    ensures var s := Section(0, seq(16, _ => 0), _ => None);
            var rels := [Reloc(Align, 2, 12, None)];
            && EmittedFor(s, rels, 0, 4, 4) && Place(s, rels, 0) == 2 && Gap(s, rels, 0) == 14
            && Landing(s, rels, 0) == 14 && Landing(s, rels, 0) % Pow2(4) != 0
  {
    var s := Section(0, seq(16, _ => 0), _ => None);
    var rels := [Reloc(Align, 2, 12, None)];
    SmallPowers();
    assert Place(s, rels, 0) == 2 by { CollectedNone(s, rels); SumNone(); }
    ComputedAlignment(s, rels, 0, 4, 4);
    EndOfSled(s, rels, 0);
  }

  // ---------------------------------------------------------------- NOPs

  /** The NOPs that fill `len` bytes: four-byte ones and, for a remainder of two, a compressed one. */
  function Nops(len: nat): (r: seq<Byte>)
    ensures |r| == len - len % 2
  {
    if len >= 4 then [0x13, 0, 0, 0] + Nops(len - 4) else if len >= 2 then [1, 0] else []
  }

  lemma {:induction false} NopsSnoc(n: nat, len: nat)
    requires n % 4 == 0 && n + 4 <= len
    ensures Nops(n + 4) == Nops(n) + [0x13, 0, 0, 0]
    decreases n
  {
    if n >= 4 {
      NopsSnoc(n - 4, len);
    } else {
      assert n == 0;
      assert Nops(4) == [0x13, 0, 0, 0] + Nops(0);
    }
  }

  lemma {:induction false} NopsEnd(n: nat, len: nat)
    requires n % 4 == 0 && n <= len < n + 4
    ensures Nops(len) == Nops(n) + (if n + 2 <= len then [1, 0] else [])
    decreases n
  {
    if n >= 4 {
      NopsEnd(n - 4, len - 4);
    }
  }

  lemma {:induction false} NoNops()
    ensures Nops(0) == []
  {
  }

  /** `fill_nop_padding`. */
  method FillNopPadding(buf: array<Byte>, offset: nat, len: nat)
    requires offset + len <= buf.Length
    modifies buf
    ensures buf[..] == Padded(old(buf[..]), offset, len)
  {
    hide Nops, Filled, Padded;
    ghost var was := buf[..];
    var i := 0;
    FilledNone(was, offset);
    while i + 4 <= len
      invariant i % 4 == 0 && i <= len
      invariant Filled(buf[..], was, offset, i)
    {
      PutNop(buf, was, offset, i);
      i := i + 4;
    }
    PutRest(buf, was, offset, i, len);
  }

  /** One four-byte NOP. */
  method PutNop(buf: array<Byte>, ghost was: seq<Byte>, offset: nat, i: nat)
    requires Filled(buf[..], was, offset, i) && offset + i + 4 <= buf.Length && i % 4 == 0
    modifies buf
    ensures Filled(buf[..], was, offset, i + 4)
  {
    hide Nops;
    NopsSnoc(i, i + 4);
    ghost var before := buf[..];
    CopyInto(buf, offset + i, [0x13, 0, 0, 0]);
    FilledMore(before, buf[..], was, offset, i, [0x13, 0, 0, 0]);
  }

  /** The compressed NOP, if there is room for one. */
  method PutRest(buf: array<Byte>, ghost was: seq<Byte>, offset: nat, i: nat, len: nat)
    requires Filled(buf[..], was, offset, i) && offset + len <= buf.Length && i % 4 == 0 && i <= len < i + 4
    modifies buf
    ensures offset + len <= |was| && buf[..] == Padded(was, offset, len)
  {
    hide Nops, Padded, Filled;
    ghost var before := buf[..];
    FilledFits(before, was, offset, i);
    if i + 2 <= len {
      CopyInto(buf, offset + i, [1, 0]);
      RestWithNop(before, buf[..], was, offset, i, len);
    } else {
      RestWithoutNop(before, was, offset, i, len);
    }
  }

  lemma {:induction false} FilledFits(buf: seq<Byte>, was: seq<Byte>, offset: nat, i: nat)
    requires Filled(buf, was, offset, i)
    ensures |buf| == |was|
  {
  }

  lemma {:induction false} RestWithNop(before: seq<Byte>, after: seq<Byte>, was: seq<Byte>, offset: nat, i: nat, len: nat)
    requires Filled(before, was, offset, i) && i % 4 == 0 && i + 2 <= len < i + 4 && offset + len <= |was| == |after|
    requires after[..offset + i + 2] == before[..offset + i] + [1, 0]
    requires after[offset + i + 2..] == before[offset + i + 2..]
    ensures after == Padded(was, offset, len)
  {
    hide Nops, Padded;
    NopsEnd(i, len);
    FilledEnd(before, after, was, offset, i, i + 2, Nops(len));
    PaddedIs(after, was, offset, len, i + 2);
  }

  lemma {:induction false} RestWithoutNop(buf: seq<Byte>, was: seq<Byte>, offset: nat, i: nat, len: nat)
    requires Filled(buf, was, offset, i) && i % 4 == 0 && i <= len < i + 2 && offset + len <= |was|
    ensures buf == Padded(was, offset, len)
  {
    hide Nops, Padded;
    NopsEnd(i, len);
    FilledEnd(buf, buf, was, offset, i, i, Nops(len));
    PaddedIs(buf, was, offset, len, i);
  }

  /** `was` with NOPs over the even part of `len` bytes from `offset`. */
  function Padded(was: seq<Byte>, offset: nat, len: nat): seq<Byte>
    requires offset + len <= |was|
  {
    was[..offset] + Nops(len) + was[offset + len - len % 2..]
  }

  lemma {:induction false} PaddedIs(buf: seq<Byte>, was: seq<Byte>, offset: nat, len: nat, m: nat)
    requires offset + len <= |was| && m <= len < m + 2 && m % 2 == 0
    requires buf == was[..offset] + Nops(len) + was[offset + m..]
    ensures buf == Padded(was, offset, len)
  {
    hide Nops;
    assert m == len - len % 2;
  }

  lemma {:induction false} FilledNone(was: seq<Byte>, offset: nat)
    requires offset <= |was|
    ensures Filled(was, was, offset, 0)
  {
    NoNops();
    assert was[..offset] + [] == was[..offset];
  }

  /** NOPs from `offset` to `i`, the old bytes before and after. */
  predicate Filled(buf: seq<Byte>, was: seq<Byte>, offset: nat, i: nat) {
    && offset + i <= |buf| == |was|
    && buf[..offset + i] == was[..offset] + Nops(i) && buf[offset + i..] == was[offset + i..]
  }

  lemma {:induction false} FilledMore(before: seq<Byte>, after: seq<Byte>, was: seq<Byte>, offset: nat, i: nat, w: seq<Byte>)
    requires Filled(before, was, offset, i) && offset + i + |w| <= |was| == |after| && Nops(i + |w|) == Nops(i) + w
    requires after[..offset + i + |w|] == before[..offset + i] + w
    requires after[offset + i + |w|..] == before[offset + i + |w|..]
    ensures Filled(after, was, offset, i + |w|)
  {
    hide Nops;
    TailOfTail(before, was, offset + i, |w|);
  }

  lemma {:induction false} FilledEnd(before: seq<Byte>, after: seq<Byte>, was: seq<Byte>, offset: nat, i: nat, m: nat, nops: seq<Byte>)
    requires Filled(before, was, offset, i) && i <= m && offset + m <= |was| == |after|
    requires (m == i && after == before && nops == Nops(i))
             || (m == i + 2 && nops == Nops(i) + [1, 0] && after[..offset + m] == before[..offset + i] + [1, 0]
                 && after[offset + m..] == before[offset + m..])
    ensures after == was[..offset] + nops + was[offset + m..]
  {
    hide Nops;
    if m > i {
      TailOfTail(before, was, offset + i, 2);
    }
    Assemble(after, was[..offset] + nops, was[offset + m..], offset + m);
  }

  lemma {:induction false} Assemble(whole: seq<Byte>, head: seq<Byte>, tail: seq<Byte>, m: nat)
    requires m <= |whole| && whole[..m] == head && whole[m..] == tail
    ensures whole == head + tail
  {
    assert whole == whole[..m] + whole[m..];
  }

  lemma {:induction false} TailOfTail(a: seq<Byte>, b: seq<Byte>, at: nat, n: nat)
    requires at + n <= |a| == |b| && a[at..] == b[at..]
    ensures a[at + n..] == b[at + n..]
  {
    assert a[at + n..] == a[at..][n..];
  }

  /** `delta_at`. */
  function DeltaAt(ds: seq<Deletion>, at: nat): nat {
    if ds == [] then 0 else if ds[0].at == at then ds[0].count else DeltaAt(ds[1..], at)
  }

  /** `padding_bytes` of the writer. */
  function PaddingBytes(s: Section, rels: seq<Reloc>, j: nat): nat
    requires j < |rels|
  {
    var d := DeltaAt(Collected(s, rels, |rels|), rels[j].offset);
    if rels[j].addend > d then rels[j].addend - d else 0
  }

  lemma {:induction false} DeltaAtIs(ds: seq<Deletion>, size: nat, k: nat)
    requires Deletions.WellFormed(ds, size) && k < |ds|
    ensures DeltaAt(ds, ds[k].at) == ds[k].count
    decreases |ds|
  {
    if k > 0 {
      assert ds[0].End() <= ds[k].at;
      DeltaAtIs(ds[1..], size, k - 1);
    }
  }

  lemma {:induction false} NoDeltaAt(ds: seq<Deletion>, at: nat)
    requires forall k :: 0 <= k < |ds| ==> ds[k].at != at
    ensures DeltaAt(ds, at) == 0
    decreases |ds|
  {
    if ds != [] {
      NoDeltaAt(ds[1..], at);
    }
  }

  /** The writer pads sled `j` with as many bytes as survive of it. */
  lemma {:induction false} PaddingIsKept(s: Section, rels: seq<Reloc>, j: nat)
    requires IsSled(s, rels, j)
    ensures PaddingBytes(s, rels, j) == rels[j].addend - Removed(s, rels, j)
  {
    hide WellFormedRelocs, Collected, Removed, DeltaAt, Deletions.WellFormed, Below;
    var ds, before, upto := Collected(s, rels, |rels|), Collected(s, rels, j), Collected(s, rels, j + 1);
    CollectedIsWellFormed(s, rels, |rels|);
    CollectedGrows(s, rels, j + 1, |rels|);
    SledDeletion(s, rels, j);
    var o := rels[j].offset;
    if Removed(s, rels, j) > 0 {
      assert ds[|before|] == upto[|before|];
      DeltaAtIs(ds, |s.bytes|, |before|);
    } else {
      EarlierIsBelow(s, rels, j, j);
      forall k | 0 <= k < |ds| ensures ds[k].at != o {
        Apart(ds, |s.bytes|, k, k);
        if k < |before| {
          BelowAt(before, o, k);
        } else {
          LaterIsAbove(s, rels, j, |rels|, k);
        }
      }
      NoDeltaAt(ds, o);
    }
  }

  /** The kept bytes of a sled land at the start of its output range, in order, and there are as many as the writer pads;
      the NOPs fill the range completely if and only if its length is even. */
  lemma {:induction false} PaddingCoversKeptBytes(s: Section, rels: seq<Reloc>, j: nat, t: nat)
    requires IsSled(s, rels, j) && Removed(s, rels, j) <= t <= rels[j].addend
    ensures var ds := Collected(s, rels, |rels|);
            && InputToOutput(ds, rels[j].offset + t) == InputToOutput(ds, rels[j].offset) + (t - Removed(s, rels, j))
            && PaddingBytes(s, rels, j) == rels[j].addend - Removed(s, rels, j)
            && (|Nops(PaddingBytes(s, rels, j))| == PaddingBytes(s, rels, j) <==> PaddingBytes(s, rels, j) % 2 == 0)
  {
    hide IsSled, Collected, Removed, PaddingBytes, InputToOutput, Nops;
    SledIs(s, rels, j);
    PaddingIsKept(s, rels, j);
    SledOffsets(s, rels, j, 0);
    SledOffsets(s, rels, j, t);
  }

  /** Neither end of a sled is strictly inside a deletion, and its removed bytes are deleted. */
  lemma {:induction false} SledEnds(s: Section, rels: seq<Reloc>, j: nat, i: nat)
    requires IsSled(s, rels, j)
    ensures var ds := Collected(s, rels, |rels|);
            && !StrictlyInside(ds, rels[j].offset) && !StrictlyInside(ds, rels[j].offset + rels[j].addend)
            && (rels[j].offset <= i < rels[j].offset + Removed(s, rels, j) ==> Deleted(ds, i))
  {
    hide WellFormedRelocs, Collected, Removed, Deletions.WellFormed, Below;
    var ds, before, upto := Collected(s, rels, |rels|), Collected(s, rels, j), Collected(s, rels, j + 1);
    CollectedIsWellFormed(s, rels, |rels|);
    CollectedGrows(s, rels, j + 1, |rels|);
    SledDeletion(s, rels, j);
    EarlierIsBelow(s, rels, j, j);
    var o := rels[j].offset;
    forall k | 0 <= k < |ds| ensures !(ds[k].at < o < ds[k].End()) && !(ds[k].at < o + rels[j].addend < ds[k].End()) {
      if k < |before| {
        BelowAt(before, o, k);
      } else if k < |upto| {
        assert ds[k] == upto[k] == Deletion(o, Removed(s, rels, j));
      } else {
        LaterIsAbove(s, rels, j, |rels|, k);
      }
    }
    if Removed(s, rels, j) > 0 {
      assert ds[|before|] == upto[|before|] == Deletion(o, Removed(s, rels, j));
    }
  }

  /** The padded range holds kept bytes of its own sled only: a surviving byte is translated into it if and only if it is
      one of them. */
  lemma {:induction false} PaddingHoldsOnlyTheSled(s: Section, rels: seq<Reloc>, j: nat, i: nat)
    requires IsSled(s, rels, j) && i < |s.bytes| && !Deleted(Collected(s, rels, |rels|), i)
    ensures var ds := Collected(s, rels, |rels|);
            var start := InputToOutput(ds, rels[j].offset);
            start <= InputToOutput(ds, i) < start + PaddingBytes(s, rels, j)
            <==> rels[j].offset + Removed(s, rels, j) <= i < rels[j].offset + rels[j].addend
  {
    hide IsSled, Collected, Removed, PaddingBytes, InputToOutput, Nops, Deleted, StrictlyInside, Deletions.WellFormed;
    SledIs(s, rels, j);
    var ds := Collected(s, rels, |rels|);
    SledIsWellFormed(s, rels, j);
    var o, size := rels[j].offset, |s.bytes|;
    var end := o + rels[j].addend;
    SledEnds(s, rels, j, i);
    NotInside(ds, i);
    PaddingCoversKeptBytes(s, rels, j, rels[j].addend);
    if i < o {
      TranslationKeepsOrder(ds, size, i, o);
    } else if i >= end {
      TranslationKeepsOrder(ds, size, end, i);
    } else {
      PaddingCoversKeptBytes(s, rels, j, i - o);
    }
  }

  lemma {:induction false} SledIsWellFormed(s: Section, rels: seq<Reloc>, j: nat)
    requires IsSled(s, rels, j)
    ensures Deletions.WellFormed(Collected(s, rels, |rels|), |s.bytes|)
    ensures Removed(s, rels, j) <= rels[j].addend
  {
    CollectedIsWellFormed(s, rels, |rels|);
    SledDeletion(s, rels, j);
  }
}
