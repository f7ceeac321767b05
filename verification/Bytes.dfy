/** Bytes, little-endian integers, and fixed-width patches of byte strings. */
module Bytes {

  type Byte = b: int | 0 <= b < 256

  datatype Option<+T> = None | Some(value: T) {
    predicate IsFailure() { None? }
    function PropagateFailure<U>(): Option<U> requires None? { None }
    function Extract(): T requires Some? { value }
  }

  function Pow256(width: nat): (p: nat)
    ensures p > 0
  {
    if width == 0 then 1 else 256 * Pow256(width - 1)
  }

  /** `to_le_bytes` of `n` cast to an unsigned integer of `width` bytes. */
  function ToLe(n: nat, width: nat): (s: seq<Byte>)
    ensures |s| == width
  {
    if width == 0 then [] else [n % 256] + ToLe(n / 256, width - 1)
  }

  /** `from_le_bytes`. */
  function FromLe(s: seq<Byte>): nat {
    if s == [] then 0 else s[0] + 256 * FromLe(s[1..])
  }

  lemma {:induction false} FromToLe(n: nat, width: nat)
    requires n < Pow256(width)
    ensures FromLe(ToLe(n, width)) == n
  {
    if width > 0 {
      FromToLe(n / 256, width - 1);
      assert ToLe(n, width)[1..] == ToLe(n / 256, width - 1);
    }
  }

  lemma {:induction false} ToFromLe(s: seq<Byte>)
    ensures FromLe(s) < Pow256(|s|)
    ensures ToLe(FromLe(s), |s|) == s
  {
    if s != [] {
      ToFromLe(s[1..]);
      LowByte(s[0], FromLe(s[1..]));
      assert s == [s[0]] + s[1..];
    }
  }

  lemma {:induction false} LowByte(b: Byte, k: nat)
    ensures (b + 256 * k) % 256 == b && (b + 256 * k) / 256 == k
  {
  }

  /** The bounds of the widths that file formats use. */
  lemma {:induction false} PowerBounds()
    ensures Pow256(1) == 0x100 && Pow256(2) == 0x1_0000 && Pow256(4) == 0x1_0000_0000
    ensures Pow256(8) == 0x1_0000_0000_0000_0000
    ensures Pow256(16) == 0x1_0000_0000_0000_0000_0000_0000_0000_0000
  {
  }

  lemma {:induction false} FromToLe32(n: nat)
    requires n < 0x1_0000_0000
    ensures FromLe(ToLe(n, 4)) == n
  {
    PowerBounds();
    FromToLe(n, 4);
  }

  lemma {:induction false} FromToLe64(n: nat)
    requires n < 0x1_0000_0000_0000_0000
    ensures FromLe(ToLe(n, 8)) == n
  {
    PowerBounds();
    FromToLe(n, 8);
  }

  /** `copy_from_slice` of `bytes` over `s[at..]`. */
  function Patch(s: seq<Byte>, at: nat, bytes: seq<Byte>): (r: seq<Byte>)
    requires at + |bytes| <= |s|
    ensures |r| == |s|
    ensures Holds(r, at, bytes)
  {
    s[..at] + bytes + s[at + |bytes|..]
  }

  /** The window of `s` that starts at `at` holds exactly `w`. */
  predicate Holds<T(==)>(s: seq<T>, at: int, w: seq<T>) {
    0 <= at && at + |w| <= |s| && forall i :: 0 <= i < |w| ==> w[i] == s[at + i]
  }

  lemma {:induction false} HoldsFits<T>(s: seq<T>, at: int, w: seq<T>)
    requires Holds(s, at, w)
    ensures 0 <= at && at + |w| <= |s|
  {
  }

  /** What is held is the slice. */
  lemma {:induction false} HoldsIsSlice<T>(s: seq<T>, at: int, w: seq<T>)
    requires Holds(s, at, w)
    ensures s[at..at + |w|] == w
  {
  }

  lemma {:induction false} WholeIsHeld<T>(b: seq<T>)
    ensures Holds(b, 0, b)
  {
  }

  /** Adjacent windows join. */
  lemma {:induction false} HoldsJoin<T>(s: seq<T>, at: int, a: seq<T>, b: seq<T>)
    requires Holds(s, at, a) && Holds(s, at + |a|, b)
    ensures Holds(s, at, a + b)
  {
    forall i | 0 <= i < |a + b|
      ensures (a + b)[i] == s[at + i]
    {
      if i >= |a| { assert b[i - |a|] == s[at + |a| + (i - |a|)]; }
    }
  }

  lemma {:induction false} HoldsInTail<T>(head: seq<T>, tail: seq<T>, at: int, w: seq<T>)
    requires Holds(tail, at, w)
    ensures Holds(head + tail, |head| + at, w)
  {
  }

  lemma {:induction false} HoldsInHead<T>(head: seq<T>, tail: seq<T>, at: int, w: seq<T>)
    requires Holds(head, at, w)
    ensures Holds(head + tail, at, w)
  {
  }

  /** A window of a window. */
  lemma {:induction false} HoldsInSlice<T>(s: seq<T>, lo: nat, hi: nat, p: nat, len: nat)
    requires lo <= p && p + len <= hi <= |s|
    ensures Holds(s[lo..hi], p - lo, s[p..p + len])
  {
  }

  /** A part of a held window is held too. */
  lemma {:induction false} HoldsPart<T>(s: seq<T>, at: int, w: seq<T>, a: nat, b: nat)
    requires Holds(s, at, w) && a <= b <= |w|
    ensures Holds(s, at + a, w[a..b])
  {
  }

  lemma {:induction false} SliceOfSlice<T>(s: seq<T>, lo: nat, hi: nat, a: nat, b: nat)
    requires lo <= hi <= |s| && a <= b <= hi - lo
    ensures s[lo..hi][a..b] == s[lo + a..lo + b]
  {
    var w := s[lo..hi][a..b];
    assert forall i :: 0 <= i < b - a ==> w[i] == s[lo + a..lo + b][i];
  }

  /** Held windows survive a patch that they do not meet. */
  lemma {:induction false} HoldsAfterPatch(s: seq<Byte>, at: int, w: seq<Byte>, where: nat, bytes: seq<Byte>)
    requires Holds(s, at, w)
    requires where + |bytes| <= |s|
    requires at + |w| <= where || where + |bytes| <= at || w == []
    ensures Holds(Patch(s, where, bytes), at, w)
  {
  }

  // ---------------------------------------------------------------- patches of concatenations and slices

  lemma {:induction false} PatchInHead(head: seq<Byte>, tail: seq<Byte>, at: nat, bytes: seq<Byte>)
    requires at + |bytes| <= |head|
    ensures Patch(head + tail, at, bytes) == Patch(head, at, bytes) + tail
  {
  }

  lemma {:induction false} PatchInTail(head: seq<Byte>, tail: seq<Byte>, at: nat, bytes: seq<Byte>)
    requires at + |bytes| <= |tail|
    ensures Patch(head + tail, |head| + at, bytes) == head + Patch(tail, at, bytes)
  {
  }

  lemma {:induction false} SliceBesidePatch(s: seq<Byte>, at: nat, bytes: seq<Byte>, lo: nat, hi: nat)
    requires at + |bytes| <= |s| && lo <= hi <= |s|
    requires hi <= at || at + |bytes| <= lo
    ensures Patch(s, at, bytes)[lo..hi] == s[lo..hi]
  {
  }

  lemma {:induction false} SliceAroundPatch(s: seq<Byte>, at: nat, bytes: seq<Byte>, lo: nat, hi: nat)
    requires lo <= at && at + |bytes| <= hi <= |s|
    ensures Patch(s, at, bytes)[lo..hi] == Patch(s[lo..hi], at - lo, bytes)
  {
  }
}
