/** Tables of 32-bit little-endian words, and powers of two. */
module Words {
  import opened Bytes

  function ToBytes(words: seq<nat>): (s: seq<Byte>)
    ensures |s| == 4 * |words|
  {
    if words == [] then [] else ToLe(words[0], 4) + ToBytes(words[1..])
  }

  function WordAt(s: seq<Byte>, i: nat): nat
    requires 4 * i + 4 <= |s|
  {
    FromLe(s[4 * i..4 * i + 4])
  }

  lemma {:induction false} WordReadsBack(words: seq<nat>, i: nat)
    requires i < |words| && words[i] < 0x1_0000_0000
    ensures WordAt(ToBytes(words), i) == words[i]
    decreases i
  {
    var s := ToBytes(words);
    if i == 0 {
      assert s[0..4] == ToLe(words[0], 4);
      FromToLe32(words[0]);
    } else {
      WordReadsBack(words[1..], i - 1);
      assert s[4 * i..4 * i + 4] == ToBytes(words[1..])[4 * (i - 1)..4 * (i - 1) + 4];
    }
  }

  function Pow2(k: nat): (p: nat)
    ensures p > 0
  {
    if k == 0 then 1 else 2 * Pow2(k - 1)
  }

  /** The exponent `next_power_of_two` picks, counting up from `k`. */
  function NextExponent(n: nat, k: nat): (e: nat)
    ensures e >= k && Pow2(e) >= n
    ensures e > k ==> Pow2(e - 1) < n
    decreases if n > Pow2(k) then n - Pow2(k) else 0
  {
    if n <= Pow2(k) then k else NextExponent(n, k + 1)
  }

  /** The least power of two that is at least `n`. */
  function NextPowerOfTwo(n: nat): (p: nat)
    ensures p >= n && p >= 1
    ensures n >= 1 ==> p < 2 * n
  {
    Pow2(NextExponent(n, 0))
  }

  lemma {:induction false} PowersGrow(j: nat, k: nat)
    requires j <= k
    ensures Pow2(j) <= Pow2(k)
    decreases k
  {
    if j < k {
      PowersGrow(j, k - 1);
    }
  }

  /** Counting up stops at the only exponent whose power reaches `n` while the one before it does not. */
  lemma {:induction false} NextExponentIs(n: nat, from: nat, k: nat)
    requires from <= k && n <= Pow2(k) && (k > from ==> Pow2(k - 1) < n)
    ensures NextExponent(n, from) == k
    decreases k - from
  {
    if from < k {
      PowersGrow(from, k - 1);
      NextExponentIs(n, from + 1, k);
    }
  }

  lemma {:induction false} NextPowerIs(n: nat, k: nat)
    requires n <= Pow2(k) && (k > 0 ==> Pow2(k - 1) < n)
    ensures NextPowerOfTwo(n) == Pow2(k)
  {
    NextExponentIs(n, 0, k);
  }
}
