/** ULEB128, as written by `write_uleb` and `leb128::write::unsigned` and read by `leb128::read::unsigned`. */
module Uleb {
  import opened Bytes

  function Encoded(v: nat): (s: seq<Byte>)
    ensures 1 <= |s|
  {
    if v < 128 then [v] else [v % 128 + 128] + Encoded(v / 128)
  }

  /** Reads a value whose first `i` bytes are already consumed; a tenth byte above 1 overflows u64. */
  function Read(s: seq<Byte>, i: nat): Option<(nat, nat)>
    decreases |s|
  {
    if s == [] || (i >= 9 && s[0] > 1) then None
    else if s[0] < 128 then Some((s[0], 1))
    else
      match Read(s[1..], i + 1)
      case None => None
      case Some((v, n)) => Some((s[0] - 128 + 128 * v, n + 1))
  }

  /** The values that still fit in u64 after `i` bytes of seven bits. */
  function Room(i: nat): nat {
    if i == 0 then 0x1_0000_0000_0000_0000 else Room(i - 1) / 128
  }

  lemma {:induction false} RoomShrinks()
    ensures Room(1) == 0x200_0000_0000_0000 && Room(2) == 0x4_0000_0000_0000 && Room(3) == 0x800_0000_0000
    ensures Room(4) == 0x10_0000_0000 && Room(5) == 0x2000_0000 && Room(6) == 0x40_0000
    ensures Room(7) == 0x8000 && Room(8) == 0x100 && Room(9) == 2
  {
    assert Room(3) == Room(2) / 128;
    assert Room(5) == Room(4) / 128;
    assert Room(7) == Room(6) / 128;
    assert Room(9) == Room(8) / 128;
  }

  /** Reading what was written gives the value back and consumes exactly its bytes. */
  lemma {:induction false} ReadEncoded(v: nat, rest: seq<Byte>, i: nat)
    requires i <= 9 && v < Room(i)
    ensures Read(Encoded(v) + rest, i) == Some((v, |Encoded(v)|))
    decreases v
  {
    RoomShrinks();
    if v >= 128 {
      assert i < 9 && v / 128 < Room(i + 1);
      ReadEncoded(v / 128, rest, i + 1);
      assert (Encoded(v) + rest)[1..] == Encoded(v / 128) + rest;
    }
  }

  lemma {:induction false} ReadU64(v: nat, rest: seq<Byte>)
    requires v < 0x1_0000_0000_0000_0000
    ensures Read(Encoded(v) + rest, 0) == Some((v, |Encoded(v)|))
  {
    ReadEncoded(v, rest, 0);
  }

  /** `write_uleb`. */
  method Write(out: seq<Byte>, v: nat) returns (r: seq<Byte>)
    ensures r == out + Encoded(v)
  {
    r := out;
    var x := v;
    while x >= 128
      invariant r + Encoded(x) == out + Encoded(v)
    {
      r := r + [x % 128 + 128];
      x := x / 128;
    }
    r := r + [x];
  }
}
