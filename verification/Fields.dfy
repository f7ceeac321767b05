/** In-place patching of a list of 32-bit fields. */
module Fields {
  import opened Bytes

  datatype Field = Field(at: nat, value: nat)

  /** The fields lie in order and apart, inside `[pos, end)`. */
  predicate FieldsIn(fields: seq<Field>, pos: nat, end: nat) {
    fields == []
    || (pos <= fields[0].at && fields[0].at + 4 <= end && FieldsIn(fields[1..], fields[0].at + 4, end))
  }

  lemma {:induction false} FieldsInBounds(fields: seq<Field>, pos: nat, end: nat)
    requires FieldsIn(fields, pos, end)
    ensures forall k :: 0 <= k < |fields| ==> pos <= fields[k].at && fields[k].at + 4 <= end
  {
    if fields != [] {
      FieldsInBounds(fields[1..], fields[0].at + 4, end);
      assert forall k :: 0 < k < |fields| ==> fields[k] == fields[1..][k - 1];
    }
  }

  function PatchAll(f: seq<Byte>, fields: seq<Field>, pos: nat, end: nat): (g: seq<Byte>)
    requires FieldsIn(fields, pos, end) && end <= |f|
    ensures |g| == |f|
    decreases |fields|
  {
    if fields == [] then f
    else PatchAll(Patch(f, fields[0].at, ToLe(fields[0].value, 4)), fields[1..], fields[0].at + 4, end)
  }

  /** Only the fields change. */
  lemma {:induction false} PatchAllElsewhere(f: seq<Byte>, fields: seq<Field>, pos: nat, end: nat, p: nat, len: nat)
    requires FieldsIn(fields, pos, end) && end <= |f| && p + len <= |f|
    requires forall k :: 0 <= k < |fields| ==> p + len <= fields[k].at || fields[k].at + 4 <= p
    ensures PatchAll(f, fields, pos, end)[p..p + len] == f[p..p + len]
    decreases |fields|
  {
    if fields != [] {
      hide Patch;
      SliceBesidePatch(f, fields[0].at, ToLe(fields[0].value, 4), p, p + len);
      PatchAllElsewhere(Patch(f, fields[0].at, ToLe(fields[0].value, 4)), fields[1..], fields[0].at + 4, end, p, len);
    }
  }

  /** Every field holds its value. */
  lemma {:induction false} PatchAllAtField(f: seq<Byte>, fields: seq<Field>, pos: nat, end: nat, k: nat)
    requires FieldsIn(fields, pos, end) && end <= |f| && k < |fields|
    ensures fields[k].at + 4 <= |f|
    ensures PatchAll(f, fields, pos, end)[fields[k].at..fields[k].at + 4] == ToLe(fields[k].value, 4)
    decreases |fields|
  {
    FieldsInBounds(fields, pos, end);
    var w := ToLe(fields[0].value, 4);
    var g := Patch(f, fields[0].at, w);
    if k == 0 {
      FieldsInBounds(fields[1..], fields[0].at + 4, end);
      PatchAllElsewhere(g, fields[1..], fields[0].at + 4, end, fields[0].at, 4);
      HoldsIsSlice(g, fields[0].at, w);
    } else {
      PatchAllAtField(g, fields[1..], fields[0].at + 4, end, k - 1);
    }
  }

  /** The patch loop. */
  method PatchLoop(f: seq<Byte>, fields: seq<Field>, pos: nat, end: nat) returns (out: seq<Byte>)
    requires FieldsIn(fields, pos, end) && end <= |f|
    ensures out == PatchAll(f, fields, pos, end)
  {
    hide Patch;
    out := f;
    ghost var p: nat := pos;
    assert fields[0..] == fields;
    for k := 0 to |fields|
      invariant |out| == |f| && FieldsIn(fields[k..], p, end)
      invariant PatchAll(out, fields[k..], p, end) == PatchAll(f, fields, pos, end)
    {
      assert fields[k..][0] == fields[k] && fields[k..][1..] == fields[k + 1..];
      out := Patch(out, fields[k].at, ToLe(fields[k].value, 4));
      p := fields[k].at + 4;
    }
    assert fields[|fields|..] == [];
  }
}
