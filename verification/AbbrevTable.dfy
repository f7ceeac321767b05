/** Walking one `.debug_abbrev` table: `scan_abbrev_table`, `read_uleb` and `skip_leb`. */
module AbbrevTable {
  import opened Bytes

  const IMPLICIT_CONST: nat := 0x21
  const U64: nat := 0x1_0000_0000_0000_0000

  function Pow128(i: nat): nat { if i == 0 then 1 else 128 * Pow128(i - 1) }

  /** `read_uleb` after `i` bytes with partial result `acc`: ten bytes at most, bits past 64 dropped. */
  function ReadUleb(data: seq<Byte>, pos: nat, i: nat, acc: nat): Option<(nat, nat)>
    decreases 10 - i
  {
    if |data| <= pos + i then None
    else
      var b := data[pos + i];
      var acc' := (acc + (b % 128) * Pow128(i)) % U64;
      if b < 128 then Some((acc', i + 1))
      else if i + 1 >= 10 then None
      else ReadUleb(data, pos, i + 1, acc')
  }

  /** `skip_leb` after `i` bytes. */
  function SkipLeb(data: seq<Byte>, pos: nat, i: nat): Option<nat>
    decreases 11 - i
  {
    if |data| <= pos + i then None
    else if data[pos + i] < 128 then Some(i + 1)
    else if i + 1 > 10 then None
    else SkipLeb(data, pos, i + 1)
  }

  lemma {:induction false} ReadUlebBounds(data: seq<Byte>, pos: nat, i: nat, acc: nat)
    requires ReadUleb(data, pos, i, acc).Some?
    ensures i < ReadUleb(data, pos, i, acc).value.1 && pos + ReadUleb(data, pos, i, acc).value.1 <= |data|
    decreases 10 - i
  {
    if data[pos + i] >= 128 {
      ReadUlebBounds(data, pos, i + 1, (acc + (data[pos + i] % 128) * Pow128(i)) % U64);
    }
  }

  lemma {:induction false} SkipLebBounds(data: seq<Byte>, pos: nat, i: nat)
    requires SkipLeb(data, pos, i).Some?
    ensures i < SkipLeb(data, pos, i).value && pos + SkipLeb(data, pos, i).value <= |data|
    decreases 11 - i
  {
    if data[pos + i] >= 128 {
      SkipLebBounds(data, pos, i + 1);
    }
  }

  /** One attribute specification: its name, its form, and the offset after it. */
  function AttrAt(data: seq<Byte>, pos: nat): Option<(nat, nat, nat)> {
    var name := ReadUleb(data, pos, 0, 0);
    if name.None? then None
    else
      var form := ReadUleb(data, pos + name.value.1, 0, 0);
      if form.None? then None
      else
        var p := pos + name.value.1 + form.value.1;
        if form.value.0 != IMPLICIT_CONST then Some((name.value.0, form.value.0, p))
        else
          var skip := SkipLeb(data, p, 0);
          if skip.None? then None else Some((name.value.0, form.value.0, p + skip.value))
  }

  lemma {:induction false} AttrAtBounds(data: seq<Byte>, pos: nat)
    requires AttrAt(data, pos).Some?
    ensures pos < AttrAt(data, pos).value.2 <= |data|
  {
    var name := ReadUleb(data, pos, 0, 0);
    var form := ReadUleb(data, pos + name.value.1, 0, 0);
    ReadUlebBounds(data, pos, 0, 0);
    ReadUlebBounds(data, pos + name.value.1, 0, 0);
    var p := pos + name.value.1 + form.value.1;
    if form.value.0 == IMPLICIT_CONST { SkipLebBounds(data, p, 0); }
  }

  /** The offset after the attribute list that starts at `pos`. */
  function AttrsEnd(data: seq<Byte>, pos: nat): Option<nat>
    decreases |data| - pos
  {
    var a := AttrAt(data, pos);
    if a.None? then None
    else
      AttrAtBounds(data, pos);
      if a.value.0 == 0 && a.value.1 == 0 then Some(a.value.2) else AttrsEnd(data, a.value.2)
  }

  /** The code, tag and children flag of a declaration: is it the terminator, and the offset after it. */
  function DeclAt(data: seq<Byte>, pos: nat): Option<(bool, nat)> {
    var code := ReadUleb(data, pos, 0, 0);
    if code.None? then None
    else if code.value.0 == 0 then Some((true, pos + code.value.1))
    else
      var tag := ReadUleb(data, pos + code.value.1, 0, 0);
      if tag.None? || |data| <= pos + code.value.1 + tag.value.1 then None
      else Some((false, pos + code.value.1 + tag.value.1 + 1))
  }

  lemma {:induction false} DeclAtBounds(data: seq<Byte>, pos: nat)
    requires DeclAt(data, pos).Some?
    ensures pos < DeclAt(data, pos).value.1 <= |data|
  {
    ReadUlebBounds(data, pos, 0, 0);
  }

  lemma {:induction false} AttrsEndBounds(data: seq<Byte>, pos: nat)
    requires AttrsEnd(data, pos).Some?
    ensures pos < AttrsEnd(data, pos).value <= |data|
    decreases |data| - pos
  {
    AttrAtBounds(data, pos);
    var a := AttrAt(data, pos).value;
    if !(a.0 == 0 && a.1 == 0) { AttrsEndBounds(data, a.2); }
  }

  /** The offset after the table that starts at `pos`. */
  function TableEnd(data: seq<Byte>, pos: nat): Option<nat>
    decreases |data| - pos
  {
    var d := DeclAt(data, pos);
    if d.None? then None
    else if d.value.0 then Some(d.value.1)
    else
      var e := AttrsEnd(data, d.value.1);
      if e.None? then None
      else
        DeclAtBounds(data, pos);
        AttrsEndBounds(data, d.value.1);
        TableEnd(data, e.value)
  }

  lemma {:induction false} TableEndBounds(data: seq<Byte>, pos: nat)
    requires TableEnd(data, pos).Some?
    ensures pos < TableEnd(data, pos).value <= |data|
    decreases |data| - pos
  {
    DeclAtBounds(data, pos);
    var d := DeclAt(data, pos).value;
    if !d.0 {
      AttrsEndBounds(data, d.1);
      TableEndBounds(data, AttrsEnd(data, d.1).value);
    }
  }

  // ---------------------------------------------------------------- scanning is local

  /** `t` holds at `q` what `s` holds at `p`, for `len` bytes. */
  predicate Agree(s: seq<Byte>, p: nat, t: seq<Byte>, q: nat, len: nat) {
    p + len <= |s| && q + len <= |t| && forall i :: p <= i < p + len ==> s[i] == t[i - p + q]
  }

  lemma {:induction false} ReadUlebLocal(s: seq<Byte>, p: nat, t: seq<Byte>, q: nat, len: nat, i: nat, acc: nat)
    requires Agree(s, p, t, q, len)
    requires ReadUleb(s, p, i, acc).Some? && ReadUleb(s, p, i, acc).value.1 <= len
    ensures ReadUleb(t, q, i, acc) == ReadUleb(s, p, i, acc)
    decreases 10 - i
  {
    ReadUlebBounds(s, p, i, acc);
    assert s[p + i] == t[p + i - p + q];
    if s[p + i] >= 128 {
      ReadUlebLocal(s, p, t, q, len, i + 1, (acc + (s[p + i] % 128) * Pow128(i)) % U64);
    }
  }

  lemma {:induction false} SkipLebLocal(s: seq<Byte>, p: nat, t: seq<Byte>, q: nat, len: nat, i: nat)
    requires Agree(s, p, t, q, len)
    requires SkipLeb(s, p, i).Some? && SkipLeb(s, p, i).value <= len
    ensures SkipLeb(t, q, i) == SkipLeb(s, p, i)
    decreases 11 - i
  {
    SkipLebBounds(s, p, i);
    assert s[p + i] == t[p + i - p + q];
    if s[p + i] >= 128 {
      SkipLebLocal(s, p, t, q, len, i + 1);
    }
  }

  lemma {:induction false} AgreeFrom(s: seq<Byte>, p: nat, t: seq<Byte>, q: nat, len: nat, k: nat)
    requires Agree(s, p, t, q, len) && k <= len
    ensures Agree(s, p + k, t, q + k, len - k)
  {
  }

  lemma {:induction false} AttrAtLocal(s: seq<Byte>, p: nat, t: seq<Byte>, q: nat, len: nat)
    requires Agree(s, p, t, q, len)
    requires AttrAt(s, p).Some? && AttrAt(s, p).value.2 <= p + len
    ensures AttrAt(t, q) == Some((AttrAt(s, p).value.0, AttrAt(s, p).value.1, AttrAt(s, p).value.2 - p + q))
  {
    hide Agree, ReadUleb, SkipLeb;
    var name := ReadUleb(s, p, 0, 0).value;
    var form := ReadUleb(s, p + name.1, 0, 0).value;
    ReadUlebBounds(s, p, 0, 0);
    ReadUlebBounds(s, p + name.1, 0, 0);
    if form.0 == IMPLICIT_CONST { SkipLebBounds(s, p + name.1 + form.1, 0); }
    ReadUlebLocal(s, p, t, q, len, 0, 0);
    AgreeFrom(s, p, t, q, len, name.1);
    ReadUlebLocal(s, p + name.1, t, q + name.1, len - name.1, 0, 0);
    AgreeFrom(s, p, t, q, len, name.1 + form.1);
    if form.0 == IMPLICIT_CONST {
      SkipLebLocal(s, p + name.1 + form.1, t, q + name.1 + form.1, len - name.1 - form.1, 0);
    }
  }

  lemma {:induction false} AttrsEndLocal(s: seq<Byte>, p: nat, t: seq<Byte>, q: nat, len: nat)
    requires Agree(s, p, t, q, len)
    requires AttrsEnd(s, p).Some? && AttrsEnd(s, p).value <= p + len
    ensures AttrsEnd(t, q) == Some(AttrsEnd(s, p).value - p + q)
    decreases |s| - p
  {
    hide Agree, AttrAt;
    AttrAtBounds(s, p);
    var a := AttrAt(s, p).value;
    if !(a.0 == 0 && a.1 == 0) {
      AttrsEndBounds(s, a.2);
      AttrAtLocal(s, p, t, q, len);
      AgreeFrom(s, p, t, q, len, a.2 - p);
      AttrsEndLocal(s, a.2, t, a.2 - p + q, len - (a.2 - p));
    } else {
      AttrAtLocal(s, p, t, q, len);
    }
  }

  lemma {:induction false} DeclAtLocal(s: seq<Byte>, p: nat, t: seq<Byte>, q: nat, len: nat)
    requires Agree(s, p, t, q, len)
    requires DeclAt(s, p).Some? && DeclAt(s, p).value.1 <= p + len
    ensures DeclAt(t, q) == Some((DeclAt(s, p).value.0, DeclAt(s, p).value.1 - p + q))
  {
    hide Agree, ReadUleb;
    ReadUlebBounds(s, p, 0, 0);
    var code := ReadUleb(s, p, 0, 0).value;
    ReadUlebLocal(s, p, t, q, len, 0, 0);
    if code.0 != 0 {
      AgreeFrom(s, p, t, q, len, code.1);
      ReadUlebLocal(s, p + code.1, t, q + code.1, len - code.1, 0, 0);
    }
  }

  /** A table scanned elsewhere has the same length, whatever surrounds its bytes there. */
  lemma {:induction false} TableEndLocal(s: seq<Byte>, p: nat, t: seq<Byte>, q: nat, len: nat)
    requires Agree(s, p, t, q, len)
    requires TableEnd(s, p).Some? && TableEnd(s, p).value <= p + len
    ensures TableEnd(t, q) == Some(TableEnd(s, p).value - p + q)
    decreases |s| - p
  {
    hide Agree, DeclAt, AttrsEnd;
    DeclAtBounds(s, p);
    var d := DeclAt(s, p).value;
    if d.0 {
      DeclAtLocal(s, p, t, q, len);
    } else {
      var e := AttrsEnd(s, d.1).value;
      AttrsEndBounds(s, d.1);
      TableEndBounds(s, e);
      DeclAtLocal(s, p, t, q, len);
      AgreeFrom(s, p, t, q, len, d.1 - p);
      AttrsEndLocal(s, d.1, t, d.1 - p + q, len - (d.1 - p));
      AgreeFrom(s, p, t, q, len, e - p);
      TableEndLocal(s, e, t, e - p + q, len - (e - p));
    }
  }

  // ---------------------------------------------------------------- the loops

  method ReadUlebLoop(data: seq<Byte>, pos: nat) returns (r: Option<(nat, nat)>)
    ensures r == ReadUleb(data, pos, 0, 0)
  {
    var result: nat := 0;
    var i: nat := 0;
    while true
      invariant i < 10
      invariant ReadUleb(data, pos, 0, 0) == ReadUleb(data, pos, i, result)
      decreases 10 - i
    {
      if |data| <= pos + i { return None; }
      var b := data[pos + i];
      result := (result + (b % 128) * Pow128(i)) % U64;
      i := i + 1;
      if b < 128 { return Some((result, i)); }
      if 7 * i >= 64 { return None; }
    }
  }

  method SkipLebLoop(data: seq<Byte>, pos: nat) returns (r: Option<nat>)
    ensures r == SkipLeb(data, pos, 0)
  {
    var i: nat := 0;
    while true
      invariant i <= 10
      invariant SkipLeb(data, pos, 0) == SkipLeb(data, pos, i)
      decreases 11 - i
    {
      if |data| <= pos + i { return None; }
      var b := data[pos + i];
      i := i + 1;
      if b < 128 { return Some(i); }
      if i > 10 { return None; }
    }
  }

  /** The inner loop: one attribute list. */
  method ScanAttrs(data: seq<Byte>, start: nat) returns (r: Option<nat>)
    ensures r == AttrsEnd(data, start)
  {
    hide ReadUleb, SkipLeb;
    var pos := start;
    while true
      invariant AttrsEnd(data, start) == AttrsEnd(data, pos)
      decreases |data| - pos
    {
      var name := ReadUlebLoop(data, pos);
      if name.None? { return None; }
      var form := ReadUlebLoop(data, pos + name.value.1);
      if form.None? { return None; }
      var next := pos + name.value.1 + form.value.1;
      if form.value.0 == IMPLICIT_CONST {
        var n := SkipLebLoop(data, next);
        if n.None? { return None; }
        next := next + n.value;
      }
      AttrAtBounds(data, pos);
      pos := next;
      if name.value.0 == 0 && form.value.0 == 0 { return Some(pos); }
    }
  }

  /** `scan_abbrev_table`: the table's length, terminator included. */
  method ScanTable(data: seq<Byte>, start: nat) returns (r: Option<nat>)
    ensures r == match TableEnd(data, start) case None => None case Some(e) => Some(e - start)
    ensures r.Some? ==> 0 < r.value && start + r.value <= |data|
  {
    hide ReadUleb, SkipLeb, AttrsEnd;
    var pos := start;
    while true
      invariant start <= pos
      invariant TableEnd(data, start) == TableEnd(data, pos)
      decreases |data| - pos
    {
      var code := ReadUlebLoop(data, pos);
      if code.None? { return None; }
      if code.value.0 == 0 {
        TableEndBounds(data, start);
        return Some(pos + code.value.1 - start);
      }
      var tag := ReadUlebLoop(data, pos + code.value.1);
      if tag.None? || |data| <= pos + code.value.1 + tag.value.1 { return None; }
      var attrs := ScanAttrs(data, pos + code.value.1 + tag.value.1 + 1);
      if attrs.None? { return None; }
      DeclAtBounds(data, pos);
      AttrsEndBounds(data, pos + code.value.1 + tag.value.1 + 1);
      pos := attrs.value;
    }
  }
}
