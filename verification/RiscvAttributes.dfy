/** The `.riscv.attributes` section: its size, its writer and its parser. */
module RiscvAttributes {
  import opened Bytes
  import Uleb

  type Name = seq<Byte>

  const U64: nat := 0x1_0000_0000_0000_0000
  const UNDERSCORE: Byte := 95
  const LETTER_P: Byte := 112
  const LETTER_A: Byte := 65
  const VENDOR: Name := [114, 105, 115, 99, 118]

  const TAG_WHOLE_FILE: nat := 1
  const TAG_STACK_ALIGN: nat := 4
  const TAG_ARCH: nat := 5
  const TAG_UNALIGNED_ACCESS: nat := 6
  const TAG_PRIV_SPEC: nat := 8
  const TAG_PRIV_SPEC_MINOR: nat := 10
  const TAG_PRIV_SPEC_REVISION: nat := 12

  /** An extension with its version. */
  datatype Ext = Ext(name: Name, major: nat, minor: nat)

  datatype Attr =
    | StackAlign(align: nat)
    | Arch(exts: seq<Ext>)
    | UnalignedAccess(access: bool)
    | PrivMajor(version: nat)
    | PrivMinor(version: nat)
    | PrivRevision(version: nat)

  // ---------------------------------------------------------------- one extension

  function Decimal(n: nat): (s: seq<Byte>)
    ensures |s| > 0 && 48 <= s[|s| - 1] <= 57
    ensures |s| == 1 <==> n < 10
  {
    if n < 10 then [48 + n] else Decimal(n / 10) + [48 + n % 10]
  }

  function FormatExt(e: Ext): seq<Byte> { e.name + Decimal(e.major) + [LETTER_P] + Decimal(e.minor) }

  function Digit(b: Byte): Option<nat> { if 48 <= b <= 57 then Some(b - 48) else None }

  /** Reads one extension from its end: one minor digit, a `p`, one major digit, and the name before them. */
  function ParseExt(part: seq<Byte>): Option<Ext> {
    var n := |part|;
    if n < 3 || part[n - 2] != LETTER_P then None
    else
      var major :- Digit(part[n - 3]);
      var minor :- Digit(part[n - 1]);
      Some(Ext(part[..n - 3], major, minor))
  }

  predicate SingleDigits(e: Ext) { e.major < 10 && e.minor < 10 }

  /** An extension is read back if and only if both versions are single digits. */
  lemma {:induction false} ExtReadsBack(e: Ext)
    ensures ParseExt(FormatExt(e)) == Some(e) <==> SingleDigits(e)
  {
    hide Decimal;
    var s := FormatExt(e);
    if e.minor >= 10 {
      TwoDigits(e.minor);
      assert s[|s| - 2] == Decimal(e.minor)[|Decimal(e.minor)| - 2];
    } else {
      OneDigit(e.minor);
      assert s[|s| - 2] == LETTER_P;
      if e.major >= 10 {
        TwoDigits(e.major);
        assert |s| - 3 > |e.name|;
      } else {
        OneDigit(e.major);
        assert s == e.name + [48 + e.major, LETTER_P, 48 + e.minor];
        assert s[..|s| - 3] == e.name;
      }
    }
  }

  /** Extension `v` of version 10.0 is read back as `v1` of version 0.0, and version 0.10 is refused. */
  lemma {:induction false} TwoDigitsAreLost()
    ensures ParseExt(FormatExt(Ext([118], 10, 0))) == Some(Ext([118, 49], 0, 0))
    ensures ParseExt(FormatExt(Ext([118], 0, 10))).None?
  {
    assert Decimal(0) == [48] && Decimal(1) == [49] && Decimal(10) == [49] + [48];
    assert FormatExt(Ext([118], 10, 0)) == [118, 49, 48, 112, 48];
    assert FormatExt(Ext([118], 0, 10)) == [118, 48, 112, 49, 48];
    assert [118, 49, 48, 112, 48][..2] == [118, 49];
  }

  lemma {:induction false} OneDigit(n: nat)
    requires n < 10
    ensures Decimal(n) == [48 + n]
  {
  }

  lemma {:induction false} TwoDigits(n: nat)
    requires n >= 10
    ensures |Decimal(n)| >= 2 && 48 <= Decimal(n)[|Decimal(n)| - 2] <= 57
  {
    assert Decimal(n)[|Decimal(n)| - 2] == Decimal(n / 10)[|Decimal(n / 10)| - 1];
  }

  // ---------------------------------------------------------------- the list of extensions

  function Join(parts: seq<seq<Byte>>): seq<Byte> {
    if parts == [] then [] else if |parts| == 1 then parts[0] else parts[0] + [UNDERSCORE] + Join(parts[1..])
  }

  /** `split('_')`. */
  function Split(s: seq<Byte>): (parts: seq<seq<Byte>>)
    ensures |parts| > 0
    decreases |s|
  {
    if s == [] then [[]]
    else if s[0] == UNDERSCORE then [[]] + Split(s[1..])
    else
      var rest := Split(s[1..]);
      [[s[0]] + rest[0]] + rest[1..]
  }

  lemma {:induction false} SplitPlain(s: seq<Byte>)
    requires UNDERSCORE !in s
    ensures Split(s) == [s]
    decreases |s|
  {
    if s != [] {
      SplitPlain(s[1..]);
      assert [s[0]] + s[1..] == s;
    }
  }

  lemma {:induction false} SplitFirst(a: seq<Byte>, b: seq<Byte>)
    requires UNDERSCORE !in a
    ensures Split(a + [UNDERSCORE] + b) == [a] + Split(b)
    decreases |a|
  {
    var s := a + [UNDERSCORE] + b;
    if a == [] {
      assert s[1..] == b;
    } else {
      SplitFirst(a[1..], b);
      assert s[1..] == a[1..] + [UNDERSCORE] + b;
      assert [a[0]] + a[1..] == a;
    }
  }

  lemma {:induction false} SplitJoin(parts: seq<seq<Byte>>)
    requires |parts| > 0 && forall i :: 0 <= i < |parts| ==> UNDERSCORE !in parts[i]
    ensures Split(Join(parts)) == parts
    decreases |parts|
  {
    if |parts| == 1 {
      SplitPlain(parts[0]);
    } else {
      SplitJoin(parts[1..]);
      SplitFirst(parts[0], Join(parts[1..]));
    }
  }

  function Formats(exts: seq<Ext>): (parts: seq<seq<Byte>>)
    ensures |parts| == |exts| && forall i :: 0 <= i < |exts| ==> parts[i] == FormatExt(exts[i])
  {
    seq(|exts|, i requires 0 <= i < |exts| => FormatExt(exts[i]))
  }

  /** `to_attribute_string`. */
  function ArchString(exts: seq<Ext>): seq<Byte> { Join(Formats(exts)) }

  function ParseExts(parts: seq<seq<Byte>>): (r: Option<seq<Ext>>)
    ensures r.Some? ==> |r.value| == |parts|
  {
    if parts == [] then Some([])
    else
      var first :- ParseExt(parts[0]);
      var rest :- ParseExts(parts[1..]);
      Some([first] + rest)
  }

  /** Collecting into an insertion-ordered map: a name that is already there keeps its place and takes the new version. */
  function PutExt(m: seq<Ext>, e: Ext): (r: seq<Ext>)
    ensures |r| <= |m| + 1
    ensures |r| == |m| + 1 ==> r == m + [e]
  {
    if m == [] then [e]
    else if m[0].name == e.name then [e] + m[1..]
    else [m[0]] + PutExt(m[1..], e)
  }

  function Collected(exts: seq<Ext>, n: nat): (r: seq<Ext>)
    requires n <= |exts|
    ensures |r| <= n
    ensures |r| == n ==> r == exts[..n]
  {
    if n == 0 then []
    else
      assert exts[..n - 1] + [exts[n - 1]] == exts[..n];
      PutExt(Collected(exts, n - 1), exts[n - 1])
  }

  function ParseArch(s: seq<Byte>): Option<seq<Ext>> {
    var exts :- ParseExts(Split(s));
    Some(Collected(exts, |exts|))
  }

  predicate DistinctNames(exts: seq<Ext>) {
    forall i, j :: 0 <= i < j < |exts| ==> exts[i].name != exts[j].name
  }

  lemma {:induction false} PutNew(m: seq<Ext>, e: Ext)
    requires forall i :: 0 <= i < |m| ==> m[i].name != e.name
    ensures PutExt(m, e) == m + [e]
    decreases |m|
  {
    if m != [] {
      PutNew(m[1..], e);
    }
  }

  lemma {:induction false} CollectDistinct(exts: seq<Ext>, n: nat)
    requires DistinctNames(exts) && n <= |exts|
    ensures Collected(exts, n) == exts[..n]
    decreases n
  {
    if n > 0 {
      CollectDistinct(exts, n - 1);
      PutNew(exts[..n - 1], exts[n - 1]);
      assert exts[..n] == exts[..n - 1] + [exts[n - 1]];
    }
  }

  lemma {:induction false} ExtsReadBack(exts: seq<Ext>, parts: seq<seq<Byte>>)
    requires |parts| == |exts| && forall i :: 0 <= i < |exts| ==> parts[i] == FormatExt(exts[i])
    ensures ParseExts(parts) == Some(exts) <==> forall i :: 0 <= i < |exts| ==> SingleDigits(exts[i])
    decreases |exts|
  {
    hide ParseExt, FormatExt, SingleDigits;
    if exts != [] {
      ExtReadsBack(exts[0]);
      ExtsReadBack(exts[1..], parts[1..]);
      assert exts == [exts[0]] + exts[1..];
    }
  }

  predicate NoUnderscore(exts: seq<Ext>) { forall i :: 0 <= i < |exts| ==> UNDERSCORE !in exts[i].name }

  lemma {:induction false} DecimalIsDigits(n: nat)
    ensures forall i :: 0 <= i < |Decimal(n)| ==> 48 <= Decimal(n)[i] <= 57
    decreases n
  {
    if n >= 10 {
      DecimalIsDigits(n / 10);
    }
  }

  lemma {:induction false} FormatIsPlain(e: Ext, b: Byte)
    requires b !in e.name && b != LETTER_P && !(48 <= b <= 57)
    ensures b !in FormatExt(e)
  {
    DecimalIsDigits(e.major);
    DecimalIsDigits(e.minor);
  }

  /** The extensions are read back if and only if there is at least one and all versions are single digits. */
  lemma {:induction false} ArchReadsBack(exts: seq<Ext>)
    requires DistinctNames(exts) && NoUnderscore(exts)
    ensures ParseArch(ArchString(exts)) == Some(exts) <==> |exts| > 0 && forall i :: 0 <= i < |exts| ==> SingleDigits(exts[i])
  {
    hide ParseExt, FormatExt, SingleDigits, DistinctNames, ParseExts, Split, Join, Collected;
    var parts := Formats(exts);
    if exts == [] {
      EmptyIsRefused();
    } else {
      forall i | 0 <= i < |parts| ensures UNDERSCORE !in parts[i] {
        FormatIsPlain(exts[i], UNDERSCORE);
      }
      SplitJoin(parts);
      ExtsReadBack(exts, parts);
      CollectDistinct(exts, |exts|);
      assert exts[..|exts|] == exts;
      var read := ParseExts(parts);
      if read.Some? {
        assert read.value[..|read.value|] == read.value;
      }
    }
  }

  lemma {:induction false} EmptyIsRefused()
    ensures ParseArch(ArchString([])).None?
  {
    assert ArchString([]) == [] && Split([]) == [[]];
    assert ParseExt([]).None?;
  }

  // ---------------------------------------------------------------- attributes

  function Uleb2(tag: nat, value: nat): seq<Byte> { Uleb.Encoded(tag) + Uleb.Encoded(value) }

  function EncodeAttr(a: Attr): (s: seq<Byte>)
    ensures |s| > 0
  {
    match a
    case StackAlign(align) => Uleb2(TAG_STACK_ALIGN, align)
    case Arch(exts) => Uleb.Encoded(TAG_ARCH) + (ArchString(exts) + [0])
    case UnalignedAccess(access) => Uleb2(TAG_UNALIGNED_ACCESS, if access then 1 else 0)
    case PrivMajor(version) => Uleb2(TAG_PRIV_SPEC, version)
    case PrivMinor(version) => Uleb2(TAG_PRIV_SPEC_MINOR, version)
    case PrivRevision(version) => Uleb2(TAG_PRIV_SPEC_REVISION, version)
  }

  function EncodeAttrs(attrs: seq<Attr>): seq<Byte> {
    if attrs == [] then [] else EncodeAttr(attrs[0]) + EncodeAttrs(attrs[1..])
  }

  /** The bytes of one attribute as the layout counts them. */
  function AttrSize(a: Attr): nat {
    match a
    case StackAlign(align) => |Uleb.Encoded(TAG_STACK_ALIGN)| + |Uleb.Encoded(align)|
    case Arch(exts) => |Uleb.Encoded(TAG_ARCH)| + |ArchString(exts)| + 1
    case UnalignedAccess(_) => |Uleb.Encoded(TAG_UNALIGNED_ACCESS)| + 1
    case PrivMajor(version) => |Uleb.Encoded(TAG_PRIV_SPEC)| + |Uleb.Encoded(version)|
    case PrivMinor(version) => |Uleb.Encoded(TAG_PRIV_SPEC_MINOR)| + |Uleb.Encoded(version)|
    case PrivRevision(version) => |Uleb.Encoded(TAG_PRIV_SPEC_REVISION)| + |Uleb.Encoded(version)|
  }

  function AttrsSize(attrs: seq<Attr>): nat {
    if attrs == [] then 0 else AttrSize(attrs[0]) + AttrsSize(attrs[1..])
  }

  /** `riscv_attributes_section_size`. */
  function SectionSize(attrs: seq<Attr>): nat {
    if attrs == [] then 0
    else 1 + 4 + |Uleb.Encoded(TAG_WHOLE_FILE)| + 4 + |VENDOR| + 1 + AttrsSize(attrs)
  }

  lemma {:induction false} AttrsSizeIs(attrs: seq<Attr>)
    ensures |EncodeAttrs(attrs)| == AttrsSize(attrs)
    decreases |attrs|
  {
    hide ArchString;
    if attrs != [] {
      AttrsSizeIs(attrs[1..]);
    }
  }

  function Header(size: nat): seq<Byte>
    requires size >= 11
  {
    [LETTER_A] + ToLe(size - 1, 4) + VENDOR + [0] + Uleb.Encoded(TAG_WHOLE_FILE) + ToLe(size - 11, 4)
  }

  function SectionBytes(attrs: seq<Attr>): seq<Byte>
    requires SectionSize(attrs) >= 11
  {
    Header(SectionSize(attrs)) + EncodeAttrs(attrs)
  }

  /** The section written has exactly the size that was reserved. */
  lemma {:induction false} WritesReservedSize(attrs: seq<Attr>)
    requires attrs != []
    ensures SectionSize(attrs) >= 11 && |SectionBytes(attrs)| == SectionSize(attrs)
  {
    hide AttrSize, EncodeAttr;
    AttrsSizeIs(attrs);
    assert |Uleb.Encoded(TAG_WHOLE_FILE)| == 1;
  }

  /** `write_riscv_attributes` into a buffer of the reserved size: fails when a write does not fit. */
  method WriteSection(attrs: seq<Attr>, capacity: nat) returns (r: Option<seq<Byte>>)
    requires attrs != []
    ensures SectionSize(attrs) >= 11
    ensures r == if capacity >= SectionSize(attrs) then Some(SectionBytes(attrs)) else None
  {
    hide EncodeAttr, AttrSize, Header;
    WritesReservedSize(attrs);
    var size := SectionSize(attrs);
    var out := Header(size);
    HeaderSize(size);
    assert attrs[0..] == attrs;
    for i := 0 to |attrs|
      invariant out + EncodeAttrs(attrs[i..]) == SectionBytes(attrs)
    {
      assert attrs[i..][1..] == attrs[i + 1..];
      out := out + EncodeAttr(attrs[i]);
    }
    assert out == SectionBytes(attrs);
    r := if |out| <= capacity then Some(out) else None;
  }

  lemma {:induction false} HeaderSize(size: nat)
    requires size >= 11
    ensures |Header(size)| == 16
  {
    assert |Uleb.Encoded(TAG_WHOLE_FILE)| == 1;
  }

  // ---------------------------------------------------------------- the parser

  /** `read_string`: the bytes before the first NUL. */
  function ReadString(s: seq<Byte>): (r: Option<Name>)
    ensures r.Some? ==> |r.value| < |s|
    decreases |s|
  {
    if s == [] then None
    else if s[0] == 0 then Some([])
    else
      var rest :- ReadString(s[1..]);
      Some([s[0]] + rest)
  }

  lemma {:induction false} StringReadsBack(name: Name, rest: seq<Byte>)
    requires 0 !in name
    ensures ReadString(name + [0] + rest) == Some(name)
    decreases |name|
  {
    if name != [] {
      StringReadsBack(name[1..], rest);
      assert (name + [0] + rest)[1..] == name[1..] + [0] + rest;
      assert [name[0]] + name[1..] == name;
    }
  }

  function UlebLength(s: seq<Byte>): (n: nat)
    ensures Uleb.Read(s, 0).Some? ==> 0 < n <= |s|
  {
    ReadLength(s, 0);
    if Uleb.Read(s, 0).Some? then Uleb.Read(s, 0).value.1 else 0
  }

  lemma {:induction false} ReadLength(s: seq<Byte>, i: nat)
    ensures Uleb.Read(s, i).Some? ==> 0 < Uleb.Read(s, i).value.1 <= |s|
    decreases |s|
  {
    if s != [] {
      ReadLength(s[1..], i + 1);
    }
  }

  /** Reads one attribute; the second component is what is left. */
  function ParseAttr(s: seq<Byte>): (r: Option<(Attr, seq<Byte>)>)
    ensures r.Some? ==> |r.value.1| < |s|
  {
    var n := UlebLength(s);
    var tag :- Uleb.Read(s, 0);
    var rest := s[n..];
    if tag.0 == TAG_ARCH then
      var arch :- ReadString(rest);
      var exts :- ParseArch(arch);
      Some((Arch(exts), rest[|arch| + 1..]))
    else
      var m := UlebLength(rest);
      var value :- Uleb.Read(rest, 0);
      if tag.0 == TAG_STACK_ALIGN then Some((StackAlign(value.0), rest[m..]))
      else if tag.0 == TAG_UNALIGNED_ACCESS then Some((UnalignedAccess(value.0 > 0), rest[m..]))
      else if tag.0 == TAG_PRIV_SPEC then Some((PrivMajor(value.0), rest[m..]))
      else if tag.0 == TAG_PRIV_SPEC_MINOR then Some((PrivMinor(value.0), rest[m..]))
      else if tag.0 == TAG_PRIV_SPEC_REVISION then Some((PrivRevision(value.0), rest[m..]))
      else None
  }

  function ParseAttrs(s: seq<Byte>): Option<seq<Attr>>
    decreases |s|
  {
    if s == [] then Some([])
    else
      var first :- ParseAttr(s);
      var others :- ParseAttrs(first.1);
      Some([first.0] + others)
  }

  /** The header checks of `process_riscv_attributes`; the two sizes are not looked at. */
  function AfterHeader(s: seq<Byte>): Option<seq<Byte>> {
    if |s| < 5 || s[0] != LETTER_A then None
    else
      var vendor :- ReadString(s[5..]);
      var rest := s[5..][|vendor| + 1..];
      var n := UlebLength(rest);
      var tag :- Uleb.Read(rest, 0);
      if vendor != VENDOR || tag.0 != TAG_WHOLE_FILE || |rest| < n + 4 then None else Some(rest[n + 4..])
  }

  function ParsedSection(s: seq<Byte>): Option<seq<Attr>> {
    var body :- AfterHeader(s);
    ParseAttrs(body)
  }

  /** `process_riscv_attributes`. */
  method ParseSection(s: seq<Byte>) returns (r: Option<seq<Attr>>)
    ensures r == ParsedSection(s)
  {
    hide ParseAttr, AfterHeader;
    var body := AfterHeader(s);
    if body.None? {
      return None;
    }
    var content, attrs := body.value, [];
    PrefixedNone(ParseAttrs(content));
    while content != []
      invariant ParseAttrs(body.value) == Prefixed(attrs, ParseAttrs(content))
      decreases |content|
    {
      var next := ParseAttr(content);
      if next.None? {
        return None;
      }
      PrefixedMore(attrs, next.value.0, ParseAttrs(next.value.1));
      attrs := attrs + [next.value.0];
      content := next.value.1;
    }
    assert attrs + [] == attrs;
    r := Some(attrs);
  }

  lemma {:induction false} PrefixedNone(rest: Option<seq<Attr>>)
    ensures Prefixed([], rest) == rest
  {
    if rest.Some? {
      assert [] + rest.value == rest.value;
    }
  }

  function Prefixed(attrs: seq<Attr>, rest: Option<seq<Attr>>): Option<seq<Attr>> {
    if rest.None? then None else Some(attrs + rest.value)
  }

  lemma {:induction false} PrefixedMore(attrs: seq<Attr>, a: Attr, rest: Option<seq<Attr>>)
    ensures Prefixed(attrs, Prefixed([a], rest)) == Prefixed(attrs + [a], rest)
  {
    if rest.Some? {
      assert attrs + ([a] + rest.value) == attrs + [a] + rest.value;
    }
  }

  // ---------------------------------------------------------------- round trip

  /** Values fit 64 bits; extension names are distinct and have no separator or NUL in them. */
  predicate Encodable(a: Attr) {
    match a
    case StackAlign(align) => align < U64
    case Arch(exts) => DistinctNames(exts) && NoUnderscore(exts) && forall i :: 0 <= i < |exts| ==> 0 !in exts[i].name
    case UnalignedAccess(_) => true
    case PrivMajor(version) => version < U64
    case PrivMinor(version) => version < U64
    case PrivRevision(version) => version < U64
  }

  /** An architecture with extensions, all of whose versions are single digits. */
  predicate Readable(a: Attr) {
    a.Arch? ==> |a.exts| > 0 && forall i :: 0 <= i < |a.exts| ==> SingleDigits(a.exts[i])
  }

  lemma {:induction false} UlebReadsBack(v: nat, rest: seq<Byte>)
    requires v < U64
    ensures Uleb.Read(Uleb.Encoded(v) + rest, 0) == Some((v, |Uleb.Encoded(v)|))
    ensures UlebLength(Uleb.Encoded(v) + rest) == |Uleb.Encoded(v)|
    ensures (Uleb.Encoded(v) + rest)[|Uleb.Encoded(v)|..] == rest
  {
    Uleb.ReadU64(v, rest);
  }

  lemma {:induction false} JoinIsPlain(parts: seq<seq<Byte>>, b: Byte)
    requires b != UNDERSCORE && forall i :: 0 <= i < |parts| ==> b !in parts[i]
    ensures b !in Join(parts)
    decreases |parts|
  {
    if |parts| > 1 {
      JoinIsPlain(parts[1..], b);
    }
  }

  lemma {:induction false} ArchHasNoNul(exts: seq<Ext>)
    requires forall i :: 0 <= i < |exts| ==> 0 !in exts[i].name
    ensures 0 !in ArchString(exts)
  {
    var parts := Formats(exts);
    forall i | 0 <= i < |parts| ensures 0 !in parts[i] {
      FormatIsPlain(exts[i], 0);
    }
    JoinIsPlain(parts, 0);
  }

  /** An attribute is read back, with what follows it left over, if and only if it is readable. */
  lemma {:induction false} AttrReadsBack(a: Attr, rest: seq<Byte>)
    requires Encodable(a)
    ensures ParseAttr(EncodeAttr(a) + rest) == Some((a, rest)) <==> Readable(a)
    ensures !Readable(a) ==> ParseAttr(EncodeAttr(a) + rest).None? || ParseAttr(EncodeAttr(a) + rest).value.0 != a
  {
    hide ArchString, ParseArch, ReadString, Uleb.Encoded, Uleb.Read, UlebLength, SingleDigits, DistinctNames, NoUnderscore;
    match a
    case Arch(exts) => ArchAttrReadsBack(exts, rest);
    case StackAlign(v) => ValueReadsBack(TAG_STACK_ALIGN, v, rest);
    case UnalignedAccess(v) => ValueReadsBack(TAG_UNALIGNED_ACCESS, if v then 1 else 0, rest);
    case PrivMajor(v) => ValueReadsBack(TAG_PRIV_SPEC, v, rest);
    case PrivMinor(v) => ValueReadsBack(TAG_PRIV_SPEC_MINOR, v, rest);
    case PrivRevision(v) => ValueReadsBack(TAG_PRIV_SPEC_REVISION, v, rest);
  }

  lemma {:induction false} ValueReadsBack(tag: nat, v: nat, rest: seq<Byte>)
    requires tag < U64 && v < U64
    ensures var s := Uleb2(tag, v) + rest;
            var n := UlebLength(s);
            && Uleb.Read(s, 0).Some? && Uleb.Read(s, 0).value.0 == tag
            && Uleb.Read(s[n..], 0).Some? && Uleb.Read(s[n..], 0).value.0 == v
            && s[n..][UlebLength(s[n..])..] == rest
  {
    hide Uleb.Encoded, Uleb.Read, UlebLength;
    var t, e := Uleb.Encoded(tag), Uleb.Encoded(v);
    assert Uleb2(tag, v) + rest == t + (e + rest);
    UlebReadsBack(tag, e + rest);
    UlebReadsBack(v, rest);
  }

  lemma {:induction false} ArchAttrReadsBack(exts: seq<Ext>, rest: seq<Byte>)
    requires Encodable(Arch(exts))
    ensures ParseAttr(EncodeAttr(Arch(exts)) + rest) == Some((Arch(exts), rest)) <==> Readable(Arch(exts))
    ensures !Readable(Arch(exts)) ==> ParseAttr(EncodeAttr(Arch(exts)) + rest).None?
                                      || ParseAttr(EncodeAttr(Arch(exts)) + rest).value.0 != Arch(exts)
  {
    hide ArchString, ParseArch, ReadString, Uleb.Encoded, Uleb.Read, UlebLength, SingleDigits, DistinctNames, NoUnderscore;
    var t, text := Uleb.Encoded(TAG_ARCH), ArchString(exts);
    var after := text + [0] + rest;
    assert EncodeAttr(Arch(exts)) + rest == t + after;
    UlebReadsBack(TAG_ARCH, after);
    ArchHasNoNul(exts);
    StringReadsBack(text, rest);
    ArchReadsBack(exts);
    assert after[|text| + 1..] == rest;
  }

  predicate AllEncodable(attrs: seq<Attr>) { forall i :: 0 <= i < |attrs| ==> Encodable(attrs[i]) }

  predicate AllReadable(attrs: seq<Attr>) { forall i :: 0 <= i < |attrs| ==> Readable(attrs[i]) }

  lemma {:induction false} AttrsReadBack(attrs: seq<Attr>)
    requires AllEncodable(attrs)
    ensures ParseAttrs(EncodeAttrs(attrs)) == Some(attrs) <==> AllReadable(attrs)
    decreases |attrs|
  {
    hide ParseAttr, EncodeAttr, Readable, Encodable;
    if attrs != [] {
      AttrReadsBack(attrs[0], EncodeAttrs(attrs[1..]));
      AttrsReadBack(attrs[1..]);
      assert attrs == [attrs[0]] + attrs[1..];
    }
  }

  lemma {:induction false} HeaderReadsBack(size: nat, body: seq<Byte>)
    requires size >= 11
    ensures AfterHeader(Header(size) + body) == Some(body)
  {
    hide ReadString, Uleb.Read, UlebLength, ToLe;
    var s := Header(size) + body;
    var after := Uleb.Encoded(TAG_WHOLE_FILE) + (ToLe(size - 11, 4) + body);
    assert s[5..] == VENDOR + [0] + after;
    StringReadsBack(VENDOR, after);
    assert s[5..][|VENDOR| + 1..] == after;
    UlebReadsBack(TAG_WHOLE_FILE, ToLe(size - 11, 4) + body);
    var n := |Uleb.Encoded(TAG_WHOLE_FILE)|;
    assert after[n + 4..] == after[n..][4..];
  }

  /** Parsing the written section gives the attributes back if and only if every architecture string has extensions and
      only single-digit versions; otherwise the parser fails or gives other attributes. */
  lemma {:induction false} SectionRoundTrip(attrs: seq<Attr>)
    requires attrs != [] && AllEncodable(attrs)
    ensures SectionSize(attrs) >= 11
    ensures ParsedSection(SectionBytes(attrs)) == Some(attrs) <==> AllReadable(attrs)
  {
    hide ParseAttrs, AfterHeader, EncodeAttrs, Header, AttrsSize, AllEncodable, AllReadable;
    WritesReservedSize(attrs);
    HeaderReadsBack(SectionSize(attrs), EncodeAttrs(attrs));
    AttrsReadBack(attrs);
  }

  /** Both length fields name exactly what they cover: the subsection, and the sub-subsection with its tag. */
  lemma {:induction false} LengthsAreExact(attrs: seq<Attr>)
    requires attrs != [] && SectionSize(attrs) < 0x1_0000_0000
    ensures |SectionBytes(attrs)| >= 16
    ensures FromLe(SectionBytes(attrs)[1..5]) == |SectionBytes(attrs)[1..]|
    ensures FromLe(SectionBytes(attrs)[12..16]) == |SectionBytes(attrs)[11..]|
  {
    hide EncodeAttrs, AttrsSize, Uleb.Encoded, ToLe, FromLe;
    WritesReservedSize(attrs);
    var size := SectionSize(attrs);
    HeaderSize(size);
    var s := SectionBytes(attrs);
    assert |Uleb.Encoded(TAG_WHOLE_FILE)| == 1 by { WholeFileIsOneByte(); }
    assert s[1..5] == ToLe(size - 1, 4);
    assert s[12..16] == ToLe(size - 11, 4);
    FromToLe32(size - 1);
    FromToLe32(size - 11);
  }

  lemma {:induction false} WholeFileIsOneByte()
    ensures |Uleb.Encoded(TAG_WHOLE_FILE)| == 1
  {
  }
}
