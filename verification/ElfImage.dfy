/** ELF64 section headers and the header table as bytes. */
module ElfImage {
  import opened Bytes

  const EHDR_SIZE: nat := 64
  const SHDR_SIZE: nat := 64
  const SHT_NULL: nat := 0
  const SHT_PROGBITS: nat := 1
  const SHT_NOBITS: nat := 8

  datatype Shdr = Shdr(name: nat, typ: nat, flags: nat, addr: nat, offset: nat, size: nat,
                       link: nat, info: nat, addralign: nat, entsize: nat)
  {
    /** Does the section own bytes of the file? */
    predicate HasBytes() { typ != SHT_NULL && typ != SHT_NOBITS }

    function End(): nat { offset + size }
  }

  /** `SectionHeader64` as stored. */
  function Encode(h: Shdr): (s: seq<Byte>)
    ensures |s| == SHDR_SIZE
  {
    ToLe(h.name, 4) + ToLe(h.typ, 4) + ToLe(h.flags, 8) + ToLe(h.addr, 8) + ToLe(h.offset, 8)
    + ToLe(h.size, 8) + ToLe(h.link, 4) + ToLe(h.info, 4) + ToLe(h.addralign, 8) + ToLe(h.entsize, 8)
  }

  /** `SectionHeader64` as read. */
  function Decode(s: seq<Byte>): Shdr
    requires |s| == SHDR_SIZE
  {
    Shdr(FromLe(s[0..4]), FromLe(s[4..8]), FromLe(s[8..16]), FromLe(s[16..24]), FromLe(s[24..32]),
         FromLe(s[32..40]), FromLe(s[40..44]), FromLe(s[44..48]), FromLe(s[48..56]), FromLe(s[56..64]))
  }

  predicate FieldsFit(h: Shdr) {
    && h.name < 0x1_0000_0000 && h.typ < 0x1_0000_0000 && h.link < 0x1_0000_0000 && h.info < 0x1_0000_0000
    && h.flags < 0x1_0000_0000_0000_0000 && h.addr < 0x1_0000_0000_0000_0000
    && h.offset < 0x1_0000_0000_0000_0000 && h.size < 0x1_0000_0000_0000_0000
    && h.addralign < 0x1_0000_0000_0000_0000 && h.entsize < 0x1_0000_0000_0000_0000
  }

  /** A header read back is the header written. */
  lemma {:induction false} HeaderRoundTrip(h: Shdr)
    requires FieldsFit(h)
    ensures Decode(Encode(h)) == h
  {
    var s := Encode(h);
    assert s[0..4] == ToLe(h.name, 4) && s[4..8] == ToLe(h.typ, 4) && s[8..16] == ToLe(h.flags, 8);
    assert s[16..24] == ToLe(h.addr, 8) && s[24..32] == ToLe(h.offset, 8) && s[32..40] == ToLe(h.size, 8);
    assert s[40..44] == ToLe(h.link, 4) && s[44..48] == ToLe(h.info, 4);
    assert s[48..56] == ToLe(h.addralign, 8) && s[56..64] == ToLe(h.entsize, 8);
    hide *;
    FieldsBack(h);
  }

  lemma {:induction false} FieldsBack(h: Shdr)
    requires FieldsFit(h)
    ensures FromLe(ToLe(h.name, 4)) == h.name && FromLe(ToLe(h.typ, 4)) == h.typ
    ensures FromLe(ToLe(h.link, 4)) == h.link && FromLe(ToLe(h.info, 4)) == h.info
    ensures FromLe(ToLe(h.flags, 8)) == h.flags && FromLe(ToLe(h.addr, 8)) == h.addr
    ensures FromLe(ToLe(h.offset, 8)) == h.offset && FromLe(ToLe(h.size, 8)) == h.size
    ensures FromLe(ToLe(h.addralign, 8)) == h.addralign && FromLe(ToLe(h.entsize, 8)) == h.entsize
  {
    FromToLe32(h.name); FromToLe32(h.typ); FromToLe32(h.link); FromToLe32(h.info);
    FromToLe64(h.flags); FromToLe64(h.addr); FromToLe64(h.offset); FromToLe64(h.size);
    FromToLe64(h.addralign); FromToLe64(h.entsize);
  }

  function Table(hs: seq<Shdr>): (s: seq<Byte>)
    ensures |s| == SHDR_SIZE * |hs|
  {
    if hs == [] then [] else Table(hs[..|hs| - 1]) + Encode(hs[|hs| - 1])
  }

  /** `f` is a file whose header names the section header table `hs` at `shoff`. */
  predicate IsImage(f: seq<Byte>, shoff: nat, hs: seq<Shdr>) {
    && EHDR_SIZE <= |f|
    && Holds(f, 40, ToLe(shoff, 8))
    && Holds(f, 60, ToLe(|hs|, 2))
    && Holds(f, shoff, Table(hs))
  }

  /** A file of a header, some data and a section header table. */
  function FileOf(data: seq<Byte>, hs: seq<Shdr>): (f: seq<Byte>)
    ensures |f| == EHDR_SIZE + |data| + SHDR_SIZE * |hs|
  {
    seq(40, _ => 0) + ToLe(EHDR_SIZE + |data|, 8) + seq(12, _ => 0) + ToLe(|hs|, 2) + [0, 0] + data + Table(hs)
  }

  lemma {:induction false} FileIsImage(data: seq<Byte>, hs: seq<Shdr>)
    ensures IsImage(FileOf(data, hs), EHDR_SIZE + |data|, hs)
    ensures Holds(FileOf(data, hs), EHDR_SIZE, data)
  {
    hide ToLe, Table;
  }

  /** Sections that own bytes lie in the file, beside the file header, the table and each other. */
  predicate WellLaidOut(f: seq<Byte>, shoff: nat, hs: seq<Shdr>) {
    && EHDR_SIZE <= shoff
    && (forall i :: 0 <= i < |hs| && hs[i].HasBytes() ==>
          && EHDR_SIZE <= hs[i].offset && hs[i].End() <= |f|
          && (hs[i].End() <= shoff || shoff + SHDR_SIZE * |hs| <= hs[i].offset))
    && (forall i, j :: 0 <= i < j < |hs| && hs[i].HasBytes() && hs[j].HasBytes() ==>
          hs[i].End() <= hs[j].offset || hs[j].End() <= hs[i].offset)
  }

  lemma {:induction false} PatchTwice(s: seq<Byte>, at: nat, a: seq<Byte>, b: seq<Byte>)
    requires at + |a| + |b| <= |s|
    ensures Patch(Patch(s, at, a), at + |a|, b) == Patch(s, at, a + b)
  {
  }

  /** The loop that rewrites a section header table entry by entry. */
  method WriteTable(f: seq<Byte>, at: nat, hs: seq<Shdr>) returns (g: seq<Byte>)
    requires at + SHDR_SIZE * |hs| <= |f|
    ensures g == Patch(f, at, Table(hs))
  {
    g := f;
    assert Patch(f, at, []) == f;
    for i := 0 to |hs|
      invariant g == Patch(f, at, Table(hs[..i]))
    {
      assert hs[..i + 1][..i] == hs[..i];
      PatchTwice(f, at, Table(hs[..i]), Encode(hs[i]));
      g := Patch(g, at + SHDR_SIZE * i, Encode(hs[i]));
    }
    assert hs[..|hs|] == hs;
  }
}
