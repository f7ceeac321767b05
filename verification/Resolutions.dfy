/** GOT, PLT and dynamic relocation accounting: what layout reserves and assigns against what the writer consumes. */
module Resolutions {
  import opened Bytes

  const GOT_ENTRY_SIZE: nat := 8
  const PLT_ENTRY_SIZE: nat := 16
  const RELA_ENTRY_SIZE: nat := 24
  const RELR_ENTRY_SIZE: nat := 8
  const CURRENT_EXE_TLS_MOD: nat := 1
  const U64: nat := 0x1_0000_0000_0000_0000

  /** The value flags that matter here. */
  datatype Flags = Flags(absolute: bool, dynamic: bool, ifunc: bool, nonInterposable: bool, got: bool, plt: bool,
                         tlsModule: bool, tlsOffset: bool, tlsDescriptor: bool, exportDynamic: bool, ifuncGot: bool)
  {
    predicate IsTls() { tlsOffset || tlsModule || tlsDescriptor }
    predicate IsInterposable() { !nonInterposable }
    predicate IsAddress() { !ifunc && !dynamic && !absolute }
    predicate HasDynamicSymbol() { dynamic || exportDynamic }
  }

  datatype OutputKind = StaticExecutable(pic: bool) | DynamicExecutable(pic: bool) | SharedObject | Relocatable {
    predicate IsExecutable() { StaticExecutable? || DynamicExecutable? }
    predicate IsRelocatable() { SharedObject? || Relocatable? || pic }
  }

  /** What the graph traversal guarantees of the flags of one symbol. */
  predicate WellFormed(f: Flags) {
    && (f.plt ==> f.got && !f.IsTls())
    && (f.ifuncGot ==> f.ifunc && f.plt)
    && (f.dynamic ==> f.IsInterposable() && !f.ifunc)
    && (f.IsInterposable() ==> f.HasDynamicSymbol())
  }

  /** Bytes per output part. */
  datatype Parts = Parts(got: nat, pltGot: nat, relaPlt: nat, relative: nat, general: nat, relr: nat) {
    function Plus(p: Parts): Parts {
      Parts(got + p.got, pltGot + p.pltGot, relaPlt + p.relaPlt, relative + p.relative, general + p.general, relr + p.relr)
    }
  }

  const ZERO: Parts := Parts(0, 0, 0, 0, 0, 0)

  // ---------------------------------------------------------------- layout

  function Count(b: bool, n: nat): nat { if b then n else 0 }

  /** The GOT bytes reserved for thread-local slots. */
  function TlsGot(f: Flags): nat {
    Count(f.tlsOffset, 8) + Count(f.tlsModule, 16) + Count(f.tlsDescriptor, 16)
  }

  /** The bytes of general relocations reserved for thread-local slots. */
  function TlsGeneral(f: Flags, kind: OutputKind): nat {
    Count(f.tlsOffset && (f.IsInterposable() || kind.SharedObject?), 24)
    + Count(f.tlsModule && (!kind.IsExecutable() || f.dynamic), 24)
    + Count(f.tlsModule && f.IsInterposable() && f.HasDynamicSymbol(), 24)
    + Count(f.tlsDescriptor, 24)
  }

  /** The reservation, part by part. */
  function Reserved(f: Flags, kind: OutputKind, relr: bool): Parts {
    var plain := f.got && !f.IsTls();
    var viaSymbol := f.IsInterposable() && f.HasDynamicSymbol();
    var direct := plain && !f.ifunc && !viaSymbol && f.IsAddress() && kind.IsRelocatable();
    var ifunc := f.ifuncGot && kind.IsRelocatable();
    Parts(Count(plain, 8) + Count(f.ifuncGot, 8) + TlsGot(f),
          Count(plain && f.plt, 16),
          Count(plain && f.ifunc, 24),
          Count(direct && !relr, 24) + Count(ifunc && !relr, 24),
          Count(plain && !f.ifunc && viaSymbol, 24) + TlsGeneral(f, kind),
          Count(direct && relr, 8) + Count(ifunc && relr, 8))
  }

  /** The running sizes (while layout reserves) or addresses (while layout assigns) of the parts. */
  class PartMap {
    var got: nat
    var pltGot: nat
    var relaPlt: nat
    var relative: nat
    var general: nat
    var relr: nat

    ghost function Value(): Parts
      reads this
    {
      Parts(got, pltGot, relaPlt, relative, general, relr)
    }

    constructor (v: Parts)
      ensures Value() == v
    {
      got, pltGot, relaPlt, relative, general, relr := v.got, v.pltGot, v.relaPlt, v.relative, v.general, v.relr;
    }

    method ReserveAddressReloc(relrEnabled: bool)
      modifies this`relr, this`relative
      ensures relr == old(relr) + Count(relrEnabled, RELR_ENTRY_SIZE)
      ensures relative == old(relative) + Count(!relrEnabled, RELA_ENTRY_SIZE)
    {
      if relrEnabled {
        relr := relr + RELR_ENTRY_SIZE;
      } else {
        relative := relative + RELA_ENTRY_SIZE;
      }
    }

    /** `allocate_resolution`. */
    method AllocateResolution(f: Flags, kind: OutputKind, relrEnabled: bool)
      modifies this
      ensures Value() == old(Value()).Plus(Reserved(f, kind, relrEnabled))
    {
      if f.got && !f.IsTls() {
        got := got + GOT_ENTRY_SIZE;
        if f.plt {
          pltGot := pltGot + PLT_ENTRY_SIZE;
        }
        if f.ifunc {
          relaPlt := relaPlt + RELA_ENTRY_SIZE;
        } else if f.IsInterposable() && f.HasDynamicSymbol() {
          general := general + RELA_ENTRY_SIZE;
        } else if f.IsAddress() && kind.IsRelocatable() {
          ReserveAddressReloc(relrEnabled);
        }
      }
      if f.ifuncGot {
        got := got + GOT_ENTRY_SIZE;
        if kind.IsRelocatable() {
          ReserveAddressReloc(relrEnabled);
        }
      }
      AllocateTls(f, kind);
    }

    /** The last three steps of `allocate_resolution`. */
    method AllocateTls(f: Flags, kind: OutputKind)
      modifies this`got, this`general
      ensures got == old(got) + TlsGot(f)
      ensures general == old(general) + TlsGeneral(f, kind)
    {
      if f.tlsOffset {
        got := got + GOT_ENTRY_SIZE;
        if f.IsInterposable() || kind.SharedObject? {
          general := general + RELA_ENTRY_SIZE;
        }
      }
      if f.tlsModule {
        got := got + GOT_ENTRY_SIZE * 2;
        if !kind.IsExecutable() || f.dynamic {
          general := general + RELA_ENTRY_SIZE;
        }
        if f.IsInterposable() && f.HasDynamicSymbol() {
          general := general + RELA_ENTRY_SIZE;
        }
      }
      if f.tlsDescriptor {
        got := got + GOT_ENTRY_SIZE * 2;
        general := general + RELA_ENTRY_SIZE;
      }
    }

    /** `create_resolution`: takes GOT and PLT addresses from the running offsets, which are never zero. */
    method CreateResolution(f: Flags, raw: nat, dynamicIndex: Option<nat>) returns (r: Resolution)
      requires got > 0 && pltGot > 0
      modifies this`got, this`pltGot
      ensures r == Created(Symbol(f, raw, dynamicIndex), old(Value()))
      ensures Value() == Advanced(f, old(Value()))
    {
      r := Resolution(f, raw, dynamicIndex, None, None);
      if f.plt {
        var plt := pltGot;
        pltGot := pltGot + PLT_ENTRY_SIZE;
        r := r.(pltAddress := Some(plt));
        if f.dynamic {
          r := r.(raw := plt);
        }
        var n := if f.ifuncGot then 2 else 1;
        r := r.(gotAddress := Some(got));
        got := got + GOT_ENTRY_SIZE * n;
      } else if f.IsTls() {
        var n := 0;
        if f.tlsOffset { n := n + 1; }
        if f.tlsModule { n := n + 2; }
        if f.tlsDescriptor { n := n + 2; }
        r := r.(gotAddress := Some(got));
        got := got + GOT_ENTRY_SIZE * n;
      } else if f.got {
        r := r.(gotAddress := Some(got));
        got := got + GOT_ENTRY_SIZE;
      }
    }
  }

  datatype Symbol = Symbol(flags: Flags, raw: nat, dynamicIndex: Option<nat>)

  datatype Resolution = Resolution(flags: Flags, raw: nat, dynamicIndex: Option<nat>,
                                   gotAddress: Option<nat>, pltAddress: Option<nat>)

  function SlotsAssigned(f: Flags): nat {
    if f.plt then 1 + Count(f.ifuncGot, 1)
    else if f.IsTls() then Count(f.tlsOffset, 1) + Count(f.tlsModule, 2) + Count(f.tlsDescriptor, 2)
    else Count(f.got, 1)
  }

  /** The offsets after the addresses of a symbol are taken. */
  function Advanced(f: Flags, at: Parts): Parts {
    at.(got := at.got + GOT_ENTRY_SIZE * SlotsAssigned(f), pltGot := at.pltGot + Count(f.plt, PLT_ENTRY_SIZE))
  }

  function Created(s: Symbol, at: Parts): Resolution {
    Resolution(s.flags, if s.flags.plt && s.flags.dynamic then at.pltGot else s.raw, s.dynamicIndex,
               if SlotsAssigned(s.flags) > 0 then Some(at.got) else None,
               if s.flags.plt then Some(at.pltGot) else None)
  }

  // ---------------------------------------------------------------- the writer

  datatype RelKind = GlobDat | Irelative | Relative | TpOff | DtpMod | DtpOff | TlsDesc

  datatype Rela = Rela(place: nat, symbol: nat, kind: RelKind, addend: int)

  /** What is fixed for a whole run: the output kind, whether RELR entries are written, the TLS segment,
      the thread-pointer origin and the DTV offset of the architecture. */
  datatype Env = Env(kind: OutputKind, relr: bool, tlsStart: nat, tlsEnd: nat, tpStart: nat, dtvOffset: nat)

  /** Everything one step appends to the tables. */
  datatype Emission = Emission(got: seq<nat>, pltGot: seq<(nat, nat)>, relaPlt: seq<Rela>, relative: seq<Rela>,
                               general: seq<Rela>, relr: seq<nat>)
  {
    function Then(e: Emission): Emission {
      Emission(got + e.got, pltGot + e.pltGot, relaPlt + e.relaPlt, relative + e.relative, general + e.general, relr + e.relr)
    }

    function Bytes(): Parts {
      Parts(GOT_ENTRY_SIZE * |got|, PLT_ENTRY_SIZE * |pltGot|, RELA_ENTRY_SIZE * |relaPlt|,
            RELA_ENTRY_SIZE * |relative|, RELA_ENTRY_SIZE * |general|, RELR_ENTRY_SIZE * |relr|)
    }
  }

  const NOTHING: Emission := Emission([], [], [], [], [], [])

  function WrappingSub(a: nat, b: nat): nat { (a - b) % U64 }

  /** The use of a GOT slot. */
  datatype Role = Direct | IfuncAddress | TlsOffsetSlot | TlsModuleSlot | TlsModuleOffsetSlot | DescriptorFn | DescriptorArg

  /** The slots of a symbol that has a GOT address, in address order. */
  function Roles(f: Flags): seq<Role> {
    if f.IsTls() then
      (if f.tlsOffset then [TlsOffsetSlot] else [])
      + (if f.tlsModule then [TlsModuleSlot, TlsModuleOffsetSlot] else [])
      + (if f.tlsDescriptor then [DescriptorFn, DescriptorArg] else [])
    else [Direct] + (if f.ifuncGot then [IfuncAddress] else [])
  }

  /** One address relocation at `place`: the slot's value and the entry that fixes it at load time. */
  function AddressFix(env: Env, place: nat, address: nat): Emission {
    if env.relr && place % 2 == 0 then NOTHING.(got := [address], relr := [place])
    else NOTHING.(got := [0], relative := [Rela(place, 0, Relative, address)])
  }

  function IndexOr0(r: Resolution): nat { if r.dynamicIndex.Some? then r.dynamicIndex.value else 0 }

  /** What a slot must hold, and which relocation must name it, for its use. `None`: the writer refuses. */
  function Fill(env: Env, r: Resolution, role: Role, place: nat): Option<Emission> {
    var f := r.flags;
    var bySymbol := f.dynamic || (f.exportDynamic && f.IsInterposable());
    match role
    case Direct =>
      if f.dynamic || (f.exportDynamic && f.IsInterposable() && !f.ifunc) then
        var symbol :- r.dynamicIndex;
        Some(NOTHING.(got := [0], general := [Rela(place, symbol, GlobDat, 0)]))
      else if f.ifunc then Some(NOTHING.(got := [0], relaPlt := [Rela(place, 0, Irelative, r.raw)]))
      else if f.IsAddress() && env.kind.IsRelocatable() then Some(AddressFix(env, place, r.raw))
      else Some(NOTHING.(got := [r.raw]))
    case IfuncAddress =>
      var plt :- r.pltAddress;
      if env.kind.IsRelocatable() then Some(AddressFix(env, place, plt)) else Some(NOTHING.(got := [plt]))
    case TlsOffsetSlot =>
      if bySymbol then
        var symbol :- r.dynamicIndex;
        Some(NOTHING.(got := [0], general := [Rela(place, symbol, TpOff, 0)]))
      else if r.raw == 0 then Some(NOTHING.(got := [0]))
      else if !(env.tlsStart <= r.raw <= env.tlsEnd) then None
      else if env.kind.IsExecutable() then Some(NOTHING.(got := [WrappingSub(r.raw, env.tpStart)]))
      else Some(NOTHING.(got := [0], general := [Rela(place, 0, TpOff, r.raw - env.tlsStart)]))
    case TlsModuleSlot =>
      if env.kind.IsExecutable() && !f.dynamic then Some(NOTHING.(got := [CURRENT_EXE_TLS_MOD]))
      else Some(NOTHING.(got := [0], general := [Rela(place, IndexOr0(r), DtpMod, 0)]))
    case TlsModuleOffsetSlot =>
      if r.dynamicIndex.Some? then
        Some(NOTHING.(got := [0],
                      general := if f.IsInterposable() then [Rela(place, r.dynamicIndex.value, DtpOff, 0)] else []))
      else if !f.IsAddress() then None
      else Some(NOTHING.(got := [WrappingSub(WrappingSub(r.raw, env.tlsStart), env.dtvOffset)]))
    case DescriptorFn =>
      if env.kind.StaticExecutable? then None
      else Some(NOTHING.(got := [0],
                         general := [Rela(place, IndexOr0(r), TlsDesc,
                                          if r.dynamicIndex.None? then r.raw - env.tlsStart else 0)]))
    case DescriptorArg => Some(NOTHING.(got := [0]))
  }

  /** Filling the slots `roles` at consecutive places. */
  function FillAll(env: Env, r: Resolution, roles: seq<Role>, place: nat): Option<Emission> {
    if roles == [] then Some(NOTHING)
    else
      var first :- Fill(env, r, roles[0], place);
      var rest :- FillAll(env, r, roles[1..], place + GOT_ENTRY_SIZE);
      Some(first.Then(rest))
  }

  /** Everything that must be written for a resolution. */
  function Due(env: Env, r: Resolution): Option<Emission> {
    if r.gotAddress.None? then Some(NOTHING)
    else
      var slots :- FillAll(env, r, Roles(r.flags), r.gotAddress.value);
      Some(slots.(pltGot := if r.pltAddress.Some? && !r.flags.IsTls() then [(r.gotAddress.value, r.pltAddress.value)] else []))
  }

  // ---------------------------------------------------------------- appending to the tables

  /** A writer's tables: what was written and the bytes left in each part. */
  datatype Tables = Tables(out: Emission, room: Parts)

  predicate Fits(need: Parts, room: Parts) {
    && need.got <= room.got && need.pltGot <= room.pltGot && need.relaPlt <= room.relaPlt
    && need.relative <= room.relative && need.general <= room.general && need.relr <= room.relr
  }

  function Minus(a: Parts, b: Parts): Parts
    requires Fits(b, a)
  {
    Parts(a.got - b.got, a.pltGot - b.pltGot, a.relaPlt - b.relaPlt, a.relative - b.relative,
          a.general - b.general, a.relr - b.relr)
  }

  function Append(t: Tables, e: Emission): Option<Tables> {
    if Fits(e.Bytes(), t.room) then Some(Tables(t.out.Then(e), Minus(t.room, e.Bytes()))) else None
  }

  function AppendDue(t: Tables, e: Option<Emission>): Option<Tables> {
    if e.None? then None else Append(t, e.value)
  }

  lemma {:induction false} ThenIsAssociative(a: Emission, b: Emission, c: Emission)
    ensures a.Then(b).Then(c) == a.Then(b.Then(c))
  {
  }

  lemma {:induction false} ThenNothing(a: Emission)
    ensures a.Then(NOTHING) == a && NOTHING.Then(a) == a
  {
  }

  lemma {:induction false} BytesOfThen(a: Emission, b: Emission)
    ensures a.Then(b).Bytes() == a.Bytes().Plus(b.Bytes())
  {
  }

  lemma {:induction false} AppendInSteps(t: Tables, a: Emission, b: Emission)
    ensures Append(t, a.Then(b)) == (if Append(t, a).None? then None else Append(Append(t, a).value, b))
  {
    hide Emission.Then, Emission.Bytes;
    BytesOfThen(a, b);
    ThenIsAssociative(t.out, a, b);
  }

  /** The value of a slot may be appended after the relocation that names it: the tables are independent. */
  lemma {:induction false} GotComesLast(e: Emission, value: nat)
    requires e.got == []
    ensures e.Then(NOTHING.(got := [value])) == e.(got := [value])
  {
  }

  /** The step `before` to `after` appended `e`, or failed because `e` is refused or does not fit. */
  predicate Did(before: Tables, e: Option<Emission>, ok: bool, after: Tables) {
    var due := AppendDue(before, e);
    ok == due.Some? && (ok ==> due == Some(after))
  }

  lemma {:induction false} DidBoth(t0: Tables, a: Option<Emission>, ok1: bool, t1: Tables, b: Option<Emission>, ok2: bool, t2: Tables)
    requires Did(t0, a, ok1, t1)
    requires ok1 ==> Did(t1, b, ok2, t2)
    ensures Did(t0, Both(a, b), ok1 && ok2, t2)
  {
    hide Append;
    if a.Some? && b.Some? {
      AppendInSteps(t0, a.value, b.value);
    }
  }

  function Both(a: Option<Emission>, b: Option<Emission>): Option<Emission> {
    if a.None? || b.None? then None else Some(a.value.Then(b.value))
  }

  class TableWriter {
    const env: Env
    var t: Tables

    constructor (env: Env, room: Parts)
      ensures this.env == env && t == Tables(NOTHING, room)
    {
      this.env := env;
      t := Tables(NOTHING, room);
    }

    /** `take_next_got_entry` and the assignment to the entry. */
    method PutGot(value: nat) returns (ok: bool)
      modifies this
      ensures Did(old(t), Some(NOTHING.(got := [value])), ok, t)
    {
      ok := t.room.got >= GOT_ENTRY_SIZE;
      if ok {
        ghost var was := t;
        t := Tables(t.out.(got := t.out.got + [value]), t.room.(got := t.room.got - GOT_ENTRY_SIZE));
        assert t.out == was.out.Then(NOTHING.(got := [value]));
      }
    }

    /** `write_rela_dyn_general`. */
    method PutGeneral(rela: Rela) returns (ok: bool)
      modifies this
      ensures Did(old(t), Some(NOTHING.(general := [rela])), ok, t)
    {
      ok := t.room.general >= RELA_ENTRY_SIZE;
      if ok {
        ghost var was := t;
        t := Tables(t.out.(general := t.out.general + [rela]), t.room.(general := t.room.general - RELA_ENTRY_SIZE));
        assert t.out == was.out.Then(NOTHING.(general := [rela]));
      }
    }

    /** `write_ifunc_relocation`. */
    method PutRelaPlt(rela: Rela) returns (ok: bool)
      modifies this
      ensures Did(old(t), Some(NOTHING.(relaPlt := [rela])), ok, t)
    {
      ok := t.room.relaPlt >= RELA_ENTRY_SIZE;
      if ok {
        ghost var was := t;
        t := Tables(t.out.(relaPlt := t.out.relaPlt + [rela]), t.room.(relaPlt := t.room.relaPlt - RELA_ENTRY_SIZE));
        assert t.out == was.out.Then(NOTHING.(relaPlt := [rela]));
      }
    }

    /** `write_plt_entry`. */
    method PutPlt(got: nat, plt: nat) returns (ok: bool)
      modifies this
      ensures Did(old(t), Some(NOTHING.(pltGot := [(got, plt)])), ok, t)
    {
      ok := t.room.pltGot >= PLT_ENTRY_SIZE;
      if ok {
        ghost var was := t;
        t := Tables(t.out.(pltGot := t.out.pltGot + [(got, plt)]), t.room.(pltGot := t.room.pltGot - PLT_ENTRY_SIZE));
        assert t.out == was.out.Then(NOTHING.(pltGot := [(got, plt)]));
      }
    }

    /** `write_address_relocation`: the value returned belongs at the place. */
    method WriteAddressRelocation(place: nat, address: nat) returns (ok: bool, value: nat)
      modifies this
      ensures Did(old(t), Some(AddressFix(env, place, address).(got := [])), ok, t)
      ensures AddressFix(env, place, address).got == [value]
    {
      ghost var was := t;
      if env.relr && place % 2 == 0 {
        value := address;
        ok := t.room.relr >= RELR_ENTRY_SIZE;
        if ok {
          t := Tables(t.out.(relr := t.out.relr + [place]), t.room.(relr := t.room.relr - RELR_ENTRY_SIZE));
          assert t.out == was.out.Then(NOTHING.(relr := [place]));
        }
      } else {
        value := 0;
        ok := t.room.relative >= RELA_ENTRY_SIZE;
        if ok {
          var rela := Rela(place, 0, Relative, address);
          t := Tables(t.out.(relative := t.out.relative + [rela]), t.room.(relative := t.room.relative - RELA_ENTRY_SIZE));
          assert t.out == was.out.Then(NOTHING.(relative := [rela]));
        }
      }
    }

    /** A slot whose value is fixed by an address relocation. */
    method PutAddress(place: nat, address: nat) returns (ok: bool)
      modifies this
      ensures Did(old(t), Some(AddressFix(env, place, address)), ok, t)
    {
      hide Did;
      ghost var was := t;
      var value;
      ok, value := WriteAddressRelocation(place, address);
      ghost var e := AddressFix(env, place, address).(got := []);
      GotComesLast(e, value);
      ghost var ok1, t1 := ok, t;
      if ok {
        ok := PutGot(value);
      }
      DidBoth(was, Some(e), ok1, t1, Some(NOTHING.(got := [value])), ok, t);
    }

    /** A slot and one general relocation that names it. */
    method PutGotWith(value: nat, rela: Rela) returns (ok: bool)
      modifies this
      ensures Did(old(t), Some(NOTHING.(got := [value], general := [rela])), ok, t)
    {
      hide Did;
      ghost var was := t;
      ok := PutGeneral(rela);
      ghost var e := NOTHING.(general := [rela]);
      GotComesLast(e, value);
      ghost var ok1, t1 := ok, t;
      if ok {
        ok := PutGot(value);
      }
      DidBoth(was, Some(e), ok1, t1, Some(NOTHING.(got := [value])), ok, t);
    }

    /** `process_got_tls_offset`. */
    method ProcessTlsOffset(r: Resolution, place: nat) returns (ok: bool)
      modifies this
      ensures Did(old(t), Fill(env, r, TlsOffsetSlot, place), ok, t)
    {
      if r.flags.dynamic || (r.flags.exportDynamic && r.flags.IsInterposable()) {
        if r.dynamicIndex.None? {
          return false;
        }
        ok := PutGotWith(0, Rela(place, r.dynamicIndex.value, TpOff, 0));
      } else if r.raw == 0 {
        ok := PutGot(0);
      } else if !(env.tlsStart <= r.raw <= env.tlsEnd) {
        ok := false;
      } else if env.kind.IsExecutable() {
        ok := PutGot(WrappingSub(r.raw, env.tpStart));
      } else {
        ok := PutGotWith(0, Rela(place, 0, TpOff, r.raw - env.tlsStart));
      }
    }

    /** The first half of `process_got_tls_mod_and_offset`. */
    method ProcessTlsModuleSlot(r: Resolution, place: nat) returns (ok: bool)
      modifies this
      ensures Did(old(t), Fill(env, r, TlsModuleSlot, place), ok, t)
    {
      if env.kind.IsExecutable() && !r.flags.dynamic {
        ok := PutGot(CURRENT_EXE_TLS_MOD);
      } else {
        ok := PutGotWith(0, Rela(place, IndexOr0(r), DtpMod, 0));
      }
    }

    /** The second half of `process_got_tls_mod_and_offset`. */
    method ProcessTlsModuleOffset(r: Resolution, place: nat) returns (ok: bool)
      modifies this
      ensures Did(old(t), Fill(env, r, TlsModuleOffsetSlot, place), ok, t)
    {
      if r.dynamicIndex.Some? {
        if r.flags.IsInterposable() {
          ok := PutGotWith(0, Rela(place, r.dynamicIndex.value, DtpOff, 0));
        } else {
          ok := PutGot(0);
        }
      } else if !r.flags.IsAddress() {
        ok := false;
      } else {
        ok := PutGot(WrappingSub(WrappingSub(r.raw, env.tlsStart), env.dtvOffset));
      }
    }

    method ProcessTlsModule(r: Resolution, place: nat) returns (ok: bool)
      modifies this
      ensures Did(old(t), FillAll(env, r, [TlsModuleSlot, TlsModuleOffsetSlot], place), ok, t)
    {
      hide Did, Fill;
      ghost var was := t;
      ok := ProcessTlsModuleSlot(r, place);
      ghost var ok1, t1 := ok, t;
      if ok {
        ok := ProcessTlsModuleOffset(r, place + GOT_ENTRY_SIZE);
      }
      DidBoth(was, Fill(env, r, TlsModuleSlot, place), ok1, t1, Fill(env, r, TlsModuleOffsetSlot, place + GOT_ENTRY_SIZE), ok, t);
      FillTwo(env, r, TlsModuleSlot, TlsModuleOffsetSlot, place);
    }

    /** `process_got_tls_descriptor`. */
    method ProcessTlsDescriptor(r: Resolution, place: nat) returns (ok: bool)
      modifies this
      ensures Did(old(t), FillAll(env, r, [DescriptorFn, DescriptorArg], place), ok, t)
    {
      hide Did;
      FillTwo(env, r, DescriptorFn, DescriptorArg, place);
      if env.kind.StaticExecutable? {
        Refused(t);
        return false;
      }
      ghost var was := t;
      var rela := Rela(place, IndexOr0(r), TlsDesc, if r.dynamicIndex.None? then r.raw - env.tlsStart else 0);
      ok := PutGotWith(0, rela);
      ghost var ok1, t1 := ok, t;
      if ok {
        ok := PutGot(0);
      }
      DidBoth(was, Some(NOTHING.(got := [0], general := [rela])), ok1, t1, Some(NOTHING.(got := [0])), ok, t);
    }

    /** The first slot of a symbol without thread-local slots. */
    method ProcessDirect(r: Resolution, place: nat) returns (ok: bool)
      requires r.gotAddress == Some(place)
      modifies this
      ensures Did(old(t), Fill(env, r, Direct, place), ok, t)
    {
      hide Did;
      var f := r.flags;
      if f.dynamic || (f.exportDynamic && f.IsInterposable() && !f.ifunc) {
        if r.dynamicIndex.None? {
          Refused(t);
          return false;
        }
        ok := PutGotWith(0, Rela(place, r.dynamicIndex.value, GlobDat, 0));
      } else if f.ifunc {
        ghost var was := t;
        var rela := Rela(r.gotAddress.value, 0, Irelative, r.raw);
        ok := PutRelaPlt(rela);
        ghost var ok1, t1 := ok, t;
        GotComesLast(NOTHING.(relaPlt := [rela]), 0);
        if ok {
          ok := PutGot(0);
        }
        DidBoth(was, Some(NOTHING.(relaPlt := [rela])), ok1, t1, Some(NOTHING.(got := [0])), ok, t);
      } else if f.IsAddress() && env.kind.IsRelocatable() {
        ok := PutAddress(place, r.raw);
      } else {
        ok := PutGot(r.raw);
      }
    }

    /** The slot that holds the PLT address of an ifunc. */
    method ProcessIfuncAddress(r: Resolution, place: nat) returns (ok: bool)
      modifies this
      ensures Did(old(t), Fill(env, r, IfuncAddress, place), ok, t)
    {
      hide Did;
      if r.pltAddress.None? {
        Refused(t);
        return false;
      }
      if env.kind.IsRelocatable() {
        ok := PutAddress(place, r.pltAddress.value);
      } else {
        ok := PutGot(r.pltAddress.value);
      }
    }

    /** The thread-local arm of `process_resolution`. */
    method ProcessTls(r: Resolution, place: nat) returns (ok: bool)
      requires r.flags.IsTls()
      modifies this
      ensures Did(old(t), FillAll(env, r, Roles(r.flags), place), ok, t)
    {
      hide Did, Fill, FillAll;
      ghost var a := if r.flags.tlsOffset then [TlsOffsetSlot] else [];
      ghost var b := if r.flags.tlsModule then [TlsModuleSlot, TlsModuleOffsetSlot] else [];
      ghost var c := if r.flags.tlsDescriptor then [DescriptorFn, DescriptorArg] else [];
      ghost var t0 := t;
      FillNone(env, r, place);
      Idle(t);
      ok := true;
      var at := place;
      if r.flags.tlsOffset {
        ok := ProcessTlsOffset(r, at);
        at := at + GOT_ENTRY_SIZE;
        FillOne(env, r, TlsOffsetSlot, place);
      }
      ghost var ok1, t1 := ok, t;
      assert Did(t0, FillAll(env, r, a, place), ok1, t1);
      FillNone(env, r, at);
      Idle(t);
      if ok && r.flags.tlsModule {
        ok := ProcessTlsModule(r, at);
      }
      ghost var ok2, t2 := ok, t;
      assert ok1 ==> Did(t1, FillAll(env, r, b, at), ok2, t2);
      DidBoth(t0, FillAll(env, r, a, place), ok1, t1, FillAll(env, r, b, at), ok2, t2);
      FillJoin(env, r, a, b, place);
      if r.flags.tlsModule {
        at := at + 2 * GOT_ENTRY_SIZE;
      }
      FillNone(env, r, at);
      Idle(t);
      if ok && r.flags.tlsDescriptor {
        ok := ProcessTlsDescriptor(r, at);
      }
      assert ok2 ==> Did(t2, FillAll(env, r, c, at), ok, t);
      DidBoth(t0, FillAll(env, r, a + b, place), ok2, t2, FillAll(env, r, c, at), ok, t);
      FillJoin(env, r, a + b, c, place);
    }

    /** `process_resolution`. */
    method ProcessResolution(r: Resolution) returns (ok: bool)
      modifies this
      ensures Did(old(t), Due(env, r), ok, t)
    {
      hide Did, Fill, FillAll;
      if r.gotAddress.None? {
        Idle(t);
        return true;
      }
      var place := r.gotAddress.value;
      ghost var t0 := t;
      if r.flags.IsTls() {
        ok := ProcessTls(r, place);
        DueWithoutPlt(env, r);
        return;
      }
      ok := ProcessDirect(r, place);
      ghost var plt := if r.pltAddress.Some? then NOTHING.(pltGot := [(place, r.pltAddress.value)]) else NOTHING;
      ghost var ok1, t1 := ok, t;
      Idle(t);
      if ok && r.pltAddress.Some? {
        ok := PutPlt(place, r.pltAddress.value);
      }
      ghost var ok2, t2 := ok, t;
      DidBoth(t0, Fill(env, r, Direct, place), ok1, t1, Some(plt), ok2, t2);
      Idle(t);
      FillNone(env, r, place + GOT_ENTRY_SIZE);
      FillOne(env, r, IfuncAddress, place + GOT_ENTRY_SIZE);
      if ok && r.flags.ifuncGot {
        ok := ProcessIfuncAddress(r, place + GOT_ENTRY_SIZE);
      }
      ghost var rest := if r.flags.ifuncGot then [IfuncAddress] else [];
      DidBoth(t0, Both(Fill(env, r, Direct, place), Some(plt)), ok2, t2, FillAll(env, r, rest, place + GOT_ENTRY_SIZE), ok, t);
      DueDirect(env, r, plt);
    }
  }

  lemma {:induction false} Idle(t: Tables)
    ensures Did(t, Some(NOTHING), true, t)
  {
    ThenNothing(t.out);
  }

  lemma {:induction false} FillJoin(env: Env, r: Resolution, a: seq<Role>, b: seq<Role>, place: nat)
    ensures FillAll(env, r, a + b, place)
            == Both(FillAll(env, r, a, place), FillAll(env, r, b, place + GOT_ENTRY_SIZE * |a|))
    decreases |a|
  {
    hide Fill, Emission.Then;
    if a == [] {
      assert a + b == b;
      var rest := FillAll(env, r, b, place);
      if rest.Some? {
        ThenNothing(rest.value);
      }
    } else {
      assert (a + b)[0] == a[0] && (a + b)[1..] == a[1..] + b;
      FillJoin(env, r, a[1..], b, place + GOT_ENTRY_SIZE);
      var x, y, z := Fill(env, r, a[0], place), FillAll(env, r, a[1..], place + GOT_ENTRY_SIZE), FillAll(env, r, b, place + GOT_ENTRY_SIZE * |a|);
      if x.Some? && y.Some? && z.Some? {
        ThenIsAssociative(x.value, y.value, z.value);
      }
    }
  }

  lemma {:induction false} Refused(t: Tables)
    ensures Did(t, None, false, t)
  {
  }

  lemma {:induction false} FillTwo(env: Env, r: Resolution, a: Role, b: Role, place: nat)
    ensures FillAll(env, r, [a, b], place) == Both(Fill(env, r, a, place), Fill(env, r, b, place + GOT_ENTRY_SIZE))
  {
    hide Fill;
    FillOne(env, r, b, place + GOT_ENTRY_SIZE);
    assert [a, b][1..] == [b];
  }

  lemma {:induction false} FillOne(env: Env, r: Resolution, a: Role, place: nat)
    ensures FillAll(env, r, [a], place) == Fill(env, r, a, place)
  {
    hide Fill;
    assert [a][1..] == [];
    if Fill(env, r, a, place).Some? {
      ThenNothing(Fill(env, r, a, place).value);
    }
  }

  lemma {:induction false} FillNone(env: Env, r: Resolution, place: nat)
    ensures FillAll(env, r, [], place) == Some(NOTHING)
  {
  }

  lemma {:induction false} FillNoPlt(env: Env, r: Resolution, roles: seq<Role>, place: nat)
    ensures FillAll(env, r, roles, place).Some? ==> FillAll(env, r, roles, place).value.pltGot == []
    decreases |roles|
  {
    if roles != [] {
      FillNoPlt(env, r, roles[1..], place + GOT_ENTRY_SIZE);
    }
  }

  lemma {:induction false} DueWithoutPlt(env: Env, r: Resolution)
    requires r.gotAddress.Some? && r.flags.IsTls()
    ensures Due(env, r) == FillAll(env, r, Roles(r.flags), r.gotAddress.value)
  {
    FillNoPlt(env, r, Roles(r.flags), r.gotAddress.value);
  }

  lemma {:induction false} DueDirect(env: Env, r: Resolution, plt: Emission)
    requires r.gotAddress.Some? && !r.flags.IsTls()
    requires plt == if r.pltAddress.Some? then NOTHING.(pltGot := [(r.gotAddress.value, r.pltAddress.value)]) else NOTHING
    ensures var place := r.gotAddress.value;
            Due(env, r) == Both(Both(Fill(env, r, Direct, place), Some(plt)),
                                FillAll(env, r, if r.flags.ifuncGot then [IfuncAddress] else [], place + GOT_ENTRY_SIZE))
  {
    hide Fill;
    var place := r.gotAddress.value;
    var rest := if r.flags.ifuncGot then [IfuncAddress] else [];
    var roles := Roles(r.flags);
    assert roles == [Direct] + rest && roles[1..] == rest;
    var x, y := Fill(env, r, Direct, place), FillAll(env, r, rest, place + GOT_ENTRY_SIZE);
    FillNoPlt(env, r, [Direct], place);
    FillOne(env, r, Direct, place);
    FillNoPlt(env, r, rest, place + GOT_ENTRY_SIZE);
    if x.Some? && y.Some? {
      PltAside(x.value, y.value, plt);
    }
  }

  lemma {:induction false} PltAside(x: Emission, y: Emission, plt: Emission)
    requires x.pltGot == [] && y.pltGot == [] && plt == NOTHING.(pltGot := plt.pltGot)
    ensures x.Then(plt).Then(y) == x.Then(y).(pltGot := plt.pltGot)
  {
  }

  // ---------------------------------------------------------------- one resolution

  /** Layout reserves a general relocation for a thread-pointer offset that the writer finds undefined. */
  predicate Surplus(kind: OutputKind, s: Symbol) {
    s.flags.tlsOffset && s.flags.nonInterposable && kind.SharedObject? && s.raw == 0
  }

  /** What the rest of layout guarantees of a symbol. A relocatable output loads no relocations, so none of its symbols
      has thread-local slots. */
  predicate GoodSymbol(kind: OutputKind, s: Symbol) {
    && WellFormed(s.flags) && (s.dynamicIndex.Some? <==> s.flags.HasDynamicSymbol())
    && (kind.Relocatable? ==> !s.flags.IsTls())
  }

  /** Whether a slot's value is an address that must move with the image. */
  predicate NeedsAddress(kind: OutputKind, f: Flags, role: Role) {
    kind.IsRelocatable() && (role.IfuncAddress? || (role.Direct? && f.IsAddress() && f.nonInterposable))
  }

  /** Whether a slot is named by a relocation in the general part. */
  predicate NeedsGeneral(kind: OutputKind, s: Symbol, role: Role) {
    match role
    case Direct => s.flags.IsInterposable() && !s.flags.ifunc
    case IfuncAddress => false
    case TlsOffsetSlot => s.flags.IsInterposable() || (!kind.IsExecutable() && s.raw != 0)
    case TlsModuleSlot => !kind.IsExecutable() || s.flags.dynamic
    case TlsModuleOffsetSlot => s.flags.IsInterposable()
    case DescriptorFn => true
    case DescriptorArg => false
  }

  /** The bytes taken by one slot at an even place and the relocations that name it. */
  function SlotBytes(env: Env, s: Symbol, role: Role): Parts {
    var address := NeedsAddress(env.kind, s.flags, role);
    Parts(GOT_ENTRY_SIZE, 0, Count(role.Direct? && s.flags.ifunc, RELA_ENTRY_SIZE),
          Count(address && !env.relr, RELA_ENTRY_SIZE),
          Count(NeedsGeneral(env.kind, s, role), RELA_ENTRY_SIZE),
          Count(address && env.relr, RELR_ENTRY_SIZE))
  }

  lemma {:induction false} FillBytes(env: Env, s: Symbol, at: Parts, role: Role, place: nat)
    requires GoodSymbol(env.kind, s) && place % 2 == 0
    requires role.TlsOffsetSlot? ==> !s.flags.plt
    requires Fill(env, Created(s, at), role, place).Some?
    ensures Fill(env, Created(s, at), role, place).value.Bytes() == SlotBytes(env, s, role)
  {
  }

  lemma {:induction false} NothingHasNoBytes()
    ensures NOTHING.Bytes() == ZERO
  {
  }

  lemma {:induction false} OneSlot(env: Env, r: Resolution, role: Role, place: nat)
    ensures Fill(env, r, role, place).Some? ==> |Fill(env, r, role, place).value.got| == 1
  {
  }

  /** The bytes written are the bytes reserved, but for `surplus` unused bytes in the general part. */
  predicate BalancedBy(written: Parts, reserved: Parts, surplus: nat) {
    && written.got == reserved.got && written.pltGot == reserved.pltGot && written.relaPlt == reserved.relaPlt
    && written.relative == reserved.relative && written.relr == reserved.relr
    && written.general + surplus == reserved.general
  }

  /** The bytes written are the bytes reserved, but for one general relocation in the exceptional case. */
  predicate Balanced(written: Parts, reserved: Parts, surplus: bool) {
    BalancedBy(written, reserved, Count(surplus, RELA_ENTRY_SIZE))
  }

  function PltBytes(f: Flags): Parts { ZERO.(pltGot := Count(f.plt, PLT_ENTRY_SIZE)) }

  function Where(b: bool, p: Parts): Parts { if b then p else ZERO }

  /** The slots `roles` at an even place are filled, with these bytes in all. */
  predicate FilledWith(env: Env, s: Symbol, at: Parts, roles: seq<Role>, place: nat, bytes: Parts) {
    var e := FillAll(env, Created(s, at), roles, place);
    e.Some? ==> e.value.Bytes() == bytes && |e.value.got| == |roles|
  }

  lemma {:induction false} FilledNone(env: Env, s: Symbol, at: Parts, place: nat)
    ensures FilledWith(env, s, at, [], place, ZERO)
  {
    NothingHasNoBytes();
  }

  lemma {:induction false} FilledOne(env: Env, s: Symbol, at: Parts, a: Role, place: nat)
    requires GoodSymbol(env.kind, s) && place % 2 == 0 && (a.TlsOffsetSlot? ==> !s.flags.plt)
    ensures FilledWith(env, s, at, [a], place, SlotBytes(env, s, a))
  {
    hide Fill, Created, FillAll, SlotBytes, Emission.Bytes;
    var r := Created(s, at);
    FillOne(env, r, a, place);
    OneSlot(env, r, a, place);
    if Fill(env, r, a, place).Some? {
      FillBytes(env, s, at, a, place);
    }
  }

  lemma {:induction false} FilledJoin(env: Env, s: Symbol, at: Parts, a: seq<Role>, b: seq<Role>, place: nat, x: Parts, y: Parts)
    requires FilledWith(env, s, at, a, place, x) && FilledWith(env, s, at, b, place + GOT_ENTRY_SIZE * |a|, y)
    ensures FilledWith(env, s, at, a + b, place, x.Plus(y))
  {
    hide Fill, Created, FillAll, Emission.Bytes, Parts.Plus;
    var r := Created(s, at);
    FillJoin(env, r, a, b, place);
    var e, f := FillAll(env, r, a, place), FillAll(env, r, b, place + GOT_ENTRY_SIZE * |a|);
    if e.Some? && f.Some? {
      BytesOfThen(e.value, f.value);
      GotOfThen(e.value, f.value);
    }
  }

  /** Both slots of a symbol without thread-local slots. */
  lemma {:induction false} DirectFilled(env: Env, s: Symbol, at: Parts, place: nat, x: Parts, y: Parts)
    requires !s.flags.IsTls()
    requires FilledWith(env, s, at, [Direct], place, x)
    requires FilledWith(env, s, at, if s.flags.ifuncGot then [IfuncAddress] else [], place + 8, y)
    ensures FilledWith(env, s, at, Roles(s.flags), place, x.Plus(y))
  {
    hide FilledWith, Parts.Plus;
    FilledJoin(env, s, at, [Direct], if s.flags.ifuncGot then [IfuncAddress] else [], place, x, y);
  }

  lemma {:induction false} DirectBytes(env: Env, s: Symbol)
    requires GoodSymbol(env.kind, s) && !s.flags.IsTls() && s.flags.got
    ensures Balanced4(SlotBytes(env, s, Direct), Where(s.flags.ifuncGot, SlotBytes(env, s, IfuncAddress)), PltBytes(s.flags), ZERO,
                      Reserved(s.flags, env.kind, env.relr), Surplus(env.kind, s))
  {
  }

  /** `Balanced` of a sum of four, part by part. */
  predicate Balanced4(x: Parts, y: Parts, z: Parts, w: Parts, reserved: Parts, surplus: bool) {
    && x.got + y.got + z.got + w.got == reserved.got && x.pltGot + y.pltGot + z.pltGot + w.pltGot == reserved.pltGot
    && x.relaPlt + y.relaPlt + z.relaPlt + w.relaPlt == reserved.relaPlt
    && x.relative + y.relative + z.relative + w.relative == reserved.relative
    && x.relr + y.relr + z.relr + w.relr == reserved.relr
    && x.general + y.general + z.general + w.general + Count(surplus, RELA_ENTRY_SIZE)
       == reserved.general
  }

  lemma {:induction false} BalancedSum(x: Parts, y: Parts, z: Parts, w: Parts, reserved: Parts, surplus: bool)
    requires Balanced4(x, y, z, w, reserved, surplus)
    ensures Balanced(x.Plus(y).Plus(z).Plus(w), reserved, surplus)
  {
  }

  lemma {:induction false} PlusZero(x: Parts)
    ensures x.Plus(ZERO) == x
  {
  }

  /** The bytes of the slots for module and offset. */
  function ModuleBytes(env: Env, s: Symbol): Parts {
    Parts(16, 0, 0, 0, Count(!env.kind.IsExecutable() || s.flags.dynamic, 24) + Count(s.flags.IsInterposable(), 24), 0)
  }

  /** The bytes of the slots of a descriptor. */
  function DescriptorBytes(): Parts { Parts(16, 0, 0, 0, 24, 0) }

  lemma {:induction false} PairFilled(env: Env, s: Symbol, at: Parts, a: Role, b: Role, place: nat)
    requires GoodSymbol(env.kind, s) && place % 2 == 0 && !a.TlsOffsetSlot? && !b.TlsOffsetSlot?
    ensures FilledWith(env, s, at, [a, b], place, SlotBytes(env, s, a).Plus(SlotBytes(env, s, b)))
  {
    hide FilledWith, SlotBytes, Parts.Plus, GoodSymbol;
    FilledOne(env, s, at, a, place);
    FilledOne(env, s, at, b, place + 8);
    FilledJoin(env, s, at, [a], [b], place, SlotBytes(env, s, a), SlotBytes(env, s, b));
    assert [a] + [b] == [a, b];
  }

  lemma {:induction false} TlsFilled(env: Env, s: Symbol, at: Parts, place: nat)
    requires GoodSymbol(env.kind, s) && s.flags.IsTls() && place % 2 == 0
    ensures FilledWith(env, s, at, Roles(s.flags), place,
                       Where(s.flags.tlsOffset, SlotBytes(env, s, TlsOffsetSlot)).Plus(Where(s.flags.tlsModule, ModuleBytes(env, s)))
                       .Plus(Where(s.flags.tlsDescriptor, DescriptorBytes())))
  {
    hide FilledWith, SlotBytes, Parts.Plus, ModuleBytes, DescriptorBytes;
    var a := if s.flags.tlsOffset then [TlsOffsetSlot] else [];
    var b := if s.flags.tlsModule then [TlsModuleSlot, TlsModuleOffsetSlot] else [];
    var c := if s.flags.tlsDescriptor then [DescriptorFn, DescriptorArg] else [];
    var x, y, z := Where(s.flags.tlsOffset, SlotBytes(env, s, TlsOffsetSlot)), Where(s.flags.tlsModule, ModuleBytes(env, s)),
      Where(s.flags.tlsDescriptor, DescriptorBytes());
    var q, t := place + 8 * |a|, place + 8 * |a + b|;
    TlsPairs(env, s);
    FilledNone(env, s, at, place);
    FilledNone(env, s, at, q);
    FilledNone(env, s, at, t);
    if s.flags.tlsOffset { FilledOne(env, s, at, TlsOffsetSlot, place); }
    if s.flags.tlsModule { PairFilled(env, s, at, TlsModuleSlot, TlsModuleOffsetSlot, q); }
    if s.flags.tlsDescriptor { PairFilled(env, s, at, DescriptorFn, DescriptorArg, t); }
    FilledJoin(env, s, at, a, b, place, x, y);
    FilledJoin(env, s, at, a + b, c, place, x.Plus(y), z);
  }

  lemma {:induction false} TlsPairs(env: Env, s: Symbol)
    ensures SlotBytes(env, s, TlsModuleSlot).Plus(SlotBytes(env, s, TlsModuleOffsetSlot)) == ModuleBytes(env, s)
    ensures SlotBytes(env, s, DescriptorFn).Plus(SlotBytes(env, s, DescriptorArg)) == DescriptorBytes()
  {
    hide Parts.Plus;
    PairIs(SlotBytes(env, s, TlsModuleSlot), SlotBytes(env, s, TlsModuleOffsetSlot), ModuleBytes(env, s));
    PairIs(SlotBytes(env, s, DescriptorFn), SlotBytes(env, s, DescriptorArg), DescriptorBytes());
  }

  lemma {:induction false} PairIs(x: Parts, y: Parts, w: Parts)
    requires x.got + y.got == w.got && x.pltGot + y.pltGot == w.pltGot
    requires x.relaPlt + y.relaPlt == w.relaPlt && x.relative + y.relative == w.relative
    requires x.general + y.general == w.general && x.relr + y.relr == w.relr
    ensures x.Plus(y) == w
  {
  }

  lemma {:induction false} TlsBytes(env: Env, s: Symbol)
    requires GoodSymbol(env.kind, s) && s.flags.IsTls()
    ensures Balanced4(Where(s.flags.tlsOffset, SlotBytes(env, s, TlsOffsetSlot)), Where(s.flags.tlsModule, ModuleBytes(env, s)),
                      Where(s.flags.tlsDescriptor, DescriptorBytes()), PltBytes(s.flags),
                      Reserved(s.flags, env.kind, env.relr), Surplus(env.kind, s))
  {
  }

  lemma {:induction false} SlotsAreRoles(s: Symbol)
    requires WellFormed(s.flags)
    ensures SlotsAssigned(s.flags) > 0 ==> |Roles(s.flags)| == SlotsAssigned(s.flags)
    ensures SlotsAssigned(s.flags) > 0 <==> s.flags.IsTls() || s.flags.got
  {
  }

  lemma {:induction false} WhereIs(b: bool, p: Parts)
    ensures Where(b, p) == if b then p else ZERO
  {
  }

  lemma {:induction false} SlotsBalance(env: Env, s: Symbol, at: Parts, place: nat)
    requires GoodSymbol(env.kind, s) && SlotsAssigned(s.flags) > 0 && place % 2 == 0
    requires FillAll(env, Created(s, at), Roles(s.flags), place).Some?
    ensures var e := FillAll(env, Created(s, at), Roles(s.flags), place).value;
            && Balanced(e.Bytes().Plus(PltBytes(s.flags)), Reserved(s.flags, env.kind, env.relr),
                        Surplus(env.kind, s))
            && |e.got| == SlotsAssigned(s.flags)
  {
    hide FillAll, SlotBytes, Reserved, Balanced, Balanced4, ModuleBytes, DescriptorBytes, Parts.Plus, Where, PltBytes, Emission.Bytes, Created;
    var reserved, surplus := Reserved(s.flags, env.kind, env.relr), Surplus(env.kind, s);
    var plt := PltBytes(s.flags);
    SlotsAreRoles(s);
    if s.flags.IsTls() {
      TlsFilled(env, s, at, place);
      TlsBytes(env, s);
      BalancedSum(Where(s.flags.tlsOffset, SlotBytes(env, s, TlsOffsetSlot)), Where(s.flags.tlsModule, ModuleBytes(env, s)),
                  Where(s.flags.tlsDescriptor, DescriptorBytes()), plt, reserved, surplus);
    } else {
      var x, y := SlotBytes(env, s, Direct), Where(s.flags.ifuncGot, SlotBytes(env, s, IfuncAddress));
      WhereIs(s.flags.ifuncGot, SlotBytes(env, s, IfuncAddress));
      FilledOne(env, s, at, Direct, place);
      FilledOne(env, s, at, IfuncAddress, place + 8);
      FilledNone(env, s, at, place + 8);
      DirectFilled(env, s, at, place, x, y);
      DirectBytes(env, s);
      BalancedSum(x, y, plt, ZERO, reserved, surplus);
      PlusZero(x.Plus(y).Plus(plt));
    }
  }

  /** The relocations written and the slots filled for a symbol are the ones reserved, up to the one exception. */
  lemma {:induction false} Accounting(env: Env, s: Symbol, at: Parts)
    requires GoodSymbol(env.kind, s) && at.got % 2 == 0
    requires Due(env, Created(s, at)).Some?
    ensures Balanced(Due(env, Created(s, at)).value.Bytes(), Reserved(s.flags, env.kind, env.relr),
                     Surplus(env.kind, s))
    ensures |Due(env, Created(s, at)).value.got| == SlotsAssigned(s.flags)
  {
    hide Fill, FillAll, Reserved, Balanced;
    SlotsAreRoles(s);
    if SlotsAssigned(s.flags) == 0 {
      NothingReserved(s, env.kind, env.relr);
    } else {
      FillNoPlt(env, Created(s, at), Roles(s.flags), at.got);
      DueBytes(env, s, at);
      SlotsBalance(env, s, at, at.got);
    }
  }

  lemma {:induction false} DueBytes(env: Env, s: Symbol, at: Parts)
    requires WellFormed(s.flags) && SlotsAssigned(s.flags) > 0
    requires FillAll(env, Created(s, at), Roles(s.flags), at.got).Some?
    ensures var e := FillAll(env, Created(s, at), Roles(s.flags), at.got).value;
            Due(env, Created(s, at)).value.Bytes() == e.Bytes().Plus(PltBytes(s.flags))
  {
    hide Fill, FillAll, Roles;
    FillNoPlt(env, Created(s, at), Roles(s.flags), at.got);
  }

  lemma {:induction false} NothingReserved(s: Symbol, kind: OutputKind, relr: bool)
    requires WellFormed(s.flags) && SlotsAssigned(s.flags) == 0
    ensures Balanced(NOTHING.Bytes(), Reserved(s.flags, kind, relr), Surplus(kind, s))
  {
  }

  // ---------------------------------------------------------------- whole runs

  /** What layout reserves for all symbols. */
  function Total(symbols: seq<Symbol>, kind: OutputKind, relr: bool): Parts {
    if symbols == [] then ZERO else Reserved(symbols[0].flags, kind, relr).Plus(Total(symbols[1..], kind, relr))
  }

  /** The resolutions layout creates, in order, from the first offsets. */
  function CreateAll(symbols: seq<Symbol>, at: Parts): (rs: seq<Resolution>)
    ensures |rs| == |symbols|
  {
    if symbols == [] then [] else [Created(symbols[0], at)] + CreateAll(symbols[1..], Advanced(symbols[0].flags, at))
  }

  /** Everything that must be written for all resolutions. */
  function DueAll(env: Env, rs: seq<Resolution>): Option<Emission> {
    if rs == [] then Some(NOTHING) else Both(Due(env, rs[0]), DueAll(env, rs[1..]))
  }

  function SurplusBytes(kind: OutputKind, symbols: seq<Symbol>): nat {
    if symbols == [] then 0 else Count(Surplus(kind, symbols[0]), RELA_ENTRY_SIZE) + SurplusBytes(kind, symbols[1..])
  }

  predicate AllGood(kind: OutputKind, symbols: seq<Symbol>) { forall i :: 0 <= i < |symbols| ==> GoodSymbol(kind, symbols[i]) }

  predicate NoException(kind: OutputKind, symbols: seq<Symbol>) {
    forall i :: 0 <= i < |symbols| ==> !Surplus(kind, symbols[i])
  }

  lemma {:induction false} AdvancedStaysEven(f: Flags, at: Parts)
    requires at.got % 2 == 0
    ensures Advanced(f, at).got % 2 == 0
  {
  }

  lemma {:induction false} BalancedPlus(a: Parts, b: Parts, c: Parts, d: Parts, s: bool, s': nat)
    requires Balanced(a, b, s) && BalancedBy(c, d, s')
    ensures BalancedBy(a.Plus(c), b.Plus(d), Count(s, RELA_ENTRY_SIZE) + s')
  {
  }

  lemma {:induction false} NothingBalances()
    ensures BalancedBy(NOTHING.Bytes(), ZERO, 0)
  {
  }

  lemma {:induction false} RunAccounting(env: Env, symbols: seq<Symbol>, at: Parts)
    requires AllGood(env.kind, symbols) && at.got % 2 == 0
    requires DueAll(env, CreateAll(symbols, at)).Some?
    ensures BalancedBy(DueAll(env, CreateAll(symbols, at)).value.Bytes(), Total(symbols, env.kind, env.relr),
                       SurplusBytes(env.kind, symbols))
    decreases |symbols|
  {
    hide Due, Balanced, BalancedBy, Emission.Bytes, Emission.Then, Parts.Plus, Reserved, Surplus, GoodSymbol, Created, Advanced, Count;
    if symbols == [] {
      NothingBalances();
    } else {
      var s, rest := symbols[0], symbols[1..];
      AdvancedStaysEven(s.flags, at);
      Accounting(env, s, at);
      var later := Advanced(s.flags, at);
      assert CreateAll(symbols, at)[1..] == CreateAll(rest, later);
      RunAccounting(env, rest, later);
      var e, e' := Due(env, Created(s, at)).value, DueAll(env, CreateAll(rest, later)).value;
      BytesOfThen(e, e');
      BalancedPlus(e.Bytes(), Reserved(s.flags, env.kind, env.relr), e'.Bytes(), Total(rest, env.kind, env.relr),
                   Surplus(env.kind, s), SurplusBytes(env.kind, rest));
    }
  }

  lemma {:induction false} NoneExceptional(kind: OutputKind, symbols: seq<Symbol>)
    ensures SurplusBytes(kind, symbols) == 0 <==> NoException(kind, symbols)
    decreases |symbols|
  {
    if symbols != [] {
      NoneExceptional(kind, symbols[1..]);
      assert forall i :: 0 < i < |symbols| ==> symbols[i] == symbols[1..][i - 1];
    }
  }

  lemma {:induction false} NoRelrNeeded(symbols: seq<Symbol>, kind: OutputKind)
    requires Total(symbols, kind, true).relr == 0
    ensures Total(symbols, kind, true) == Total(symbols, kind, false)
    decreases |symbols|
  {
    hide Reserved;
    if symbols != [] {
      NoRelrNeeded(symbols[1..], kind);
      NoRelrForOne(symbols[0].flags, kind);
    }
  }

  lemma {:induction false} NoRelrForOne(f: Flags, kind: OutputKind)
    ensures Reserved(f, kind, true).relr == 0 ==> Reserved(f, kind, true) == Reserved(f, kind, false)
  {
  }

  lemma {:induction false} TotalOfMore(symbols: seq<Symbol>, next: Symbol, kind: OutputKind, relr: bool)
    ensures Total(symbols + [next], kind, relr) == Total(symbols, kind, relr).Plus(Reserved(next.flags, kind, relr))
    decreases |symbols|
  {
    hide Reserved;
    if symbols == [] {
      assert ([] + [next])[1..] == [];
    } else {
      assert (symbols + [next])[1..] == symbols[1..] + [next];
      TotalOfMore(symbols[1..], next, kind, relr);
    }
  }

  /** The offsets after all addresses are taken. */
  function AdvancedAll(symbols: seq<Symbol>, at: Parts): Parts {
    if symbols == [] then at else AdvancedAll(symbols[1..], Advanced(symbols[0].flags, at))
  }

  lemma {:induction false} CreatedMore(symbols: seq<Symbol>, next: Symbol, at: Parts)
    ensures CreateAll(symbols + [next], at) == CreateAll(symbols, at) + [Created(next, AdvancedAll(symbols, at))]
    ensures AdvancedAll(symbols + [next], at) == Advanced(next.flags, AdvancedAll(symbols, at))
    decreases |symbols|
  {
    hide Created, Advanced;
    if symbols == [] {
      assert ([] + [next])[1..] == [];
    } else {
      assert (symbols + [next])[1..] == symbols[1..] + [next];
      CreatedMore(symbols[1..], next, Advanced(symbols[0].flags, at));
    }
  }

  lemma {:induction false} DueOfMore(env: Env, rs: seq<Resolution>, next: Resolution)
    ensures DueAll(env, rs + [next]) == Both(DueAll(env, rs), Due(env, next))
    decreases |rs|
  {
    hide Due, Emission.Then;
    if rs == [] {
      assert ([] + [next])[1..] == [];
      if Due(env, next).Some? {
        ThenNothing(Due(env, next).value);
      }
    } else {
      assert (rs + [next])[1..] == rs[1..] + [next];
      DueOfMore(env, rs[1..], next);
      var a, b, c := Due(env, rs[0]), DueAll(env, rs[1..]), Due(env, next);
      if a.Some? && b.Some? && c.Some? {
        ThenIsAssociative(a.value, b.value, c.value);
      }
    }
  }

  lemma {:induction false} PrefixOf<T>(s: seq<T>, i: nat)
    requires i < |s|
    ensures s[..i + 1] == s[..i] + [s[i]]
  {
  }

  /** Layout's first pass: reserve for every symbol. */
  method AllocateAll(symbols: seq<Symbol>, kind: OutputKind, relrEnabled: bool) returns (sizes: PartMap)
    ensures fresh(sizes) && sizes.Value() == Total(symbols, kind, relrEnabled)
  {
    hide Reserved;
    sizes := new PartMap(ZERO);
    assert symbols[..0] == [];
    for i := 0 to |symbols|
      invariant fresh(sizes) && sizes.Value() == Total(symbols[..i], kind, relrEnabled)
    {
      sizes.AllocateResolution(symbols[i].flags, kind, relrEnabled);
      TotalOfMore(symbols[..i], symbols[i], kind, relrEnabled);
      PrefixOf(symbols, i);
    }
    assert symbols[..|symbols|] == symbols;
  }

  /** Layout's second pass: hand out the addresses. */
  method CreateResolutions(symbols: seq<Symbol>, start: Parts) returns (rs: seq<Resolution>)
    requires start.got > 0 && start.pltGot > 0
    ensures rs == CreateAll(symbols, start)
  {
    hide Created;
    var offsets := new PartMap(start);
    rs := [];
    assert symbols[..0] == [];
    for i := 0 to |symbols|
      invariant fresh(offsets) && offsets.Value() == AdvancedAll(symbols[..i], start)
      invariant offsets.got > 0 && offsets.pltGot > 0
      invariant rs == CreateAll(symbols[..i], start)
    {
      var r := offsets.CreateResolution(symbols[i].flags, symbols[i].raw, symbols[i].dynamicIndex);
      CreatedMore(symbols[..i], symbols[i], start);
      PrefixOf(symbols, i);
      rs := rs + [r];
    }
    assert symbols[..|symbols|] == symbols;
  }

  /** The writer's pass. */
  method ProcessAll(w: TableWriter, rs: seq<Resolution>) returns (ok: bool)
    modifies w
    ensures Did(old(w.t), DueAll(w.env, rs), ok, w.t)
  {
    hide Did, Due;
    ghost var t0 := w.t;
    Idle(t0);
    ok := true;
    var i := 0;
    assert rs[..0] == [];
    while ok && i < |rs|
      invariant 0 <= i <= |rs|
      invariant Did(t0, DueAll(w.env, rs[..i]), ok, w.t)
    {
      ghost var t1 := w.t;
      ok := w.ProcessResolution(rs[i]);
      DidBoth(t0, DueAll(w.env, rs[..i]), true, t1, Due(w.env, rs[i]), ok, w.t);
      DueOfMore(w.env, rs[..i], rs[i]);
      PrefixOf(rs, i);
      i := i + 1;
    }
    if ok {
      assert rs[..|rs|] == rs;
    } else {
      StaysFailed(w.env, t0, rs, i, w.t);
    }
  }

  lemma {:induction false} StaysFailed(env: Env, t0: Tables, rs: seq<Resolution>, i: nat, t1: Tables)
    requires i <= |rs| && Did(t0, DueAll(env, rs[..i]), false, t1)
    ensures Did(t0, DueAll(env, rs), false, t1)
    decreases |rs| - i
  {
    hide Append, Due;
    if i == |rs| {
      assert rs[..i] == rs;
    } else {
      DueOfMore(env, rs[..i], rs[i]);
      PrefixOf(rs, i);
      var a, b := DueAll(env, rs[..i]), Due(env, rs[i]);
      if a.Some? && b.Some? {
        AppendInSteps(t0, a.value, b.value);
      }
      StaysFailed(env, t0, rs, i + 1, t1);
    }
  }

  /** The symbols the writer refuses: a thread-pointer offset outside the thread-local segment, a module offset that has
      neither a dynamic symbol nor an address, and a descriptor in a static executable. */
  predicate Refuses(env: Env, s: Symbol) {
    || (s.flags.tlsOffset && s.flags.nonInterposable && s.raw != 0 && !(env.tlsStart <= s.raw <= env.tlsEnd))
    || (s.flags.tlsModule && s.dynamicIndex.None? && !s.flags.IsAddress())
    || (s.flags.tlsDescriptor && env.kind.StaticExecutable?)
  }

  /** The slot whose filling a symbol is refused for. */
  predicate RefusedSlot(env: Env, s: Symbol, role: Role) {
    match role
    case TlsOffsetSlot => s.flags.nonInterposable && s.raw != 0 && !(env.tlsStart <= s.raw <= env.tlsEnd)
    case TlsModuleOffsetSlot => s.dynamicIndex.None? && !s.flags.IsAddress()
    case DescriptorFn => env.kind.StaticExecutable?
    case _ => false
  }

  lemma {:induction false} SlotIsRefused(env: Env, s: Symbol, at: Parts, role: Role, place: nat)
    requires GoodSymbol(env.kind, s) && (role.TlsOffsetSlot? ==> !s.flags.plt) && (role.IfuncAddress? ==> s.flags.plt)
    ensures Fill(env, Created(s, at), role, place).None? <==> RefusedSlot(env, s, role)
  {
  }

  lemma {:induction false} SlotsAreRefused(env: Env, s: Symbol, at: Parts, roles: seq<Role>, place: nat)
    requires GoodSymbol(env.kind, s) && (TlsOffsetSlot in roles ==> !s.flags.plt) && (IfuncAddress in roles ==> s.flags.plt)
    ensures FillAll(env, Created(s, at), roles, place).None? <==> exists j :: 0 <= j < |roles| && RefusedSlot(env, s, roles[j])
    decreases |roles|
  {
    hide Fill, Created, RefusedSlot, GoodSymbol;
    if roles != [] {
      SlotIsRefused(env, s, at, roles[0], place);
      SlotsAreRefused(env, s, at, roles[1..], place + GOT_ENTRY_SIZE);
      assert forall j :: 0 < j < |roles| ==> roles[j] == roles[1..][j - 1];
    }
  }

  /** A refused symbol is one with a refused slot. */
  lemma {:induction false} RefusedHasSlot(env: Env, s: Symbol)
    requires GoodSymbol(env.kind, s)
    ensures Refuses(env, s) <==> SlotsAssigned(s.flags) > 0 && exists j :: 0 <= j < |Roles(s.flags)| && RefusedSlot(env, s, Roles(s.flags)[j])
  {
    if s.flags.IsTls() {
      hide Roles;
      TlsRoles(s.flags);
      TlsRolesOnly(s.flags);
    } else {
      assert forall j :: 0 <= j < |Roles(s.flags)| ==> Roles(s.flags)[j] == Direct || Roles(s.flags)[j] == IfuncAddress;
    }
  }

  /** Which uses a thread-local symbol's slots have. */
  lemma {:induction false} TlsRolesOnly(f: Flags)
    requires f.IsTls()
    ensures forall j :: 0 <= j < |Roles(f)| ==>
              match Roles(f)[j]
              case TlsOffsetSlot => f.tlsOffset
              case TlsModuleSlot => f.tlsModule
              case TlsModuleOffsetSlot => f.tlsModule
              case DescriptorFn => f.tlsDescriptor
              case DescriptorArg => f.tlsDescriptor
              case _ => false
  {
  }

  /** What is due for a symbol is refused exactly for the refused symbols. */
  lemma {:induction false} DueIsRefused(env: Env, s: Symbol, at: Parts)
    requires GoodSymbol(env.kind, s)
    ensures Due(env, Created(s, at)).None? <==> Refuses(env, s)
  {
    hide FillAll, Fill, Refuses, RefusedSlot;
    RefusedHasSlot(env, s);
    RolesOfPlt(s.flags);
    SlotsAreRefused(env, s, at, Roles(s.flags), at.got);
  }

  lemma {:induction false} RolesOfPlt(f: Flags)
    requires WellFormed(f)
    ensures (TlsOffsetSlot in Roles(f) ==> !f.plt) && (IfuncAddress in Roles(f) ==> f.plt)
  {
  }

  predicate NoneRefused(env: Env, symbols: seq<Symbol>) { forall i :: 0 <= i < |symbols| ==> !Refuses(env, symbols[i]) }

  /** A run is refused exactly when one of its symbols is. */
  lemma {:induction false} RunIsRefused(env: Env, symbols: seq<Symbol>, start: Parts)
    requires AllGood(env.kind, symbols)
    ensures DueAll(env, CreateAll(symbols, start)).Some? <==> NoneRefused(env, symbols)
    decreases |symbols|
  {
    if symbols != [] {
      hide Due, GoodSymbol, AllGood, Refuses, Created, Advanced, CreateAll, DueAll;
      var s, rest := symbols[0], symbols[1..];
      AllGoodFirst(env.kind, symbols);
      RunFirst(env, symbols, start);
      DueIsRefused(env, s, start);
      RunIsRefused(env, rest, Advanced(s.flags, start));
      assert forall i :: 0 < i < |symbols| ==> symbols[i] == rest[i - 1];
    }
  }

  /** The parts `validate_empty` looks at. */
  predicate Exhausted(room: Parts) {
    room.got == 0 && room.relative == 0 && room.general == 0 && room.relr == 0
  }

  /** The writer's environment: no RELR entries are written when none were reserved. */
  function Running(env: Env, symbols: seq<Symbol>): Env {
    env.(relr := env.relr && Total(symbols, env.kind, true).relr > 0)
  }

  lemma {:induction false} AppendToNothing(room: Parts, e: Emission)
    ensures Append(Tables(NOTHING, room), e)
            == if Fits(e.Bytes(), room) then Some(Tables(e, Minus(room, e.Bytes()))) else None
  {
    hide Emission.Bytes;
    ThenNothing(e);
  }

  lemma {:induction false} ExactlyFull(room: Parts, used: Parts, surplus: nat)
    requires BalancedBy(used, room, surplus)
    ensures Fits(used, room) && (Exhausted(Minus(room, used)) <==> surplus == 0)
    ensures surplus == 0 ==> Minus(room, used) == ZERO
  {
  }

  lemma {:induction false} RefusalIgnoresRelr(env: Env, symbols: seq<Symbol>)
    ensures NoneRefused(Running(env, symbols), symbols) <==> NoneRefused(env, symbols)
  {
    assert forall i :: 0 <= i < |symbols| ==> (Refuses(Running(env, symbols), symbols[i]) <==> Refuses(env, symbols[i]));
  }

  /** A run of the writer ends with every table exactly full if and only if no symbol is refused and none is an undefined
      thread-local with a surplus relocation. */
  lemma {:induction false} RunIsExact(env: Env, symbols: seq<Symbol>, start: Parts, ok: bool, after: Tables)
    requires AllGood(env.kind, symbols) && start.got % 2 == 0
    requires Did(Tables(NOTHING, Total(symbols, env.kind, env.relr)),
                 DueAll(Running(env, symbols), CreateAll(symbols, start)), ok, after)
    ensures ok && Exhausted(after.room) <==> NoneRefused(env, symbols) && NoException(env.kind, symbols)
    ensures ok ==> DueAll(Running(env, symbols), CreateAll(symbols, start)).Some?
    ensures ok && Exhausted(after.room)
            ==> after == Tables(DueAll(Running(env, symbols), CreateAll(symbols, start)).value, ZERO)
  {
    hide Emission.Bytes, BalancedBy, DueAll, CreateAll, NoException, Fits, Minus, Append, Exhausted, AllGood, NoneRefused;
    var run := Running(env, symbols);
    RunIsRefused(run, symbols, start);
    RefusalIgnoresRelr(env, symbols);
    var room := Total(symbols, env.kind, env.relr);
    var due := DueAll(run, CreateAll(symbols, start));
    if env.relr && !run.relr {
      NoRelrNeeded(symbols, env.kind);
    }
    if due.Some? {
      RunAccounting(run, symbols, start);
      NoneExceptional(env.kind, symbols);
      AppendToNothing(room, due.value);
      ExactlyFull(room, due.value.Bytes(), SurplusBytes(env.kind, symbols));
    }
  }

  /** Both layout passes and the writer, ending in `validate_empty`. */
  method WriteTables(env: Env, symbols: seq<Symbol>, start: Parts) returns (ok: bool, w: TableWriter)
    requires AllGood(env.kind, symbols) && start.got > 0 && start.pltGot > 0 && start.got % GOT_ENTRY_SIZE == 0
    ensures ok <==> NoneRefused(env, symbols) && NoException(env.kind, symbols)
    ensures ok ==> DueAll(Running(env, symbols), CreateAll(symbols, start)).Some?
    ensures ok ==> w.t == Tables(DueAll(Running(env, symbols), CreateAll(symbols, start)).value, ZERO)
  {
    hide DueAll, CreateAll, Total, NoException, Did, AllGood, NoneRefused;
    var sizes := AllocateAll(symbols, env.kind, env.relr);
    var resolutions := CreateResolutions(symbols, start);
    if !env.relr {
      assert Running(env, symbols) == env;
    }
    w := new TableWriter(env.(relr := env.relr && sizes.relr > 0),
                         Parts(sizes.got, sizes.pltGot, sizes.relaPlt, sizes.relative, sizes.general, sizes.relr));
    var written := ProcessAll(w, resolutions);
    RunIsExact(env, symbols, start, written, w.t);
    ok := written && w.t.room.got == 0 && w.t.room.relative == 0 && w.t.room.general == 0 && w.t.room.relr == 0;
  }

  /** A symbol on which the two sides disagree: an undefined, non-interposable thread-local in a shared object.
      One relocation is reserved and none is written. */
  lemma {:induction false} UndefinedOffsetLeavesRoom(env: Env, at: Parts)
    requires env.kind.SharedObject?
    ensures var f := Flags(true, false, false, true, false, false, false, true, false, false, false);
            var s := Symbol(f, 0, None);
            && GoodSymbol(env.kind, s) && Surplus(env.kind, s)
            && Reserved(f, env.kind, env.relr).general == RELA_ENTRY_SIZE
            && Due(env, Created(s, at)).Some? && Due(env, Created(s, at)).value.general == []
  {
    var f := Flags(true, false, false, true, false, false, false, true, false, false, false);
    FillOne(env, Created(Symbol(f, 0, None), at), TlsOffsetSlot, at.got);
    assert Roles(f) == [TlsOffsetSlot];
  }

  // ---------------------------------------------------------------- where the slots are

  /** The tables of `e`, the PLT aside, are those of `a`, then `x`, then `b`. */
  predicate Split(e: Emission, a: Emission, x: Emission, b: Emission) {
    && e.got == a.got + x.got + b.got
    && e.relaPlt == a.relaPlt + x.relaPlt + b.relaPlt
    && e.relative == a.relative + x.relative + b.relative
    && e.general == a.general + x.general + b.general
    && e.relr == a.relr + x.relr + b.relr
  }

  lemma {:induction false} FillAt(env: Env, r: Resolution, roles: seq<Role>, place: nat, j: nat)
    returns (a: Emission, x: Emission, b: Emission)
    requires j < |roles| && FillAll(env, r, roles, place).Some?
    ensures Fill(env, r, roles[j], place + GOT_ENTRY_SIZE * j) == Some(x)
    ensures FillAll(env, r, roles, place).value == a.Then(x).Then(b)
    ensures |a.got| == j && |x.got| == 1
    decreases |roles|
  {
    hide Fill, Emission.Then;
    var first := Fill(env, r, roles[0], place).value;
    OneSlot(env, r, roles[0], place);
    if j == 0 {
      a, x, b := NOTHING, first, FillAll(env, r, roles[1..], place + GOT_ENTRY_SIZE).value;
      ThenNothing(x);
    } else {
      a, x, b := FillAt(env, r, roles[1..], place + GOT_ENTRY_SIZE, j - 1);
      ThenIsAssociative(first, a, x);
      ThenIsAssociative(first, a.Then(x), b);
      GotOfThen(first, a);
      a := first.Then(a);
    }
  }

  lemma {:induction false} GotOfThen(a: Emission, b: Emission)
    ensures a.Then(b).got == a.got + b.got
  {
  }

  lemma {:induction false} SplitOfThen(e: Emission, a: Emission, x: Emission, b: Emission, more: Emission)
    requires Split(e, a, x, b)
    ensures Split(e.Then(more), a, x, b.Then(more))
    ensures Split(more.Then(e), more.Then(a), x, b)
  {
  }

  lemma {:induction false} SplitIs(a: Emission, x: Emission, b: Emission, plt: seq<(nat, nat)>)
    ensures Split(a.Then(x).Then(b).(pltGot := plt), a, x, b)
  {
  }

  /** A run is its first symbol, then the rest from the advanced offsets. */
  lemma {:induction false} RunFirst(env: Env, symbols: seq<Symbol>, start: Parts)
    requires symbols != []
    ensures var s := symbols[0];
            var later := Advanced(s.flags, start);
            && CreateAll(symbols, start)[0] == Created(s, start)
            && CreateAll(symbols, start)[1..] == CreateAll(symbols[1..], later)
            && DueAll(env, CreateAll(symbols, start)) == Both(Due(env, Created(s, start)), DueAll(env, CreateAll(symbols[1..], later)))
  {
    hide Due, Created, Advanced, Emission.Then;
  }

  lemma {:induction false} AllGoodFirst(kind: OutputKind, symbols: seq<Symbol>)
    requires AllGood(kind, symbols) && symbols != []
    ensures GoodSymbol(kind, symbols[0]) && AllGood(kind, symbols[1..])
  {
    hide GoodSymbol;
  }

  /** In the filled tables, the slot at each address a symbol owns, and the relocations that name that address,
      are the ones due for that slot's use. */
  lemma {:induction false} SlotIsAtItsAddress(env: Env, symbols: seq<Symbol>, start: Parts, k: nat, j: nat)
    returns (a: Emission, x: Emission, b: Emission)
    requires AllGood(env.kind, symbols) && start.got % 2 == 0 && DueAll(env, CreateAll(symbols, start)).Some?
    requires k < |symbols| && SlotsAssigned(symbols[k].flags) > 0 && j < |Roles(symbols[k].flags)|
    ensures var r := CreateAll(symbols, start)[k];
            && r.flags == symbols[k].flags && r.gotAddress.Some?
            && var place := r.gotAddress.value + GOT_ENTRY_SIZE * j;
               && place == start.got + GOT_ENTRY_SIZE * |a.got| && |x.got| == 1
               && Fill(env, r, Roles(r.flags)[j], place) == Some(x)
    ensures Split(DueAll(env, CreateAll(symbols, start)).value, a, x, b)
    decreases |symbols|
  {
    hide Due, Fill, Roles, Emission.Then, Split, GoodSymbol, FillAll, Balanced, AllGood, CreateAll, DueAll;
    var s, rest := symbols[0], symbols[1..];
    var later := Advanced(s.flags, start);
    AdvancedStaysEven(s.flags, start);
    AllGoodFirst(env.kind, symbols);
    RunFirst(env, symbols, start);
    var first, others := Due(env, Created(s, start)).value, DueAll(env, CreateAll(rest, later)).value;
    if k == 0 {
      a, x, b := DueAt(env, s, start, j);
      SplitOfThen(first, a, x, b, others);
      b := b.Then(others);
    } else {
      a, x, b := SlotIsAtItsAddress(env, rest, later, k - 1, j);
      SplitOfThen(others, a, x, b, first);
      GotOfThen(first, a);
      Accounting(env, s, start);
      a := first.Then(a);
    }
  }

  lemma {:induction false} DueAt(env: Env, s: Symbol, at: Parts, j: nat) returns (a: Emission, x: Emission, b: Emission)
    requires SlotsAssigned(s.flags) > 0 && j < |Roles(s.flags)| && Due(env, Created(s, at)).Some?
    ensures Fill(env, Created(s, at), Roles(s.flags)[j], at.got + GOT_ENTRY_SIZE * j) == Some(x)
    ensures Split(Due(env, Created(s, at)).value, a, x, b)
    ensures |a.got| == j && |x.got| == 1
  {
    hide Fill, Emission.Then, Roles, Split, FillAll;
    a, x, b := FillAt(env, Created(s, at), Roles(s.flags), at.got, j);
    SplitIs(a, x, b, Due(env, Created(s, at)).value.pltGot);
  }

  /** `got_address_for_relocation`. */
  function GotAddressForRelocation(r: Resolution): Option<nat> {
    var got :- r.gotAddress;
    Some(got + Count(r.flags.ifuncGot, GOT_ENTRY_SIZE))
  }

  /** `tlsgd_got_address`. */
  function TlsgdGotAddress(r: Resolution): Option<nat> {
    var got :- r.gotAddress;
    Some(got + Count(r.flags.tlsOffset, GOT_ENTRY_SIZE))
  }

  /** `tls_descriptor_got_address`. */
  function TlsDescriptorGotAddress(r: Resolution): Option<nat> {
    var got :- r.gotAddress;
    Some(got + Count(r.flags.tlsOffset, GOT_ENTRY_SIZE) + Count(r.flags.tlsModule, 2 * GOT_ENTRY_SIZE))
  }

  /** The `j`-th slot of `r` is at `address` and has the use `role`. */
  predicate SlotAt(r: Resolution, j: nat, address: Option<nat>, role: Role) {
    r.gotAddress.Some? && address == Some(r.gotAddress.value + GOT_ENTRY_SIZE * j)
    && j < |Roles(r.flags)| && Roles(r.flags)[j] == role
  }

  lemma {:induction false} TlsRoles(f: Flags)
    requires f.IsTls()
    ensures var m := Count(f.tlsOffset, 1);
            var d := m + Count(f.tlsModule, 2);
            var roles := Roles(f);
            && (f.tlsOffset ==> 0 < |roles| && roles[0] == TlsOffsetSlot)
            && (f.tlsModule ==> m + 1 < |roles| && roles[m] == TlsModuleSlot && roles[m + 1] == TlsModuleOffsetSlot)
            && (f.tlsDescriptor ==> d + 1 < |roles| && roles[d] == DescriptorFn && roles[d + 1] == DescriptorArg)
  {
    var a := if f.tlsOffset then [TlsOffsetSlot] else [];
    var b := if f.tlsModule then [TlsModuleSlot, TlsModuleOffsetSlot] else [];
    var c := if f.tlsDescriptor then [DescriptorFn, DescriptorArg] else [];
    assert Roles(f) == a + b + c;
    assert |a| == Count(f.tlsOffset, 1) && |b| == Count(f.tlsModule, 2);
    assert forall i :: 0 <= i < |b| ==> Roles(f)[|a| + i] == b[i];
    assert forall i :: 0 <= i < |c| ==> Roles(f)[|a| + |b| + i] == c[i];
  }

  /** The accessor for plain and ifunc symbols names the slot that references must use. */
  lemma {:induction false} DirectAccessor(s: Symbol, at: Parts)
    requires WellFormed(s.flags) && s.flags.got && !s.flags.IsTls()
    ensures var r := Created(s, at);
            SlotAt(r, if s.flags.ifuncGot then 1 else 0, GotAddressForRelocation(r), if s.flags.ifuncGot then IfuncAddress else Direct)
  {
    if s.flags.ifuncGot {
      assert Roles(s.flags) == [Direct, IfuncAddress];
    } else {
      assert Roles(s.flags) == [Direct];
    }
  }

  /** Each accessor names the slot of the access model it serves; the second slot of a pair follows it. */
  lemma {:induction false} AccessorsNameTheirSlots(s: Symbol, at: Parts)
    requires WellFormed(s.flags) && s.flags.IsTls()
    ensures var r := Created(s, at);
            var m := Count(s.flags.tlsOffset, 1);
            var d := m + Count(s.flags.tlsModule, 2);
            && (s.flags.tlsOffset ==> SlotAt(r, 0, GotAddressForRelocation(r), TlsOffsetSlot))
            && (s.flags.tlsModule ==>
                  && SlotAt(r, m, TlsgdGotAddress(r), TlsModuleSlot)
                  && m + 1 < |Roles(s.flags)| && Roles(s.flags)[m + 1] == TlsModuleOffsetSlot)
            && (s.flags.tlsDescriptor ==>
                  && SlotAt(r, d, TlsDescriptorGotAddress(r), DescriptorFn)
                  && d + 1 < |Roles(s.flags)| && Roles(s.flags)[d + 1] == DescriptorArg)
  {
    hide Roles;
    TlsRoles(s.flags);
  }
}
