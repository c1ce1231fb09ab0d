/**
  The register cache of a customizable virtual CPU. Each group of registers lives in the vCPU
  header while its flag says invalid and in the VMCB while it says valid; entry loads what is
  invalid, a dump reads back what is valid, and edits write the header and drop the flag.
*/
module RegisterCache {

  type Value = bv64

  /** General purpose (rax, rsp, rip, rflags), control, CR2, debug status, CS/DS/ES/SS, FS/GS with
      the kernel GS base, GDTR/IDTR, TR/LDTR, syscall, sysenter, CR8, EFER, PAT and TSC offset. */
  datatype Group = Gpr | Cr | Cr2 | Dr | Sr | Fg | Dt | Lt | Sc | Se | Tp | Ef | Pa | Ts

  /** A register by its place in its group's loading code. */
  datatype Reg = Reg(group: Group, index: nat)

  type Regs = map<Reg, Value>

  const GROUPS: seq<Group> := [Gpr, Dr, Cr, Cr2, Tp, Sr, Fg, Lt, Dt, Ef, Pa, Se, Sc, Ts]

  const RAX := Reg(Gpr, 0)
  const RSP := Reg(Gpr, 1)
  const RIP := Reg(Gpr, 2)
  const RFLAGS := Reg(Gpr, 3)
  const KERNEL_GS_BASE := Reg(Fg, 8)
  const EFER := Reg(Ef, 0)
  const CR8 := Reg(Tp, 0)

  /** Segments list selectors, then attributes, then limits, then bases. */
  function Count(g: Group): (n: nat) {
    match g
    case Gpr => 4 case Cr => 3 case Cr2 => 1 case Dr => 2 case Sr => 16 case Fg => 9 case Dt => 4
    case Lt => 8 case Sc => 4 case Se => 3 case Tp => 1 case Ef => 1 case Pa => 1 case Ts => 1
  }

  predicate Real(r: Reg) {
    r.index < Count(r.group)
  }

  predicate IsAttrib(r: Reg) {
    (r.group == Sr && 4 <= r.index < 8) || ((r.group == Fg || r.group == Lt) && 2 <= r.index < 4)
  }

  function Read(m: Regs, r: Reg): (v: Value) {
    if r in m then m[r] else 0
  }

  // ---- How a register looks in the VMCB ----

  const SVME: Value := 0x1000

  function SvmAttrib(a: Value): (b: Value) {
    ((a & 0xFF) | ((a & 0xF000) >> 4)) & 0xFFF
  }

  function SvmAttribInverse(b: Value): (a: Value) {
    ((b & 0xF00) << 4) | (b & 0xFF)
  }

  function Encode(r: Reg, v: Value): (w: Value) {
    if IsAttrib(r) then SvmAttrib(v) else if r == CR8 then v & 0xF else if r == EFER then v | SVME else v
  }

  /** `svme` is the guest's own view of the bit that the VMCB must keep set. */
  function Decode(r: Reg, w: Value, svme: bool): (v: Value) {
    if IsAttrib(r) then SvmAttribInverse(w) else if r == CR8 then w & 0xF
    else if r == EFER && !svme then w & !SVME else w
  }

  /** What of a header value the guest can observe. */
  function Normal(r: Reg, v: Value): (w: Value) {
    if IsAttrib(r) then v & 0xF0FF else if r == CR8 then v & 0xF else v
  }

  lemma AttribRoundTrip(a: Value)
    ensures SvmAttribInverse(SvmAttrib(a)) == a & 0xF0FF
    ensures SvmAttrib(SvmAttribInverse(a)) == a & 0xFFF
  {
  }

  lemma EferRoundTrip(v: Value)
    ensures (if v & SVME != 0 then v | SVME else (v | SVME) & !SVME) == v
  {
  }

  lemma RoundTrip(r: Reg, v: Value, svme: bool)
    requires r == EFER ==> svme == (v & SVME != 0)
    ensures Decode(r, Encode(r, v), svme) == Normal(r, v)
  {
    if IsAttrib(r) {
      AttribDecodes(r, v, svme);
    } else if r == CR8 {
      Cr8RoundTrip(v);
    } else if r == EFER {
      EferDecodes(v, svme);
    }
  }

  lemma AttribDecodes(r: Reg, v: Value, svme: bool)
    requires IsAttrib(r)
    ensures Decode(r, Encode(r, v), svme) == Normal(r, v)
  {
    hide SvmAttrib, SvmAttribInverse;
    AttribRoundTrip(v);
  }

  lemma EferForms(v: Value, w: Value, svme: bool)
    ensures Encode(EFER, v) == v | SVME && Normal(EFER, v) == v
    ensures Decode(EFER, w, svme) == if svme then w else w & !SVME
  {
  }

  lemma EferDecodes(v: Value, svme: bool)
    requires svme == (v & SVME != 0)
    ensures Decode(EFER, Encode(EFER, v), svme) == Normal(EFER, v)
  {
    hide Encode, Decode, Normal;
    EferForms(v, v | SVME, svme);
    EferRoundTrip(v);
  }

  lemma Cr8RoundTrip(v: Value)
    ensures (v & 0xF) & 0xF == v & 0xF
  {
  }

  /** A decoded value is one the guest can observe in full. */
  lemma DecodedIsNormal(r: Reg, w: Value, svme: bool)
    ensures Normal(r, Decode(r, w, svme)) == Decode(r, w, svme)
  {
    Cr8RoundTrip(w);
    InverseIsNormal(w);
    hide SvmAttribInverse;
  }

  lemma InverseIsNormal(w: Value)
    ensures SvmAttribInverse(w) & 0xF0FF == SvmAttribInverse(w)
  {
  }

  // ---- The vCPU ----

  /** The groups of the VMCB whose clean bit entry takes back. */
  datatype Clean = Interception | Tpr | Npt | ControlReg | DebugReg | Tables | Segments | Cr2Reg

  const ALL_CLEAN: set<Clean> := {Interception, Tpr, Npt, ControlReg, DebugReg, Tables, Segments, Cr2Reg}

  datatype OptClean = Uncached | Cached(bit: Clean)

  /** The clean bit that covers a group; the others are loaded on every run or by vmload. */
  function CleanOf(g: Group): (c: OptClean) {
    match g
    case Cr => Cached(ControlReg) case Ef => Cached(ControlReg) case Cr2 => Cached(Cr2Reg) case Dr => Cached(DebugReg)
    case Sr => Cached(Segments) case Dt => Cached(Tables) case Tp => Cached(Tpr) case Pa => Cached(Npt)
    case Ts => Cached(Interception) case _ => Uncached
  }

  datatype Vcpu = Vcpu(header: Regs, vmcb: Regs, valid: set<Group>, clean: set<Clean>, svme: bool, synchronized: bool)

  /** The value of a register, wherever it lives. */
  function Logical(s: Vcpu, r: Reg): (v: Value) {
    if r.group in s.valid then Decode(r, Read(s.vmcb, r), s.svme) else Normal(r, Read(s.header, r))
  }

  // ---- Entry ----

  function EncodeAll(m: Regs, header: Regs, g: Group, n: nat): (k: Regs) {
    if n == 0 then m else
    EncodeAll(m, header, g, n - 1)[Reg(g, n - 1) := Encode(Reg(g, n - 1), Read(header, Reg(g, n - 1)))]
  }

  lemma {:induction false} EncodeAllRead(m: Regs, header: Regs, g: Group, n: nat, r: Reg)
    ensures Read(EncodeAll(m, header, g, n), r) == if r.group == g && r.index < n then Encode(r, Read(header, r))
      else Read(m, r)
  {
    hide Encode;
    if n != 0 { EncodeAllRead(m, header, g, n - 1, r); }
  }

  function Without(clean: set<Clean>, g: Group): (c: set<Clean>) {
    match CleanOf(g) case Cached(b) => clean - {b} case Uncached => clean
  }

  /** Loads one group into the VMCB unless it is valid there. */
  function Load(s: Vcpu, g: Group): (t: Vcpu) {
    if g in s.valid then s else
    s.(vmcb := EncodeAll(s.vmcb, s.header, g, Count(g)), valid := s.valid + {g}, clean := Without(s.clean, g),
       svme := if g == Ef then Read(s.header, EFER) & SVME != 0 else s.svme)
  }

  function LoadAll(s: Vcpu, n: nat): (t: Vcpu)
    requires n <= |GROUPS|
  {
    if n == 0 then s else Load(LoadAll(s, n - 1), GROUPS[n - 1])
  }

  /** On another processor nothing of the VMCB is cached. */
  function Enter(s: Vcpu, moved: bool): (t: Vcpu) {
    LoadAll(if moved then s.(clean := {}) else s, |GROUPS|)
  }

  /** Loading keeps every register's value and makes the group valid. */
  lemma LoadKeeps(s: Vcpu, g: Group, r: Reg)
    requires Real(r)
    ensures var t := Load(s, g);
      && Logical(t, r) == Logical(s, r) && t.valid == s.valid + {g} && t.header == s.header
      && (r.group in s.valid ==> Read(t.vmcb, r) == Read(s.vmcb, r))
      && t.clean == if g in s.valid then s.clean else Without(s.clean, g)
  {
    hide Encode, Decode, Normal, EncodeAll, Without;
    EncodeAllRead(s.vmcb, s.header, g, Count(g), r);
    if g !in s.valid {
      if r.group == g {
        RoundTrip(r, Read(s.header, r), Load(s, g).svme);
      } else if r.group in s.valid {
        DecodeIgnores(r, Read(s.vmcb, r), Load(s, g).svme, s.svme);
      }
    }
  }

  /** The shadow bit matters to EFER alone. */
  lemma DecodeIgnores(r: Reg, w: Value, a: bool, b: bool)
    ensures r != EFER ==> Decode(r, w, a) == Decode(r, w, b)
  {
  }

  lemma {:induction false} LoadAllKeeps(s: Vcpu, n: nat, r: Reg, b: Clean)
    requires n <= |GROUPS| && Real(r)
    ensures var t := LoadAll(s, n);
      && Logical(t, r) == Logical(s, r) && t.header == s.header
      && (forall g :: g in t.valid <==> g in s.valid || g in GROUPS[..n])
      && (r.group in s.valid ==> Read(t.vmcb, r) == Read(s.vmcb, r))
      && (b in t.clean <==> b in s.clean && forall g :: g in GROUPS[..n] && CleanOf(g) == Cached(b) ==> g in s.valid)
  {
    hide Logical, Load, Read, CleanOf, Real;
    if n != 0 {
      LoadAllKeeps(s, n - 1, r, b);
      LoadKeeps(LoadAll(s, n - 1), GROUPS[n - 1], r);
      GroupOnce(n - 1);
      WithoutBit(LoadAll(s, n - 1).clean, GROUPS[n - 1], b);
      assert GROUPS[..n] == GROUPS[..n - 1] + [GROUPS[n - 1]];
    }
  }

  lemma WithoutBit(clean: set<Clean>, g: Group, b: Clean)
    ensures b in Without(clean, g) <==> b in clean && CleanOf(g) != Cached(b)
  {
  }

  lemma GroupOnce(n: nat)
    requires n < |GROUPS|
    ensures GROUPS[n] !in GROUPS[..n]
  {
  }

  lemma EveryGroup(g: Group)
    ensures exists i :: 0 <= i < |GROUPS| && GROUPS[i] == g
  {
    assert GROUPS[0] == Gpr && GROUPS[1] == Dr && GROUPS[2] == Cr && GROUPS[3] == Cr2 && GROUPS[4] == Tp
      && GROUPS[5] == Sr && GROUPS[6] == Fg && GROUPS[7] == Lt && GROUPS[8] == Dt && GROUPS[9] == Ef
      && GROUPS[10] == Pa && GROUPS[11] == Se
      && GROUPS[12] == Sc && GROUPS[13] == Ts;
  }

  /** Entry keeps every register's value, the kernel GS base and the TSC offset included, and leaves
      every group valid. A clean bit survives exactly if the VMCB stayed on its processor and all
      the bit's groups were valid; nothing under a surviving bit was rewritten. */
  lemma EntryKeeps(s: Vcpu, moved: bool, r: Reg, b: Clean)
    requires Real(r)
    ensures var t := Enter(s, moved);
      && Logical(t, r) == Logical(s, r) && (forall g :: g in t.valid) && t.header == s.header
      && (b in t.clean <==> !moved && b in s.clean && forall g :: CleanOf(g) == Cached(b) ==> g in s.valid)
      && (b in t.clean && CleanOf(r.group) == Cached(b) ==> Read(t.vmcb, r) == Read(s.vmcb, r))
  {
    hide Logical, Load, LoadAll, Read, CleanOf;
    var d := if moved then s.(clean := {}) else s;
    LoadAllKeeps(d, |GROUPS|, r, b);
    assert GROUPS[..|GROUPS|] == GROUPS;
    forall g ensures g in GROUPS { EveryGroup(g); }
    assert Logical(d, r) == Logical(s, r) by { SameLogical(s, d, r); }
  }

  lemma SameLogical(s: Vcpu, t: Vcpu, r: Reg)
    requires t.header == s.header && t.vmcb == s.vmcb && t.valid == s.valid && t.svme == s.svme
    ensures Logical(t, r) == Logical(s, r)
  {
  }

  // ---- What entry leaves in the VMCB ----

  /** m holds the registers from..to of a group as h gives them. */
  predicate AsGiven(m: Regs, h: Regs, g: Group, from: nat, to: nat) {
    forall i: nat :: from <= i < to ==> Read(m, Reg(g, i)) == Read(h, Reg(g, i))
  }

  /** And these as attributes: bits 12 to 15 move to bits 8 to 11. */
  predicate AsAttribs(m: Regs, h: Regs, g: Group, from: nat, to: nat) {
    forall i: nat :: from <= i < to ==>
      var a := Read(h, Reg(g, i)); Read(m, Reg(g, i)) == (a & 0xFF) | ((a & 0xF000) >> 4)
  }

  /** One register after one entry. */
  lemma EntryLoads(s: Vcpu, moved: bool, r: Reg)
    requires Real(r)
    ensures Read(Enter(s, moved).vmcb, r) ==
      if r.group in s.valid then Read(s.vmcb, r) else Encode(r, Read(s.header, r))
  {
    hide LoadAll, Read, Encode, Real;
    var d := if moved then s.(clean := {}) else s;
    LoadAllLoads(d, |GROUPS|, r);
    EveryGroup(r.group);
    assert GROUPS[..|GROUPS|] == GROUPS;
  }

  lemma {:induction false} LoadAllLoads(s: Vcpu, n: nat, r: Reg)
    requires n <= |GROUPS| && Real(r)
    ensures var t := LoadAll(s, n);
      && t.header == s.header && (r.group in t.valid <==> r.group in s.valid || r.group in GROUPS[..n])
      && Read(t.vmcb, r) == if r.group in s.valid || r.group !in GROUPS[..n] then Read(s.vmcb, r)
        else Encode(r, Read(s.header, r))
  {
    hide Read, Encode, EncodeAll, Without;
    if n != 0 {
      LoadAllLoads(s, n - 1, r);
      var t, g := LoadAll(s, n - 1), GROUPS[n - 1];
      EncodeAllRead(t.vmcb, t.header, g, Count(g), r);
      assert GROUPS[..n] == GROUPS[..n - 1] + [GROUPS[n - 1]];
    }
  }

  /** What entry leaves in the VMCB m of a vCPU that had header h, VMCB w and valid groups v: a valid
      group is left alone, and of an invalid one every register is the header's, but that attributes
      are packed, CR8 has only its low four bits, and EFER always has SVME. */
  predicate EntryGives(m: Regs, h: Regs, v: set<Group>) {
    && SegmentsGiven(m, h, v) && OthersGiven(m, h, v)
    && (Tp !in v ==> Read(m, Reg(Tp, 0)) == Read(h, Reg(Tp, 0)) & 0xF)
    && (Ef !in v ==> Read(m, Reg(Ef, 0)) == Read(h, Reg(Ef, 0)) | 0x1000)
  }

  predicate SegmentsGiven(m: Regs, h: Regs, v: set<Group>) {
    && (Sr !in v ==> AsGiven(m, h, Sr, 0, 4) && AsAttribs(m, h, Sr, 4, 8) && AsGiven(m, h, Sr, 8, 16))
    && (Fg !in v ==> AsGiven(m, h, Fg, 0, 2) && AsAttribs(m, h, Fg, 2, 4) && AsGiven(m, h, Fg, 4, 9))
    && (Lt !in v ==> AsGiven(m, h, Lt, 0, 2) && AsAttribs(m, h, Lt, 2, 4) && AsGiven(m, h, Lt, 4, 8))
  }

  predicate OthersGiven(m: Regs, h: Regs, v: set<Group>) {
    && (Gpr !in v ==> AsGiven(m, h, Gpr, 0, 4)) && (Cr !in v ==> AsGiven(m, h, Cr, 0, 3))
    && (Cr2 !in v ==> AsGiven(m, h, Cr2, 0, 1)) && (Dr !in v ==> AsGiven(m, h, Dr, 0, 2))
    && (Dt !in v ==> AsGiven(m, h, Dt, 0, 4)) && (Sc !in v ==> AsGiven(m, h, Sc, 0, 4))
    && (Se !in v ==> AsGiven(m, h, Se, 0, 3)) && (Pa !in v ==> AsGiven(m, h, Pa, 0, 1))
    && (Ts !in v ==> AsGiven(m, h, Ts, 0, 1))
  }

  ghost predicate AllLoaded(m: Regs, h: Regs, v: set<Group>) {
    forall r :: Real(r) && r.group !in v ==> Read(m, r) == Encode(r, Read(h, r))
  }

  lemma GivenRange(m: Regs, h: Regs, v: set<Group>, g: Group, from: nat, to: nat)
    requires AllLoaded(m, h, v) && to <= Count(g) && g != Tp && g != Ef
    requires forall i: nat :: from <= i < to ==> !IsAttrib(Reg(g, i))
    ensures g !in v ==> AsGiven(m, h, g, from, to)
  {
  }

  lemma AttribRange(m: Regs, h: Regs, v: set<Group>, g: Group, from: nat, to: nat)
    requires AllLoaded(m, h, v) && to <= Count(g)
    requires forall i: nat :: from <= i < to ==> IsAttrib(Reg(g, i))
    ensures g !in v ==> AsAttribs(m, h, g, from, to)
  {
    if g !in v {
      forall i: nat | from <= i < to
        ensures var a := Read(h, Reg(g, i)); Read(m, Reg(g, i)) == (a & 0xFF) | ((a & 0xF000) >> 4)
      {
        AttribBits(Read(h, Reg(g, i)));
      }
    }
  }

  lemma AttribBits(a: Value)
    ensures SvmAttrib(a) == (a & 0xFF) | ((a & 0xF000) >> 4)
  {
  }

  lemma AllSegments(m: Regs, h: Regs, v: set<Group>)
    requires AllLoaded(m, h, v)
    ensures SegmentsGiven(m, h, v)
  {
    hide Read, AsGiven, AsAttribs, AllLoaded;
    GivenRange(m, h, v, Sr, 0, 4);
    AttribRange(m, h, v, Sr, 4, 8);
    GivenRange(m, h, v, Sr, 8, 16);
    GivenRange(m, h, v, Fg, 0, 2);
    AttribRange(m, h, v, Fg, 2, 4);
    GivenRange(m, h, v, Fg, 4, 9);
    GivenRange(m, h, v, Lt, 0, 2);
    AttribRange(m, h, v, Lt, 2, 4);
    GivenRange(m, h, v, Lt, 4, 8);
  }

  lemma AllOthers(m: Regs, h: Regs, v: set<Group>)
    requires AllLoaded(m, h, v)
    ensures OthersGiven(m, h, v)
  {
    hide Read, AsGiven, AllLoaded;
    GivenRange(m, h, v, Gpr, 0, 4);
    GivenRange(m, h, v, Cr, 0, 3);
    GivenRange(m, h, v, Cr2, 0, 1);
    GivenRange(m, h, v, Dr, 0, 2);
    GivenRange(m, h, v, Dt, 0, 4);
    GivenRange(m, h, v, Sc, 0, 4);
    GivenRange(m, h, v, Se, 0, 3);
    GivenRange(m, h, v, Pa, 0, 1);
    GivenRange(m, h, v, Ts, 0, 1);
  }

  lemma Cr8AndEfer(m: Regs, h: Regs, v: set<Group>)
    requires AllLoaded(m, h, v)
    ensures Tp !in v ==> Read(m, Reg(Tp, 0)) == Read(h, Reg(Tp, 0)) & 0xF
    ensures Ef !in v ==> Read(m, Reg(Ef, 0)) == Read(h, Reg(Ef, 0)) | 0x1000
  {
  }

  lemma EntryLeaves(s: Vcpu, moved: bool)
    ensures EntryGives(Enter(s, moved).vmcb, s.header, s.valid)
    ensures forall r :: Real(r) && r.group in s.valid ==> Read(Enter(s, moved).vmcb, r) == Read(s.vmcb, r)
  {
    hide Enter, Read, Encode, Real, SegmentsGiven, OthersGiven;
    var m := Enter(s, moved).vmcb;
    forall r | Real(r) ensures Read(m, r) ==
      if r.group in s.valid then Read(s.vmcb, r) else Encode(r, Read(s.header, r))
    {
      EntryLoads(s, moved, r);
    }
    AllSegments(m, s.header, s.valid);
    AllOthers(m, s.header, s.valid);
    Cr8AndEfer(m, s.header, s.valid);
  }

  /** Attributes of a 64-bit code segment, there and back. */
  lemma CodeSegmentAttribs(s: Vcpu, moved: bool)
    requires Sr !in s.valid && Read(s.header, Reg(Sr, 4)) == 0xA09B
    ensures Read(Enter(s, moved).vmcb, Reg(Sr, 4)) == 0xA9B
    ensures Read(Enter(s, moved).vmcb, Reg(Sr, 0)) == Read(s.header, Reg(Sr, 0))
  {
    hide Enter;
    EntryLeaves(s, moved);
    assert AsAttribs(Enter(s, moved).vmcb, s.header, Sr, 4, 8) && AsGiven(Enter(s, moved).vmcb, s.header, Sr, 0, 4);
  }

  /** Which clean bits survive an entry, bit by bit. */
  lemma CleanAfter(s: Vcpu, moved: bool)
    ensures var c := Enter(s, moved).clean;
      && (Interception in c <==> !moved && Interception in s.clean && Ts in s.valid)
      && (Tpr in c <==> !moved && Tpr in s.clean && Tp in s.valid)
      && (Npt in c <==> !moved && Npt in s.clean && Pa in s.valid)
      && (ControlReg in c <==> !moved && ControlReg in s.clean && Cr in s.valid && Ef in s.valid)
      && (DebugReg in c <==> !moved && DebugReg in s.clean && Dr in s.valid)
      && (Tables in c <==> !moved && Tables in s.clean && Dt in s.valid)
      && (Segments in c <==> !moved && Segments in s.clean && Sr in s.valid)
      && (Cr2Reg in c <==> !moved && Cr2Reg in s.clean && Cr2 in s.valid)
  {
    hide Enter;
    forall b ensures b in Enter(s, moved).clean <==>
      !moved && b in s.clean && forall g :: CleanOf(g) == Cached(b) ==> g in s.valid
    {
      EntryKeeps(s, moved, RAX, b);
    }
  }

  /** With CR2 alone invalid, only the bit of CR2 is lost. */
  lemma OnlyCr2Lost(s: Vcpu)
    requires forall g :: g in s.valid <==> g != Cr2
    ensures Enter(s, false).clean == s.clean - {Cr2Reg}
  {
    hide Enter;
    CleanAfter(s, false);
    forall b ensures b in Enter(s, false).clean <==> b in s.clean && b != Cr2Reg {
      match b {
        case Interception => case Tpr => case Npt => case ControlReg =>
        case DebugReg => case Tables => case Segments => case Cr2Reg =>
      }
    }
  }

  // ---- Exit and dump ----

  function DecodeAll(header: Regs, m: Regs, g: Group, n: nat, svme: bool): (k: Regs) {
    if n == 0 then header else
    DecodeAll(header, m, g, n - 1, svme)[Reg(g, n - 1) := Decode(Reg(g, n - 1), Read(m, Reg(g, n - 1)), svme)]
  }

  lemma {:induction false} DecodeAllRead(header: Regs, m: Regs, g: Group, n: nat, svme: bool, r: Reg)
    ensures Read(DecodeAll(header, m, g, n, svme), r) ==
      if r.group == g && r.index < n then Decode(r, Read(m, r), svme) else Read(header, r)
  {
    hide Decode;
    if n != 0 { DecodeAllRead(header, m, g, n - 1, svme, r); }
  }

  /** The groups a dump reads back, and how far: not the general-purpose group, which every exit
      saves, not the TSC offset, and of the FS/GS group all but the kernel GS base. */
  const DUMPED: seq<Group> := [Cr, Cr2, Dr, Sr, Fg, Dt, Lt, Sc, Se, Tp, Ef, Pa]

  function DumpCount(g: Group): (n: nat) {
    if g == Fg then 8 else Count(g)
  }

  function DumpAll(s: Vcpu, n: nat): (header: Regs)
    requires n <= |DUMPED|
  {
    if n == 0 then s.header else
    if DUMPED[n - 1] in s.valid
      then DecodeAll(DumpAll(s, n - 1), s.vmcb, DUMPED[n - 1], DumpCount(DUMPED[n - 1]), s.svme)
    else DumpAll(s, n - 1)
  }

  function Dump(s: Vcpu): (t: Vcpu) {
    s.(header := DumpAll(s, |DUMPED|), synchronized := true)
  }

  lemma {:induction false} DumpAllRead(s: Vcpu, n: nat, r: Reg)
    requires n <= |DUMPED|
    ensures Read(DumpAll(s, n), r) ==
      if r.group in s.valid && r.group in DUMPED[..n] && r.index < DumpCount(r.group)
      then Decode(r, Read(s.vmcb, r), s.svme) else Read(s.header, r)
  {
    hide Decode, Read, DumpCount;
    if n != 0 {
      DumpAllRead(s, n - 1, r);
      DecodeAllRead(DumpAll(s, n - 1), s.vmcb, DUMPED[n - 1], DumpCount(DUMPED[n - 1]), s.svme, r);
      assert DUMPED[..n] == DUMPED[..n - 1] + [DUMPED[n - 1]];
    }
  }

  predicate Dumped(r: Reg) {
    Real(r) && r.group != Gpr && r.group != Ts && r != KERNEL_GS_BASE
  }

  /** A dump keeps every register's value, and afterwards the header shows it. */
  lemma DumpKeeps(s: Vcpu, r: Reg)
    requires Real(r)
    ensures var t := Dump(s);
      && Logical(t, r) == Logical(s, r) && t.valid == s.valid && t.vmcb == s.vmcb && t.clean == s.clean
      && (Dumped(r) ==> Normal(r, Read(t.header, r)) == Logical(s, r))
      && (Dumped(r) && r.group in s.valid ==> Read(t.header, r) == Logical(s, r))
      && (!Dumped(r) ==> Read(t.header, r) == Read(s.header, r))
  {
    hide Decode, Normal, Read;
    DumpAllRead(s, |DUMPED|, r);
    assert DUMPED[..|DUMPED|] == DUMPED;
    DumpedGroups(r.group);
    DecodedIsNormal(r, Read(s.vmcb, r), s.svme);
  }

  lemma DumpedGroups(g: Group)
    ensures g in DUMPED <==> g != Gpr && g != Ts
  {
    assert DUMPED[0] == Cr && DUMPED[1] == Cr2 && DUMPED[2] == Dr && DUMPED[3] == Sr && DUMPED[4] == Fg
      && DUMPED[5] == Dt && DUMPED[6] == Lt && DUMPED[7] == Sc && DUMPED[8] == Se && DUMPED[9] == Tp
      && DUMPED[10] == Ef && DUMPED[11] == Pa;
  }

  /** What a dump leaves in the header k of a vCPU that had header h, VMCB w and valid groups v: of a
      valid group every register is the VMCB's, but that attributes are unpacked, CR8 has its low four
      bits, and EFER has SVME only if the guest set it; of an invalid group, of the general-purpose and
      TSC groups and of the kernel GS base the header keeps its own. */
  predicate DumpGives(k: Regs, h: Regs, w: Regs, v: set<Group>, svme: bool) {
    && SegmentsDumped(k, h, w, v) && OthersDumped(k, h, w, v)
    && Read(k, Reg(Tp, 0)) == (if Tp in v then Read(w, Reg(Tp, 0)) & 0xF else Read(h, Reg(Tp, 0)))
    && Read(k, Reg(Ef, 0)) == (if Ef !in v then Read(h, Reg(Ef, 0)) else if svme then Read(w, Reg(Ef, 0))
                               else Read(w, Reg(Ef, 0)) & !0x1000)
    && AsGiven(k, h, Gpr, 0, 4) && AsGiven(k, h, Ts, 0, 1) && AsGiven(k, h, Fg, 8, 9)
  }

  predicate SegmentsDumped(k: Regs, h: Regs, w: Regs, v: set<Group>) {
    && AsGiven(k, if Sr in v then w else h, Sr, 0, 4) && AsGiven(k, if Sr in v then w else h, Sr, 8, 16)
    && AsGiven(k, if Fg in v then w else h, Fg, 0, 2) && AsGiven(k, if Fg in v then w else h, Fg, 4, 8)
    && AsGiven(k, if Lt in v then w else h, Lt, 0, 2) && AsGiven(k, if Lt in v then w else h, Lt, 4, 8)
    && (if Sr in v then Unpacked(k, w, Sr, 4, 8) else AsGiven(k, h, Sr, 4, 8))
    && (if Fg in v then Unpacked(k, w, Fg, 2, 4) else AsGiven(k, h, Fg, 2, 4))
    && (if Lt in v then Unpacked(k, w, Lt, 2, 4) else AsGiven(k, h, Lt, 2, 4))
  }

  predicate OthersDumped(k: Regs, h: Regs, w: Regs, v: set<Group>) {
    && AsGiven(k, if Cr in v then w else h, Cr, 0, 3) && AsGiven(k, if Cr2 in v then w else h, Cr2, 0, 1)
    && AsGiven(k, if Dr in v then w else h, Dr, 0, 2) && AsGiven(k, if Dt in v then w else h, Dt, 0, 4)
    && AsGiven(k, if Sc in v then w else h, Sc, 0, 4) && AsGiven(k, if Se in v then w else h, Se, 0, 3)
    && AsGiven(k, if Pa in v then w else h, Pa, 0, 1)
  }

  predicate Unpacked(k: Regs, w: Regs, g: Group, from: nat, to: nat) {
    forall i: nat :: from <= i < to ==>
      var b := Read(w, Reg(g, i)); Read(k, Reg(g, i)) == ((b & 0xF00) << 4) | (b & 0xFF)
  }

  ghost predicate AllDumped(k: Regs, h: Regs, w: Regs, v: set<Group>, svme: bool) {
    forall r :: Read(k, r) == if r.group in v && Dumped(r) then Decode(r, Read(w, r), svme) else Read(h, r)
  }

  lemma DumpRange(k: Regs, h: Regs, w: Regs, v: set<Group>, svme: bool, g: Group, from: nat, to: nat)
    requires AllDumped(k, h, w, v, svme) && g != Tp && g != Ef
    requires forall i: nat :: from <= i < to ==> Dumped(Reg(g, i)) && !IsAttrib(Reg(g, i))
    ensures AsGiven(k, if g in v then w else h, g, from, to)
  {
  }

  lemma UnpackRange(k: Regs, h: Regs, w: Regs, v: set<Group>, svme: bool, g: Group, from: nat, to: nat)
    requires AllDumped(k, h, w, v, svme)
    requires forall i: nat :: from <= i < to ==> Dumped(Reg(g, i)) && IsAttrib(Reg(g, i))
    ensures if g in v then Unpacked(k, w, g, from, to) else AsGiven(k, h, g, from, to)
  {
  }

  lemma DumpRest(k: Regs, h: Regs, w: Regs, v: set<Group>, svme: bool)
    requires AllDumped(k, h, w, v, svme)
    ensures Read(k, Reg(Tp, 0)) == (if Tp in v then Read(w, Reg(Tp, 0)) & 0xF else Read(h, Reg(Tp, 0)))
    ensures Read(k, Reg(Ef, 0)) == (if Ef !in v then Read(h, Reg(Ef, 0)) else if svme then Read(w, Reg(Ef, 0))
                                    else Read(w, Reg(Ef, 0)) & !0x1000)
    ensures AsGiven(k, h, Gpr, 0, 4) && AsGiven(k, h, Ts, 0, 1) && AsGiven(k, h, Fg, 8, 9)
  {
  }

  lemma AllSegmentsDumped(k: Regs, h: Regs, w: Regs, v: set<Group>, svme: bool)
    requires AllDumped(k, h, w, v, svme)
    ensures SegmentsDumped(k, h, w, v)
  {
    hide Read, AsGiven, Unpacked, AllDumped;
    DumpRange(k, h, w, v, svme, Sr, 0, 4);
    DumpRange(k, h, w, v, svme, Sr, 8, 16);
    DumpRange(k, h, w, v, svme, Fg, 0, 2);
    DumpRange(k, h, w, v, svme, Fg, 4, 8);
    DumpRange(k, h, w, v, svme, Lt, 0, 2);
    DumpRange(k, h, w, v, svme, Lt, 4, 8);
    UnpackRange(k, h, w, v, svme, Sr, 4, 8);
    UnpackRange(k, h, w, v, svme, Fg, 2, 4);
    UnpackRange(k, h, w, v, svme, Lt, 2, 4);
  }

  lemma WholeDumped(k: Regs, h: Regs, w: Regs, v: set<Group>, svme: bool, g: Group)
    requires AllDumped(k, h, w, v, svme) && g in {Cr, Cr2, Dr, Dt, Sc, Se, Pa}
    ensures AsGiven(k, if g in v then w else h, g, 0, Count(g))
  {
    DumpRange(k, h, w, v, svme, g, 0, Count(g));
  }

  lemma AllOthersDumped(k: Regs, h: Regs, w: Regs, v: set<Group>, svme: bool)
    requires AllDumped(k, h, w, v, svme)
    ensures OthersDumped(k, h, w, v)
  {
    hide Read, AsGiven, AllDumped, Decode, Dumped, IsAttrib;
    WholeDumped(k, h, w, v, svme, Cr);
    WholeDumped(k, h, w, v, svme, Cr2);
    WholeDumped(k, h, w, v, svme, Dr);
    WholeDumped(k, h, w, v, svme, Dt);
    WholeDumped(k, h, w, v, svme, Sc);
    WholeDumped(k, h, w, v, svme, Se);
    WholeDumped(k, h, w, v, svme, Pa);
  }

  lemma DumpLeaves(s: Vcpu)
    ensures DumpGives(Dump(s).header, s.header, s.vmcb, s.valid, s.svme)
  {
    hide Read, Decode, SegmentsDumped, OthersDumped;
    var k := Dump(s).header;
    forall r ensures Read(k, r) ==
      if r.group in s.valid && Dumped(r) then Decode(r, Read(s.vmcb, r), s.svme) else Read(s.header, r)
    {
      DumpAllRead(s, |DUMPED|, r);
      DumpedGroups(r.group);
      assert DUMPED[..|DUMPED|] == DUMPED;
    }
    AllSegmentsDumped(k, s.header, s.vmcb, s.valid, s.svme);
    AllOthersDumped(k, s.header, s.vmcb, s.valid, s.svme);
    DumpRest(k, s.header, s.vmcb, s.valid, s.svme);
  }

  /** The guest runs and exits: its registers are in the VMCB, the processor caches all of it, and
      the general-purpose group is saved to the header. */
  function Exit(s: Vcpu, vmcb: Regs, svme: bool): (t: Vcpu) {
    s.(vmcb := vmcb, header := DecodeAll(s.header, vmcb, Gpr, 4, svme), clean := ALL_CLEAN, svme := svme,
      synchronized := false)
  }

  /** Every exit saves the four general-purpose registers as they are, no other register, and has all
      eight groups cached. */
  lemma ExitLeaves(s: Vcpu, vmcb: Regs, svme: bool)
    ensures var t := Exit(s, vmcb, svme);
      && AsGiven(t.header, vmcb, Gpr, 0, 4)
      && (forall r: Reg :: r.group != Gpr ==> Read(t.header, r) == Read(s.header, r))
      && t.vmcb == vmcb && t.valid == s.valid && t.clean == {Interception, Tpr, Npt, ControlReg, DebugReg, Tables,
                                                             Segments, Cr2Reg}
  {
    hide Read, DecodeAll;
    forall r ensures Read(DecodeAll(s.header, vmcb, Gpr, 4, svme), r) ==
      if r.group == Gpr && r.index < 4 then Read(vmcb, r) else Read(s.header, r)
    {
      DecodeAllRead(s.header, vmcb, Gpr, 4, svme, r);
    }
  }

  // ---- Edits ----

  predicate EditOk(g: Group, m: Regs) {
    forall r :: r in m ==> r.group == g && Real(r)
  }

  /** Writes some registers of a group to the header and drops the group's flag. */
  function Edit(s: Vcpu, g: Group, m: Regs): (t: Vcpu) {
    s.(header := s.header + m, valid := s.valid - {g})
  }

  /** An edit sets what it writes and touches no other group. A register of its own group that it
      does not write keeps its value exactly when the group was invalid already or the header
      happened to show the value. */
  lemma EditExact(s: Vcpu, g: Group, m: Regs, r: Reg)
    requires EditOk(g, m)
    ensures var t := Edit(s, g, m);
      && (r in m ==> Logical(t, r) == Normal(r, m[r]))
      && (r.group != g ==> Logical(t, r) == Logical(s, r))
      && (r.group == g && r !in m ==>
            (Logical(t, r) == Logical(s, r) <==> g !in s.valid || Normal(r, Read(s.header, r)) == Logical(s, r)))
  {
    hide Decode, Normal;
    assert Read(Edit(s, g, m).header, r) == if r in m then m[r] else Read(s.header, r);
    hide Read;
  }

  /** The register-by-register interface writes the stack pointer without dropping the flag. */
  function EditRsp(s: Vcpu, v: Value): (t: Vcpu) {
    s.(header := s.header[RSP := v])
  }

  /** So that edit takes effect exactly when the group is invalid or the value is there already. */
  lemma EditRspTakesIff(s: Vcpu, v: Value)
    ensures Logical(EditRsp(s, v), RSP) == v <==> Gpr !in s.valid || Read(s.vmcb, RSP) == v
  {
  }

  /** The kernel GS base is loaded but never read back: an edit of FS or GS after a run and a dump
      keeps the guest's base exactly when it is still the one last written to the header. */
  lemma KernelGsBaseKeptIff(s: Vcpu, moved: bool, vmcb: Regs, svme: bool, m: Regs)
    requires EditOk(Fg, m) && KERNEL_GS_BASE !in m
    ensures var d := Dump(Exit(Enter(s, moved), vmcb, svme));
      Logical(Edit(d, Fg, m), KERNEL_GS_BASE) == Logical(d, KERNEL_GS_BASE)
      <==> Read(s.header, KERNEL_GS_BASE) == Read(vmcb, KERNEL_GS_BASE)
  {
    hide Enter, DecodeAll, DumpAll;
    var e := Enter(s, moved);
    var x := Exit(e, vmcb, svme);
    EntryKeeps(s, moved, KERNEL_GS_BASE, Tpr);
    DecodeAllRead(e.header, vmcb, Gpr, 4, svme, KERNEL_GS_BASE);
    DumpKeeps(x, KERNEL_GS_BASE);
    EditExact(Dump(x), Fg, m, KERNEL_GS_BASE);
  }

  // ---- Whole runs ----

  datatype Event = Run(moved: bool, vmcb: Regs, svme: bool) | Sync | Change(group: Group, regs: Regs)

  function Next(s: Vcpu, e: Event): (t: Vcpu) {
    match e
    case Run(moved, vmcb, svme) => Exit(Enter(s, moved), vmcb, svme)
    case Sync => Dump(s)
    case Change(g, m) => Edit(s, g, m)
  }

  /** An edit is safe when it writes the whole group, or the group is in the header already, or the
      header was synchronized since the last run; the general-purpose group always is. */
  predicate Safe(s: Vcpu, e: Event) {
    e.Change? ==>
      && EditOk(e.group, e.regs)
      && ( || e.group == Gpr
           || e.group !in s.valid
           || (forall i :: 0 <= i < Count(e.group) ==> Reg(e.group, i) in e.regs)
           || (s.synchronized && e.group != Ts && (e.group == Fg ==> KERNEL_GS_BASE in e.regs)))
  }

  /** A vCPU as created: everything in the header. */
  function Created(header: Regs): (s: Vcpu) {
    Vcpu(header, map[], {}, {}, false, false)
  }

  function After(header: Regs, es: seq<Event>): (s: Vcpu) {
    if es == [] then Created(header) else Next(After(header, es[..|es| - 1]), es[|es| - 1])
  }

  /** At every run so far the guest left SVME set in EFER. */
  predicate LeavesSvme(es: seq<Event>) {
    forall i :: 0 <= i < |es| && es[i].Run? ==> Read(es[i].vmcb, EFER) & 0x1000 != 0
  }

  /** The guest is never entered with SVME clear, whatever was edited and dumped before; and what it is
      shown as its own SVME is what its header last asked for or it had when it last ran. */
  lemma {:induction false} SvmeAtEntry(header: Regs, es: seq<Event>, moved: bool)
    requires LeavesSvme(es)
    ensures var s, t := After(header, es), Enter(After(header, es), moved);
      && Read(t.vmcb, EFER) & 0x1000 != 0
      && (t.svme <==> if Ef in s.valid then s.svme else Read(s.header, EFER) & 0x1000 != 0)
  {
    hide Enter, Read;
    SvmeStays(header, es);
    var s := After(header, es);
    EntryLeaves(s, moved);
    EntryShadow(s, moved);
    SvmeSet(Read(s.header, EFER));
  }

  lemma SvmeSet(v: Value)
    ensures (v | 0x1000) & 0x1000 != 0
  {
  }

  lemma {:induction false} SvmeStays(header: Regs, es: seq<Event>)
    requires LeavesSvme(es)
    ensures var s := After(header, es); Ef in s.valid ==> Read(s.vmcb, EFER) & 0x1000 != 0
  {
    hide Enter, Read, DumpAll, DecodeAll;
    if es != [] {
      var fs := es[..|es| - 1];
      assert forall i :: 0 <= i < |fs| ==> fs[i] == es[i];
      SvmeStays(header, fs);
    }
  }

  lemma EntryShadow(s: Vcpu, moved: bool)
    ensures Enter(s, moved).svme <==> if Ef in s.valid then s.svme else Read(s.header, EFER) & 0x1000 != 0
  {
    hide LoadAll, Read;
    ShadowAfter(if moved then s.(clean := {}) else s, |GROUPS|);
    EveryGroup(Ef);
    assert GROUPS[..|GROUPS|] == GROUPS;
  }

  lemma {:induction false} ShadowAfter(s: Vcpu, n: nat)
    requires n <= |GROUPS|
    ensures var t := LoadAll(s, n);
      && t.header == s.header && (Ef in t.valid <==> Ef in s.valid || Ef in GROUPS[..n])
      && (t.svme <==> if Ef in s.valid || Ef !in GROUPS[..n] then s.svme else Read(s.header, EFER) & 0x1000 != 0)
  {
    hide Read, EncodeAll, Without;
    if n != 0 {
      ShadowAfter(s, n - 1);
      assert GROUPS[..n] == GROUPS[..n - 1] + [GROUPS[n - 1]];
    }
  }

  predicate AllSafe(header: Regs, es: seq<Event>) {
    es == [] || (AllSafe(header, es[..|es| - 1]) && Safe(After(header, es[..|es| - 1]), es[|es| - 1]))
  }

  /** What a register should be: what the guest left in it or the last edit wrote. */
  function Expected(header: Regs, es: seq<Event>, r: Reg): (v: Value) {
    if es == [] then Normal(r, Read(header, r)) else
    match es[|es| - 1]
    case Run(_, vmcb, svme) => Decode(r, Read(vmcb, r), svme)
    case Sync => Expected(header, es[..|es| - 1], r)
    case Change(_, m) => if r in m then Normal(r, m[r]) else Expected(header, es[..|es| - 1], r)
  }

  /** The header shows a register: the general-purpose ones always, the dumped ones after a dump. */
  predicate Shown(s: Vcpu, r: Reg) {
    r.group in s.valid && (r.group == Gpr || (s.synchronized && Dumped(r))) ==>
      Normal(r, Read(s.header, r)) == Logical(s, r)
  }

  lemma RunKeeps(s: Vcpu, e: Event, r: Reg)
    requires Real(r) && e.Run?
    ensures Logical(Next(s, e), r) == Decode(r, Read(e.vmcb, r), e.svme) && Shown(Next(s, e), r)
  {
    hide Decode, Normal, Enter, DecodeAll;
    EntryKeeps(s, e.moved, r, Tpr);
    DecodeAllRead(Enter(s, e.moved).header, e.vmcb, Gpr, 4, e.svme, r);
    DecodedIsNormal(r, Read(e.vmcb, r), e.svme);
  }

  lemma SyncKeeps(s: Vcpu, r: Reg)
    requires Real(r) && Shown(s, r)
    ensures Logical(Dump(s), r) == Logical(s, r) && Shown(Dump(s), r)
  {
    hide Decode, Normal, DumpAll;
    DumpKeeps(s, r);
  }

  lemma ChangeKeeps(s: Vcpu, e: Event, r: Reg)
    requires Real(r) && Shown(s, r) && e.Change? && Safe(s, e)
    ensures Logical(Next(s, e), r) == (if r in e.regs then Normal(r, e.regs[r]) else Logical(s, r))
      && Shown(Next(s, e), r)
  {
    hide Decode, Normal;
    EditExact(s, e.group, e.regs, r);
  }

  /** What becomes of a register, told without VMCB and flags: its value, what the header shows, and
      whether it is live, that is, changed by the guest behind the header's back. */
  datatype Track = Track(value: Value, shown: Value, live: bool)

  /** A run leaves what the guest left, and shows it only for the general-purpose registers; a dump
      shows what is live; an edit makes the registers it writes, and those of their group that it
      does not write, what the header shows. */
  function Tracked(header: Regs, es: seq<Event>, r: Reg): (k: Track) {
    if es == [] then Track(Normal(r, Read(header, r)), Read(header, r), false) else
    var k := Tracked(header, es[..|es| - 1], r);
    match es[|es| - 1]
    case Run(_, vmcb, svme) =>
      var v := Decode(r, Read(vmcb, r), svme);
      Track(v, if r.group == Gpr then v else k.shown, true)
    case Sync => if k.live && Dumped(r) then k.(shown := k.value) else k
    case Change(g, m) =>
      if r in m then Track(Normal(r, m[r]), m[r], false)
      else if r.group == g then Track(Normal(r, k.shown), k.shown, false)
      else k
  }

  predicate EditsOk(es: seq<Event>) {
    forall e :: e in es && e.Change? ==> EditOk(e.group, e.regs)
  }

  /** The cache does just this, over any interleaving of runs, dumps and edits, safe or not: a value
      is lost exactly when an edit passes over a live register that the header does not show. */
  lemma {:induction false} RunsExact(header: Regs, es: seq<Event>, r: Reg)
    requires Real(r) && EditsOk(es)
    ensures var s, k := After(header, es), Tracked(header, es, r);
      Logical(s, r) == k.value && Read(s.header, r) == k.shown && (r.group in s.valid <==> k.live)
  {
    hide Decode, Normal, Next, Logical, EditOk, Real;
    if es == [] {
      CreatedShows(header, r);
    } else {
      var s, e := After(header, es[..|es| - 1]), es[|es| - 1];
      RunsExact(header, es[..|es| - 1], r);
      match e
      case Run(_, _, _) => RunTracks(s, e, r);
      case Sync => SyncTracks(s, r);
      case Change(_, _) => assert e in es; ChangeTracks(s, e, r);
    }
  }

  lemma RunTracks(s: Vcpu, e: Event, r: Reg)
    requires Real(r) && e.Run?
    ensures var t, v := Next(s, e), Decode(r, Read(e.vmcb, r), e.svme);
      Logical(t, r) == v && r.group in t.valid && Read(t.header, r) == if r.group == Gpr then v else Read(s.header, r)
  {
    hide Decode, Normal, Enter, DecodeAll;
    EntryKeeps(s, e.moved, r, Tpr);
    DecodeAllRead(Enter(s, e.moved).header, e.vmcb, Gpr, 4, e.svme, r);
  }

  lemma SyncTracks(s: Vcpu, r: Reg)
    requires Real(r)
    ensures var t := Next(s, Sync);
      && Logical(t, r) == Logical(s, r) && t.valid == s.valid
      && Read(t.header, r) == if r.group in s.valid && Dumped(r) then Logical(s, r) else Read(s.header, r)
  {
    hide Decode, Normal, DumpAll;
    DumpKeeps(s, r);
    DumpAllRead(s, |DUMPED|, r);
  }

  lemma ChangeTracks(s: Vcpu, e: Event, r: Reg)
    requires e.Change? && EditOk(e.group, e.regs)
    ensures var t := Next(s, e);
      if r in e.regs then
        Logical(t, r) == Normal(r, e.regs[r]) && Read(t.header, r) == e.regs[r] && r.group !in t.valid
      else if r.group == e.group then
        Logical(t, r) == Normal(r, Read(s.header, r)) && Read(t.header, r) == Read(s.header, r) && r.group !in t.valid
      else
        Logical(t, r) == Logical(s, r) && Read(t.header, r) == Read(s.header, r)
          && (r.group in t.valid <==> r.group in s.valid)
  {
    hide Decode, Normal;
    EditExact(s, e.group, e.regs, r);
  }

  /** The guest sets its kernel GS base to 2, and an edit of another FS or GS register after a dump
      brings back the 1 that the vCPU was created with. */
  lemma KernelGsBaseLost(v: Value)
    ensures var es := [Run(false, map[KERNEL_GS_BASE := 2], false), Sync, Change(Fg, map[Reg(Fg, 0) := v])];
      Logical(After(map[KERNEL_GS_BASE := 1], es[..2]), KERNEL_GS_BASE) == 2
      && Logical(After(map[KERNEL_GS_BASE := 1], es), KERNEL_GS_BASE) == 1
  {
    var header: Regs := map[KERNEL_GS_BASE := 1];
    var es := [Run(false, map[KERNEL_GS_BASE := 2], false), Sync, Change(Fg, map[Reg(Fg, 0) := v])];
    RunsExact(header, es[..2], KERNEL_GS_BASE);
    RunsExact(header, es, KERNEL_GS_BASE);
    hide After, Logical;
    assert es[..2][..1] == es[..1] && es[..1][..0] == [];
    assert Tracked(header, es[..1], KERNEL_GS_BASE) == Track(2, 1, true);
    assert Tracked(header, es[..2], KERNEL_GS_BASE) == Track(2, 1, true);
  }

  /** Over any interleaving of runs, dumps and safe edits, no register value is lost or invented. */
  lemma {:induction false} NothingLost(header: Regs, es: seq<Event>, r: Reg)
    requires Real(r) && AllSafe(header, es)
    ensures Logical(After(header, es), r) == Expected(header, es, r) && Shown(After(header, es), r)
  {
    hide Decode, Normal, Logical, Shown, Safe, Next, Real;
    if es == [] {
      CreatedShows(header, r);
    } else {
      var s, e := After(header, es[..|es| - 1]), es[|es| - 1];
      NothingLost(header, es[..|es| - 1], r);
      match e
      case Run(_, _, _) => RunKeeps(s, e, r);
      case Sync => SyncKeeps(s, r); SyncIsDump(s);
      case Change(_, _) => ChangeKeeps(s, e, r);
    }
  }

  lemma SyncIsDump(s: Vcpu)
    ensures Next(s, Sync) == Dump(s)
  {
  }

  lemma CreatedShows(header: Regs, r: Reg)
    ensures Logical(Created(header), r) == Normal(r, Read(header, r)) && Shown(Created(header), r)
  {
  }
}
