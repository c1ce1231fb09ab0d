/**
  The pool of shadow VMCBs behind nested virtualization on AMD: sixteen shadows, found by hashing
  the address of the guest hypervisor's VMCB, brought up to date group by group as far as its
  clean bits demand.
*/
module NestedVmcb {

  /** The thirteen groups of cached state, in the order of their clean bits. */
  datatype Group = Interceptions | IoMsrpm | Asid | Tpr | Npt | Cr | Dr | Dt | Seg | Cr2 | Lbr | Avic | Cet

  /** A field of a group, by its place in the group's copying routine, or one of no group. */
  datatype Field = In(group: Group, index: nat) | Plain(index: nat)

  type Fields = map<Field, nat>

  datatype Vmcb = Vmcb(fields: Fields, clean: set<Group>)

  const GROUPS: seq<Group> := [Interceptions, IoMsrpm, Asid, Tpr, Npt, Cr, Dr, Dt, Seg, Cr2, Lbr, Avic, Cet]

  /** How many fields a group has. Interceptions: control registers, debug registers, exceptions,
      three instruction vectors, pause threshold and count, time-stamp offset. Segments: selector,
      attributes, limit and base of CS, DS, ES and SS. */
  function Count(g: Group): (n: nat) {
    match g
    case Interceptions => 9 case IoMsrpm => 2 case Asid => 1 case Tpr => 1 case Npt => 3 case Cr => 4 case Dr => 2
    case Dt => 4 case Seg => 16 case Cr2 => 1 case Lbr => 5 case Avic => 4 case Cet => 3
  }

  predicate Grouped(f: Field) {
    f.In? && f.index < Count(f.group)
  }

  const INSTRUCTION1 := In(Interceptions, 3)
  const GUEST_ASID := In(Asid, 0)
  const NPT_CONTROL := In(Npt, 0)
  const NPT_CR3 := In(Npt, 1)
  const GUEST_PAT := In(Npt, 2)
  const GDTR_LIMIT := In(Dt, 0)
  const GDTR_BASE := In(Dt, 1)
  const IDTR_LIMIT := In(Dt, 2)
  const IDTR_BASE := In(Dt, 3)

  // Fields of no group: those copied on every entry, then the rest.
  const TLB_CONTROL := Plain(0)
  const GUEST_INTERRUPT := Plain(1)
  const EVENT_INJECTION := Plain(2)
  const RFLAGS := Plain(3)
  const RIP := Plain(4)
  const RSP := Plain(5)
  const RAX := Plain(6)
  const LBR_CONTROL := Plain(7)
  const CPL := Plain(8)
  const EXIT_CODE := Plain(9)
  const EXIT_INFO1 := Plain(10)
  const EXIT_INFO2 := Plain(11)
  const EXIT_INTERRUPT := Plain(12)
  const NEXT_RIP := Plain(13)
  const FETCHED := Plain(14)    // the number of bytes fetched, and the bytes

  const UNCACHED: seq<Field> := [TLB_CONTROL, GUEST_INTERRUPT, EVENT_INJECTION, RFLAGS, RIP, RSP, RAX]

  /** Memory that was never written holds zero. */
  function Read(m: Fields, f: Field): (v: nat) {
    if f in m then m[f] else 0
  }

  // ---- Copying ----

  function CopyAll(t: Fields, c: Fields, fs: seq<Field>): (m: Fields) {
    if fs == [] then t else
    var f := fs[|fs| - 1];
    CopyAll(t, c, fs[..|fs| - 1])[f := Read(c, f)]
  }

  lemma {:induction false} CopyAllRead(t: Fields, c: Fields, fs: seq<Field>, f: Field)
    ensures Read(CopyAll(t, c, fs), f) == if f in fs then Read(c, f) else Read(t, f)
  {
    if fs != [] { CopyAllRead(t, c, fs[..|fs| - 1], f); }
  }

  function FieldsOf(g: Group): (fs: seq<Field>)
    ensures forall f :: f in fs <==> Grouped(f) && f.group == g
  {
    var fs := seq(Count(g), i requires 0 <= i => In(g, i));
    assert forall f :: Grouped(f) && f.group == g ==> fs[f.index] == f;
    fs
  }

  function SetBit(v: nat, p: nat): (w: nat)
    requires p > 0
  {
    if v / p % 2 == 1 then v else v + p
  }

  /** CPUID (bit 18) and shutdown (bit 31) are always intercepted. */
  function AlwaysIntercept(v: nat): (w: nat) {
    SetBit(SetBit(v, 0x40000), 0x8000_0000)
  }

  /** A 32-bit identifier that is zero or negative becomes zero, any other is shifted by one. */
  function AsidFor(v: nat): (w: nat) {
    if v == 0 || v >= 0x8000_0000 then 0 else v + 1
  }

  /** Usable identifiers of guests stay apart from each other and from the host's 0 and the guest
      hypervisor's 1; all others become the invalid 0. */
  lemma AsidsStayApart(v: nat, w: nat)
    requires v < 0x1_0000_0000 && w < 0x1_0000_0000
    ensures AsidFor(v) == 0 <==> v == 0 || v >= 0x8000_0000
    ensures AsidFor(v) != 0 ==> AsidFor(v) > 1 && (AsidFor(v) == AsidFor(w) ==> v == w)
  {
  }

  /** Both intercepts are on in the shadow, and all other bits are the guest's. */
  lemma AlwaysInterceptBits(v: nat)
    ensures AlwaysIntercept(v) / 0x40000 % 2 == 1 && AlwaysIntercept(v) / 0x8000_0000 % 2 == 1
    ensures AlwaysIntercept(v) % 0x40000 == v % 0x40000 && AlwaysIntercept(v) / 0x1_0000_0000 == v / 0x1_0000_0000
    ensures AlwaysIntercept(v) / 0x80000 % 0x1000 == v / 0x80000 % 0x1000
  {
    hide SetBit;
    var w := SetBit(v, 0x40000);
    var u := SetBit(w, 0x8000_0000);
    LowSet(v);
    HighSet(w);
    LowHalf(u);
    LowHalf(w);
    HighHalf(w);
    HighHalf(v);
  }

  /** The bits below bit 31 decide the bits of interest there, and those from bit 19 on the bits
      from bit 32 on. */
  lemma LowHalf(v: nat)
    ensures var s := v % 0x8000_0000;
      v / 0x80000 % 0x1000 == s / 0x80000 && v / 0x40000 % 2 == s / 0x40000 % 2 && v % 0x40000 == s % 0x40000
  {
    var q, s := v / 0x8000_0000, v % 0x8000_0000;
    From19(q, s);
    From18(q, s);
  }

  lemma From19(q: nat, s: nat)
    requires s < 0x8000_0000
    ensures (0x8000_0000 * q + s) / 0x80000 % 0x1000 == s / 0x80000
  {
    var t, r := s / 0x80000, s % 0x80000;
    assert 0x8000_0000 * q + s == 0x80000 * (0x1000 * q + t) + r;
    assert (0x8000_0000 * q + s) / 0x80000 == 0x1000 * q + t;
  }

  lemma From18(q: nat, s: nat)
    requires s < 0x8000_0000
    ensures (0x8000_0000 * q + s) / 0x40000 % 2 == s / 0x40000 % 2
    ensures (0x8000_0000 * q + s) % 0x40000 == s % 0x40000
  {
    var t, r := s / 0x40000, s % 0x40000;
    assert 0x8000_0000 * q + s == 0x40000 * (0x2000 * q + t) + r;
    assert (0x8000_0000 * q + s) / 0x40000 == 0x2000 * q + t;
  }

  lemma HighHalf(v: nat)
    ensures v / 0x1_0000_0000 == v / 0x80000 / 0x2000
  {
  }

  lemma LowSet(v: nat)
    ensures var w := SetBit(v, 0x40000);
      w / 0x40000 % 2 == 1 && w % 0x40000 == v % 0x40000 && w / 0x80000 == v / 0x80000
  {
    var k, lo := v / 0x40000, v % 0x40000;
    assert v == 0x40000 * k + lo;
  }

  lemma HighSet(v: nat)
    ensures var w := SetBit(v, 0x8000_0000);
      w / 0x8000_0000 % 2 == 1 && w % 0x8000_0000 == v % 0x8000_0000 && w / 0x1_0000_0000 == v / 0x1_0000_0000
  {
    var k, lo := v / 0x8000_0000, v % 0x8000_0000;
    assert v == 0x8000_0000 * k + lo;
  }

  predicate NptOn(m: Fields) {
    Read(m, NPT_CONTROL) % 2 == 1
  }

  predicate LbrOn(m: Fields) {
    Read(m, LBR_CONTROL) % 2 == 1
  }

  /** The routine that copies one group from the guest's VMCB c to the shadow t and marks the group
      unclean there. The AVIC routine marks the last-branch group instead of its own. `ncr3` is the
      root of NoirVisor's own nested page table. */
  function CopyGroup(t: Vmcb, c: Fields, g: Group, ncr3: nat): (u: Vmcb) {
    match g
    case Interceptions =>
      var m := CopyAll(t.fields, c, FieldsOf(g));
      Vmcb(m[INSTRUCTION1 := AlwaysIntercept(Read(m, INSTRUCTION1))], t.clean - {g})
    case Asid =>
      Vmcb(t.fields[GUEST_ASID := AsidFor(Read(c, GUEST_ASID))], t.clean - {g})
    case Npt =>
      var m := if NptOn(c) then CopyAll(t.fields, c, [NPT_CONTROL, NPT_CR3])
        else t.fields[NPT_CONTROL := 1][NPT_CR3 := ncr3];
      Vmcb(CopyAll(m, c, [GUEST_PAT]), t.clean - {g})
    case Avic =>
      Vmcb(CopyAll(t.fields, c, FieldsOf(g)), t.clean - {Lbr})
    case _ =>
      Vmcb(CopyAll(t.fields, c, FieldsOf(g)), t.clean - {g})
  }

  /** What the shadow must hold for a field of the guest's VMCB. */
  function Shown(c: Fields, f: Field, ncr3: nat): (v: nat) {
    if f == INSTRUCTION1 then AlwaysIntercept(Read(c, f))
    else if f == GUEST_ASID then AsidFor(Read(c, f))
    else if f == NPT_CONTROL && !NptOn(c) then 1
    else if f == NPT_CR3 && !NptOn(c) then ncr3
    else Read(c, f)
  }

  /** A routine sets exactly the fields of its group, each to what it must hold. */
  lemma CopyGroupRead(t: Vmcb, c: Fields, g: Group, ncr3: nat, f: Field)
    ensures Read(CopyGroup(t, c, g, ncr3).fields, f) ==
      if Grouped(f) && f.group == g then Shown(c, f, ncr3) else Read(t.fields, f)
  {
    hide CopyAll;
    CopyAllRead(t.fields, c, FieldsOf(g), f);
    CopyAllRead(t.fields, c, FieldsOf(g), INSTRUCTION1);
    CopyAllRead(t.fields, c, [NPT_CONTROL, NPT_CR3], f);
    CopyAllRead(t.fields[NPT_CONTROL := 1][NPT_CR3 := ncr3], c, [GUEST_PAT], f);
    CopyAllRead(CopyAll(t.fields, c, [NPT_CONTROL, NPT_CR3]), c, [GUEST_PAT], f);
    if g == Npt && f.In? && f.group == Npt && f.index < 3 {
      assert f.index == 0 || f.index == 1 || f.index == 2;
    }
  }

  // ---- One entry and one exit ----

  /** The groups an entry copies: all of them for a shadow that is not clean, otherwise those
      whose clean bit the guest hypervisor left unset. */
  predicate Copies(valid: bool, c: Vmcb, g: Group) {
    !valid || g !in c.clean
  }

  function EnterGroups(valid: bool, t: Vmcb, c: Vmcb, ncr3: nat, n: nat): (u: Vmcb)
    requires n <= |GROUPS|
  {
    if n == 0 then t else
    var u := EnterGroups(valid, t, c, ncr3, n - 1);
    if Copies(valid, c, GROUPS[n - 1]) then CopyGroup(u, c.fields, GROUPS[n - 1], ncr3) else u
  }

  function Enter(valid: bool, t: Vmcb, c: Vmcb, ncr3: nat): (u: Vmcb) {
    var u := EnterGroups(valid, t, c, ncr3, |GROUPS|);
    u.(fields := CopyAll(u.fields, c.fields, UNCACHED))
  }

  /** The fields an exit copies back, in the order of the code: the descriptor-table base appears
      twice and the interrupt-table base never. */
  const BACK: seq<Field> := BACK_CONTROL + BACK_SEGMENTS + BACK_TABLES + BACK_REGISTERS

  const BACK_CONTROL: seq<Field> :=
    [EXIT_CODE, EXIT_INFO1, EXIT_INFO2, EXIT_INTERRUPT, NEXT_RIP, FETCHED, In(Tpr, 0), GUEST_INTERRUPT]
  const BACK_SEGMENTS: seq<Field> :=
    [In(Seg, 8), In(Seg, 9), In(Seg, 10), In(Seg, 11), In(Seg, 0), In(Seg, 1), In(Seg, 2), In(Seg, 3),
     In(Seg, 12), In(Seg, 13), In(Seg, 14), In(Seg, 15), In(Seg, 4), In(Seg, 5), In(Seg, 6), In(Seg, 7)]
  const BACK_TABLES: seq<Field> := [GDTR_LIMIT, GDTR_BASE, IDTR_LIMIT, GDTR_BASE]
  const BACK_REGISTERS: seq<Field> :=
    [CPL, In(Cr, 3), In(Cr, 2), In(Cr, 1), In(Cr, 0), In(Dr, 1), In(Dr, 0), RFLAGS, RIP, RSP,
     In(Cet, 0), In(Cet, 1), In(Cet, 2), RAX, In(Cr2, 0)]

  function Leave(t: Fields, c: Fields): (d: Fields) {
    var m := CopyAll(c, t, BACK);
    var n := if NptOn(t) then CopyAll(m, t, [GUEST_PAT]) else m;
    if LbrOn(t) then CopyAll(n, t, FieldsOf(Lbr)) else n
  }

  predicate CopiedBack(t: Fields, f: Field) {
    || f in BACK
    || (f == GUEST_PAT && NptOn(t))
    || (Grouped(f) && f.group == Lbr && LbrOn(t))
  }

  lemma LeaveRead(t: Fields, c: Fields, f: Field)
    ensures Read(Leave(t, c), f) == if CopiedBack(t, f) then Read(t, f) else Read(c, f)
  {
    hide CopyAll;
    var m := CopyAll(c, t, BACK);
    CopyAllRead(c, t, BACK, f);
    CopyAllRead(m, t, [GUEST_PAT], f);
    CopyAllRead(if NptOn(t) then CopyAll(m, t, [GUEST_PAT]) else m, t, FieldsOf(Lbr), f);
  }

  lemma EveryGroup(g: Group)
    ensures exists i :: 0 <= i < |GROUPS| && GROUPS[i] == g
  {
    assert GROUPS[0] == Interceptions && GROUPS[1] == IoMsrpm && GROUPS[2] == Asid && GROUPS[3] == Tpr
      && GROUPS[4] == Npt && GROUPS[5] == Cr && GROUPS[6] == Dr && GROUPS[7] == Dt && GROUPS[8] == Seg
      && GROUPS[9] == Cr2 && GROUPS[10] == Lbr && GROUPS[11] == Avic && GROUPS[12] == Cet;
  }

  lemma {:induction false} EnterGroupsRead(valid: bool, t: Vmcb, c: Vmcb, ncr3: nat, n: nat, f: Field)
    requires n <= |GROUPS|
    ensures Read(EnterGroups(valid, t, c, ncr3, n).fields, f) ==
      if Grouped(f) && f.group in GROUPS[..n] && Copies(valid, c, f.group) then Shown(c.fields, f, ncr3)
        else Read(t.fields, f)
  {
    hide CopyGroup, Shown, Read, Copies;
    if n != 0 {
      EnterGroupsRead(valid, t, c, ncr3, n - 1, f);
      CopyGroupRead(EnterGroups(valid, t, c, ncr3, n - 1), c.fields, GROUPS[n - 1], ncr3, f);
      assert GROUPS[..n] == GROUPS[..n - 1] + [GROUPS[n - 1]];
    }
  }

  /** What the shadow holds after an entry. */
  lemma EnterRead(valid: bool, t: Vmcb, c: Vmcb, ncr3: nat, f: Field)
    ensures Read(Enter(valid, t, c, ncr3).fields, f) ==
      if Grouped(f) && Copies(valid, c, f.group) then Shown(c.fields, f, ncr3)
      else if f in UNCACHED then Read(c.fields, f)
      else Read(t.fields, f)
  {
    hide CopyAll, Read, Shown, Copies, EnterGroups;
    var u := EnterGroups(valid, t, c, ncr3, |GROUPS|);
    CopyAllRead(u.fields, c.fields, UNCACHED, f);
    EnterGroupsRead(valid, t, c, ncr3, |GROUPS|, f);
    assert GROUPS[..|GROUPS|] == GROUPS;
    if Grouped(f) { EveryGroup(f.group); }
  }

  /** Which clean bits an entry takes from the shadow: the copied groups' own, except that copying
      the AVIC group takes the last-branch bit. */
  predicate Cleared(valid: bool, c: Vmcb, g: Group) {
    || (g != Avic && Copies(valid, c, g))
    || (g == Lbr && Copies(valid, c, Avic))
  }

  lemma CopyGroupClean(t: Vmcb, c: Fields, g: Group, ncr3: nat)
    ensures CopyGroup(t, c, g, ncr3).clean == t.clean - {if g == Avic then Lbr else g}
  {
    hide CopyAll;
  }

  lemma {:induction false} EnterGroupsClean(valid: bool, t: Vmcb, c: Vmcb, ncr3: nat, n: nat, g: Group)
    requires n <= |GROUPS|
    ensures g in EnterGroups(valid, t, c, ncr3, n).clean <==>
      && g in t.clean
      && !(g != Avic && g in GROUPS[..n] && Copies(valid, c, g))
      && !(g == Lbr && Avic in GROUPS[..n] && Copies(valid, c, Avic))
  {
    hide Copies, CopyGroup;
    if n != 0 {
      EnterGroupsClean(valid, t, c, ncr3, n - 1, g);
      CopyGroupClean(EnterGroups(valid, t, c, ncr3, n - 1), c.fields, GROUPS[n - 1], ncr3);
      assert GROUPS[..n] == GROUPS[..n - 1] + [GROUPS[n - 1]];
    }
  }

  lemma EnterClean(valid: bool, t: Vmcb, c: Vmcb, ncr3: nat, g: Group)
    ensures g in Enter(valid, t, c, ncr3).clean <==> g in t.clean && !Cleared(valid, c, g)
  {
    hide Copies, CopyAll, EnterGroups;
    EnterGroupsClean(valid, t, c, ncr3, |GROUPS|, g);
    assert GROUPS[..|GROUPS|] == GROUPS;
    EveryGroup(g);
    EveryGroup(Avic);
  }

  // ---- The hash ----

  /** The exclusive or of the hexadecimal digits of a number. */
  function Digits(n: nat): (h: bv4) {
    if n == 0 then 0 else Digits(n / 16) ^ ((n % 16) as bv4)
  }

  /** The place of a VMCB, given by page number, in the pool. */
  function Hash(page: nat): (h: nat)
    ensures h < 16
  {
    (0xC ^ Digits(page)) as nat
  }

  /** VMCBs in one aligned block of sixteen pages never share a shadow. */
  lemma BlockDoesNotCollide(block: nat, i: nat, j: nat)
    requires i < 16 && j < 16 && Hash(block * 16 + i) == Hash(block * 16 + j)
    ensures i == j
  {
    hide Digits;
    DigitsOf(block, i);
    DigitsOf(block, j);
    XorCancels(Digits(block), i as bv4, j as bv4);
  }

  lemma XorCancels(d: bv4, x: bv4, y: bv4)
    ensures 0xC ^ (d ^ x) == 0xC ^ (d ^ y) ==> x == y
  {
  }

  /** Every digit of the page number enters the hash once, from 0xC. */
  lemma HashByDigits(block: nat, i: nat)
    requires i < 16
    ensures Hash(0) == 12 && Hash(block * 16 + i) == ((Hash(block) as bv4) ^ (i as bv4)) as nat
  {
    hide Digits;
    DigitsOf(block, i);
    DigitsOf(0, 0);
    XorThrough(Digits(block), i as bv4);
    NoDigit();
  }

  lemma NoDigit()
    ensures Digits(0) == 0
  {
  }

  lemma XorThrough(d: bv4, x: bv4)
    ensures 0xC ^ (d ^ x) == (0xC ^ d) ^ x
  {
  }

  lemma DigitsOf(block: nat, i: nat)
    requires i < 16
    ensures Digits(block * 16 + i) == Digits(block) ^ (i as bv4)
  {
    assert (block * 16 + i) / 16 == block && (block * 16 + i) % 16 == i;
  }

  // ---- One virtual CPU ----

  /** The fields a shadow held when it last exited, if it ever ran. */
  datatype Seen = Never | At(fields: Fields)

  /** A shadow: the VMCB page it serves, whether it is valid for it, and its own VMCB. */
  datatype Node = Node(page: nat, valid: bool, t: Vmcb, seen: Seen)

  /** A guest hypervisor's VMCB, with the groups changed since it last ran. */
  datatype Guest = Guest(v: Vmcb, edited: set<Group>)

  /** Between an entry and its exit `running` names the shadow in use. */
  datatype Running = Hypervisor | Nested(node: nat)

  datatype Cpu = Cpu(pool: seq<Node>, memory: map<nat, Guest>, running: Running)

  const ALL: set<Group> := {Interceptions, IoMsrpm, Asid, Tpr, Npt, Cr, Dr, Dt, Seg, Cr2, Lbr, Avic, Cet}

  function GuestAt(s: Cpu, page: nat): (g: Guest) {
    if page in s.memory then s.memory[page] else Guest(Vmcb(map[], {}), {})
  }

  /** The guest hypervisor writes a field or the clean bits of a VMCB, or runs it. The nested guest
      changes its shadow through the processor, is served by NoirVisor alone (CPUID), or exits to
      its hypervisor. */
  datatype Event =
    | Write(page: nat, field: Field, value: nat)
    | SetClean(page: nat, clean: set<Group>)
    | Vmrun(page: nat)
    | Runs(fields: Fields)
    | Served(rax: nat, rip: nat)
    | Exit

  /** What a running guest can change in its shadow. */
  predicate Changeable(t: Fields, f: Field) {
    match f
    case Plain(_) => f != LBR_CONTROL
    case In(g, i) =>
      || g in {Tpr, Cr, Dr, Dt, Seg, Cr2, Cet}
      || (f == GUEST_PAT && NptOn(t))
      || (g == Lbr && LbrOn(t))
  }

  ghost predicate ChangesOnly(t: Fields, m: Fields) {
    forall f :: Read(m, f) != Read(t, f) ==> Changeable(t, f)
  }

  /** The clean-bit contract (section 15.15 of the AMD64 Architecture Programmer's Manual,
      Volume 2): a set bit promises that the group was not changed since the VMCB last ran. */
  ghost predicate Enabled(s: Cpu, e: Event) {
    match e
    case Write(_, _, _) => s.running == Hypervisor
    case SetClean(_, _) => s.running == Hypervisor
    case Vmrun(p) => s.running == Hypervisor && GuestAt(s, p).v.clean !! GuestAt(s, p).edited
    case Runs(m) => s.running.Nested? && s.running.node < |s.pool| && ChangesOnly(s.pool[s.running.node].t.fields, m)
    case Served(_, _) => s.running.Nested? && s.running.node < |s.pool|
    case Exit => s.running.Nested? && s.running.node < |s.pool|
  }

  /** Entry: the hashed shadow is taken over if it serves another VMCB, and brought up to date. */
  function VmrunStep(s: Cpu, p: nat, ncr3: nat): (u: Cpu)
    requires |s.pool| == 16
    ensures |u.pool| == 16
  {
    var i, g := Hash(p), GuestAt(s, p);
    var n := s.pool[i];
    var t := Enter(n.valid && n.page == p, n.t, g.v, ncr3);
    Cpu(s.pool[i := Node(p, true, t, n.seen)], s.memory[p := Guest(g.v, {})], Nested(i))
  }

  function SetShadow(s: Cpu, t: Vmcb): (u: Cpu)
    requires s.running.Nested? && s.running.node < |s.pool|
    ensures |u.pool| == |s.pool|
  {
    s.(pool := s.pool[s.running.node := s.pool[s.running.node].(t := t)])
  }

  /** Every exit marks the whole shadow clean; one that reaches the guest hypervisor copies back. */
  function ExitStep(s: Cpu): (u: Cpu)
    requires s.running.Nested? && s.running.node < |s.pool|
    ensures |u.pool| == |s.pool|
  {
    var i := s.running.node;
    var n := s.pool[i];
    var g := GuestAt(s, n.page);
    Cpu(s.pool[i := n.(t := n.t.(clean := ALL), seen := At(n.t.fields))],
        s.memory[n.page := g.(v := g.v.(fields := Leave(n.t.fields, g.v.fields)))], Hypervisor)
  }

  ghost function Next(s: Cpu, e: Event, ncr3: nat): (u: Cpu)
    requires |s.pool| == 16 && Enabled(s, e)
    ensures |u.pool| == 16
  {
    match e
    case Write(p, f, v) =>
      var g := GuestAt(s, p);
      s.(memory := s.memory[p :=
        Guest(g.v.(fields := g.v.fields[f := v]), if f.In? then g.edited + {f.group} else g.edited)])
    case SetClean(p, c) =>
      var g := GuestAt(s, p);
      s.(memory := s.memory[p := g.(v := g.v.(clean := c))])
    case Vmrun(p) => VmrunStep(s, p, ncr3)
    case Runs(m) => SetShadow(s, s.pool[s.running.node].t.(fields := m))
    case Served(rax, rip) => SetShadow(s, Vmcb(s.pool[s.running.node].t.fields[RAX := rax][RIP := rip], ALL))
    case Exit => ExitStep(s)
  }

  // ---- The invariant ----

  /** A field of the shadow that a running guest may have changed meanwhile. */
  predicate Loose(s: Cpu, i: nat, f: Field)
    requires i < |s.pool|
  {
    s.running == Nested(i) && Changeable(s.pool[i].t.fields, f)
  }

  /** A valid shadow sits at its VMCB's place and holds what that VMCB demands, but for groups the
      guest hypervisor has changed since and for the base of the interrupt table. */
  ghost predicate InStep(s: Cpu, i: nat, ncr3: nat)
    requires i < |s.pool|
  {
    var n := s.pool[i];
    n.valid ==>
      && Hash(n.page) == i && NptOn(n.t.fields)
      && forall f :: Grouped(f) && f != IDTR_BASE && f.group !in GuestAt(s, n.page).edited && !Loose(s, i, f) ==>
           Read(n.t.fields, f) == Shown(GuestAt(s, n.page).v.fields, f, ncr3)
  }

  /** A clean bit of an idle shadow, the AVIC bit apart, is backed by what the processor last saw. */
  ghost predicate Backed(s: Cpu, i: nat)
    requires i < |s.pool|
  {
    var n := s.pool[i];
    s.running != Nested(i) ==>
      forall g :: g in n.t.clean && g != Avic ==>
        n.seen.At? && forall f :: Grouped(f) && f.group == g ==> Read(n.t.fields, f) == Read(n.seen.fields, f)
  }

  ghost predicate Inv(s: Cpu, ncr3: nat) {
    && |s.pool| == 16
    && (forall i :: 0 <= i < 16 ==> InStep(s, i, ncr3) && Backed(s, i))
    && (s.running.Nested? ==>
          s.running.node < 16 && s.pool[s.running.node].valid && GuestAt(s, s.pool[s.running.node].page).edited == {})
  }

  /** As built: sixteen zeroed shadows that serve nothing. */
  function Start(): (s: Cpu) {
    Cpu(seq(16, _ => Node(0, false, Vmcb(map[], {}), Never)), map[], Hypervisor)
  }

  lemma StartInv(ncr3: nat)
    ensures Inv(Start(), ncr3)
  {
  }

  /** At every entry, after any run: the shadow holds exactly what copying all thirteen groups
      would give, but for the base of the interrupt table, which is right exactly when its group
      was copied or the two VMCBs happen to agree; and the always-copied fields are the guest's. */
  lemma EntryIsCoherent(s: Cpu, p: nat, ncr3: nat)
    requires Inv(s, ncr3) && Enabled(s, Vmrun(p))
    ensures var c, n, u := GuestAt(s, p).v, s.pool[Hash(p)], VmrunStep(s, p, ncr3).pool[Hash(p)];
      && (forall f :: Grouped(f) && f != IDTR_BASE ==> Read(u.t.fields, f) == Shown(c.fields, f, ncr3))
      && Read(u.t.fields, IDTR_BASE)
         == Read(if Copies(n.valid && n.page == p, c, Dt) then c.fields else n.t.fields, IDTR_BASE)
      && (forall f :: f in UNCACHED ==> Read(u.t.fields, f) == Read(c.fields, f))
      && NptOn(u.t.fields)
  {
    hide Enter, Read, Shown;
    var c, n := GuestAt(s, p).v, s.pool[Hash(p)];
    var valid := n.valid && n.page == p;
    forall f ensures Read(Enter(valid, n.t, c, ncr3).fields, f) ==
      if Grouped(f) && Copies(valid, c, f.group) then Shown(c.fields, f, ncr3)
      else if f in UNCACHED then Read(c.fields, f)
      else Read(n.t.fields, f)
    {
      EnterRead(valid, n.t, c, ncr3, f);
    }
    assert InStep(s, Hash(p), ncr3);
    ShownSpecial(c.fields, ncr3);
  }

  lemma ShownSpecial(c: Fields, ncr3: nat)
    ensures Shown(c, NPT_CONTROL, ncr3) % 2 == 1 && Shown(c, IDTR_BASE, ncr3) == Read(c, IDTR_BASE)
  {
  }

  /** At every entry, a clean bit of the shadow other than the AVIC bit tells the truth: the
      shadow ran before and its group is as the processor last saw it, across evictions. */
  lemma CleanBitsAreSound(s: Cpu, p: nat, ncr3: nat, g: Group)
    requires Inv(s, ncr3) && Enabled(s, Vmrun(p)) && g != Avic
    requires g in VmrunStep(s, p, ncr3).pool[Hash(p)].t.clean
    ensures var u := VmrunStep(s, p, ncr3).pool[Hash(p)];
      u.seen.At? && forall f :: Grouped(f) && f.group == g ==> Read(u.t.fields, f) == Read(u.seen.fields, f)
  {
    hide Enter, Read, Shown, Copies;
    var c, n := GuestAt(s, p).v, s.pool[Hash(p)];
    var valid := n.valid && n.page == p;
    EnterClean(valid, n.t, c, ncr3, g);
    assert Backed(s, Hash(p));
    forall f | Grouped(f) && f.group == g ensures Read(Enter(valid, n.t, c, ncr3).fields, f) == Read(n.t.fields, f) {
      EnterRead(valid, n.t, c, ncr3, f);
    }
  }

  /** The AVIC bit is never taken back: once a shadow has run it stays set at every entry, even at
      those that rewrite the group. */
  lemma AvicBitStays(s: Cpu, p: nat, ncr3: nat)
    requires |s.pool| == 16
    ensures Avic in VmrunStep(s, p, ncr3).pool[Hash(p)].t.clean <==> Avic in s.pool[Hash(p)].t.clean
  {
    hide Enter;
    var n := s.pool[Hash(p)];
    EnterClean(n.valid && n.page == p, n.t, GuestAt(s, p).v, ncr3, Avic);
  }

  /** So the bit lies exactly when an entry rewrites the group with something the processor has not
      seen. */
  lemma AvicBitLiesIff(s: Cpu, p: nat, ncr3: nat)
    requires Inv(s, ncr3) && Enabled(s, Vmrun(p)) && Avic in s.pool[Hash(p)].t.clean
    ensures var n, c := s.pool[Hash(p)], GuestAt(s, p).v;
      (exists f :: Grouped(f) && f.group == Avic
        && Read(VmrunStep(s, p, ncr3).pool[Hash(p)].t.fields, f) != Read(n.t.fields, f))
      <==> Copies(n.valid && n.page == p, c, Avic)
           && exists f :: Grouped(f) && f.group == Avic && Read(c.fields, f) != Read(n.t.fields, f)
  {
    hide Enter, Read;
    var n, c := s.pool[Hash(p)], GuestAt(s, p).v;
    forall f | Grouped(f) && f.group == Avic
      ensures Read(Enter(n.valid && n.page == p, n.t, c, ncr3).fields, f)
              == Read(if Copies(n.valid && n.page == p, c, Avic) then c.fields else n.t.fields, f)
    {
      EnterRead(n.valid && n.page == p, n.t, c, ncr3, f);
    }
  }

  // ---- Every step keeps the invariant ----

  lemma WriteKeeps(s: Cpu, e: Event, ncr3: nat)
    requires Inv(s, ncr3) && Enabled(s, e) && (e.Write? || e.SetClean?)
    ensures Inv(Next(s, e, ncr3), ncr3)
  {
    hide Hash;
    var u := Next(s, e, ncr3);
    forall i | 0 <= i < 16 ensures InStep(u, i, ncr3) && Backed(u, i) {
      assert InStep(s, i, ncr3) && Backed(s, i);
      if e.Write? && s.pool[i].page == e.page {
        WriteShown(GuestAt(s, e.page).v.fields, e.field, e.value, ncr3);
      }
      hide Shown, Read, Changeable, NptOn;
      assert InStep(u, i, ncr3);
    }
  }

  /** Writing a field changes what the shadow must hold in the field's own group only. */
  lemma WriteShown(c: Fields, x: Field, v: nat, ncr3: nat)
    ensures forall f :: Grouped(f) && !(x.In? && f.group == x.group) ==> Shown(c[x := v], f, ncr3) == Shown(c, f, ncr3)
  {
  }

  lemma VmrunKeeps(s: Cpu, p: nat, ncr3: nat)
    requires Inv(s, ncr3) && Enabled(s, Vmrun(p))
    ensures Inv(VmrunStep(s, p, ncr3), ncr3)
  {
    hide Hash, Shown, Read, Enter, Changeable;
    EntryIsCoherent(s, p, ncr3);
    var u := VmrunStep(s, p, ncr3);
    forall i | 0 <= i < 16 ensures InStep(u, i, ncr3) && Backed(u, i) {
      assert InStep(s, i, ncr3) && Backed(s, i);
    }
  }

  lemma RunsKeeps(s: Cpu, t: Vmcb, ncr3: nat)
    requires Inv(s, ncr3) && s.running.Nested? && ChangesOnly(s.pool[s.running.node].t.fields, t.fields)
    ensures Inv(SetShadow(s, t), ncr3)
  {
    hide Hash, Shown;
    var u, k := SetShadow(s, t), s.running.node;
    assert Read(t.fields, NPT_CONTROL) == Read(s.pool[k].t.fields, NPT_CONTROL);
    assert Read(t.fields, LBR_CONTROL) == Read(s.pool[k].t.fields, LBR_CONTROL);
    forall i | 0 <= i < 16 ensures InStep(u, i, ncr3) && Backed(u, i) {
      assert InStep(s, i, ncr3) && Backed(s, i);
    }
  }

  /** An exit leaves the guest's VMCB demanding just what the shadow holds. */
  lemma LeaveInStep(t: Fields, c: Fields, ncr3: nat, f: Field)
    requires Grouped(f) && f != IDTR_BASE && (Changeable(t, f) || Read(t, f) == Shown(c, f, ncr3))
    ensures Read(t, f) == Shown(Leave(t, c), f, ncr3)
  {
    hide Leave, CopiedBack, Changeable, AlwaysIntercept, AsidFor;
    LeaveRead(t, c, f);
    LeaveRead(t, c, NPT_CONTROL);
    ControlsStay(t);
    if Changeable(t, f) { ChangeableComesBack(t, f); }
  }

  /** State that belongs to the nested guest, whatever is switched on. */
  predicate GuestState(f: Field) {
    match f
    case Plain(i) => i != 0 && i != 2 && i != 7
    case In(g, _) => g !in {Interceptions, IoMsrpm, Asid, Npt, Lbr, Avic} && f != IDTR_BASE
  }

  lemma {:induction false} GuestStateIn(fs: seq<Field>, f: Field)
    requires f in fs && forall i :: 0 <= i < |fs| ==> GuestState(fs[i])
    ensures GuestState(f)
  {
  }

  lemma BackIsGuestState(f: Field)
    requires f in BACK
    ensures GuestState(f)
  {
    hide GuestState;
    if f in BACK_CONTROL {
      ControlIsGuestState(f);
    } else if f in BACK_SEGMENTS {
      SegmentsAreGuestState(f);
    } else if f in BACK_TABLES {
      TablesAreGuestState(f);
    } else {
      RegistersAreGuestState(f);
    }
  }

  lemma ControlIsGuestState(f: Field)
    requires f in BACK_CONTROL
    ensures GuestState(f)
  {
    GuestStateIn(BACK_CONTROL, f);
  }

  lemma SegmentsAreGuestState(f: Field)
    requires f in BACK_SEGMENTS
    ensures GuestState(f)
  {
    GuestStateIn(BACK_SEGMENTS, f);
  }

  lemma TablesAreGuestState(f: Field)
    requires f in BACK_TABLES
    ensures GuestState(f)
  {
    GuestStateIn(BACK_TABLES, f);
  }

  lemma RegistersAreGuestState(f: Field)
    requires f in BACK_REGISTERS
    ensures GuestState(f)
  {
    GuestStateIn(BACK_REGISTERS, f);
  }

  /** Nothing that NoirVisor decides for the shadow is copied back. */
  lemma ControlsStay(t: Fields)
    ensures !CopiedBack(t, INSTRUCTION1) && !CopiedBack(t, GUEST_ASID) && !CopiedBack(t, NPT_CONTROL)
      && !CopiedBack(t, NPT_CR3)
    ensures !CopiedBack(t, IDTR_BASE)
  {
    forall f | !GuestState(f) ensures f !in BACK {
      if f in BACK { BackIsGuestState(f); }
    }
  }

  // ---- Field by field ----

  predicate SameIn(a: Fields, b: Fields, f: Field) {
    Read(a, f) == Read(b, f)
  }

  /** a and b agree on the first n fields of a group. */
  predicate SameGroup(a: Fields, b: Fields, g: Group, n: nat) {
    forall i :: 0 <= i < n ==> SameIn(a, b, In(g, i))
  }

  /** What an exit makes d of the guest's VMCB c: what the guest hypervisor reads of its guest is the
      shadow t's, and what it controls its guest with stays its own. */
  predicate ExitGives(d: Fields, t: Fields, c: Fields) {
    && SameIn(d, t, EXIT_CODE) && SameIn(d, t, EXIT_INFO1) && SameIn(d, t, EXIT_INFO2)
    && SameIn(d, t, EXIT_INTERRUPT) && SameIn(d, t, NEXT_RIP) && SameIn(d, t, FETCHED)
    && SameIn(d, t, RIP) && SameIn(d, t, RSP) && SameIn(d, t, RAX) && SameIn(d, t, RFLAGS) && SameIn(d, t, CPL)
    && SameIn(d, t, GUEST_INTERRUPT)
    && SameGroup(d, t, Tpr, 1) && SameGroup(d, t, Cr, 4) && SameGroup(d, t, Dr, 2) && SameGroup(d, t, Dt, 3)
    && SameGroup(d, t, Seg, 16) && SameGroup(d, t, Cr2, 1) && SameGroup(d, t, Cet, 3)
    && SameIn(d, if Read(t, NPT_CONTROL) % 2 == 1 then t else c, GUEST_PAT)
    && SameGroup(d, if Read(t, LBR_CONTROL) % 2 == 1 then t else c, Lbr, 5)
    && SameIn(d, c, IDTR_BASE) && SameIn(d, c, NPT_CONTROL) && SameIn(d, c, NPT_CR3)
    && SameIn(d, c, TLB_CONTROL) && SameIn(d, c, EVENT_INJECTION) && SameIn(d, c, LBR_CONTROL)
    && SameGroup(d, c, Interceptions, 9) && SameGroup(d, c, IoMsrpm, 2) && SameGroup(d, c, Asid, 1)
    && SameGroup(d, c, Avic, 4)
  }

  lemma LeaveBack(t: Fields, c: Fields, f: Field)
    ensures f in BACK || (Grouped(f) && f.group != Dt && Changeable(t, f)) ==> Read(Leave(t, c), f) == Read(t, f)
    ensures !GuestState(f) && f != GUEST_PAT && !(f.In? && f.group == Lbr) ==> Read(Leave(t, c), f) == Read(c, f)
  {
    hide Leave;
    LeaveRead(t, c, f);
    if f in BACK { BackIsGuestState(f); }
    if Grouped(f) && f.group != Dt && Changeable(t, f) { ChangeableComesBack(t, f); }
  }

  lemma ControlsBack(f: Field)
    requires f in [EXIT_CODE, EXIT_INFO1, EXIT_INFO2, EXIT_INTERRUPT, NEXT_RIP, FETCHED, GUEST_INTERRUPT]
    ensures f in BACK
  {
    assert f in BACK_CONTROL;
  }

  lemma TablesBack(i: nat)
    requires i < 3
    ensures In(Dt, i) in BACK
  {
    assert i == 0 || i == 1 || i == 2;
    assert In(Dt, i) in BACK_TABLES;
  }

  lemma RegistersBack(f: Field)
    requires f in [RIP, RSP, RAX, RFLAGS, CPL]
    ensures f in BACK
  {
    assert f in BACK_REGISTERS;
  }

  /** What is copied back at every exit. */
  lemma LeaveGivesBack(t: Fields, c: Fields)
    ensures var d := Leave(t, c);
      && (forall f :: f in [EXIT_CODE, EXIT_INFO1, EXIT_INFO2, EXIT_INTERRUPT, NEXT_RIP, FETCHED, GUEST_INTERRUPT]
            ==> SameIn(d, t, f))
      && (forall f :: f in [RIP, RSP, RAX, RFLAGS, CPL] ==> SameIn(d, t, f))
      && SameGroup(d, t, Tpr, 1) && SameGroup(d, t, Cr, 4) && SameGroup(d, t, Dr, 2) && SameGroup(d, t, Dt, 3)
      && SameGroup(d, t, Seg, 16) && SameGroup(d, t, Cr2, 1) && SameGroup(d, t, Cet, 3)
  {
    hide Leave, Read, BACK;
    var d := Leave(t, c);
    forall f | f in [EXIT_CODE, EXIT_INFO1, EXIT_INFO2, EXIT_INTERRUPT, NEXT_RIP, FETCHED, GUEST_INTERRUPT]
      ensures SameIn(d, t, f)
    {
      ControlsBack(f);
      LeaveBack(t, c, f);
    }
    forall f | f in [RIP, RSP, RAX, RFLAGS, CPL] ensures SameIn(d, t, f) {
      RegistersBack(f);
      LeaveBack(t, c, f);
    }
    forall i | 0 <= i < 3 ensures SameIn(d, t, In(Dt, i)) {
      TablesBack(i);
      LeaveBack(t, c, In(Dt, i));
    }
    forall g, i: nat | g in {Tpr, Cr, Dr, Seg, Cr2, Cet} && i < Count(g) ensures SameIn(d, t, In(g, i)) {
      LeaveBack(t, c, In(g, i));
    }
  }

  /** What stays, and what is copied back only while it is switched on. */
  lemma LeaveLeaves(t: Fields, c: Fields)
    ensures var d := Leave(t, c);
      && SameIn(d, if Read(t, NPT_CONTROL) % 2 == 1 then t else c, GUEST_PAT)
      && SameGroup(d, if Read(t, LBR_CONTROL) % 2 == 1 then t else c, Lbr, 5)
      && (forall f :: f in [IDTR_BASE, NPT_CONTROL, NPT_CR3, TLB_CONTROL, EVENT_INJECTION, LBR_CONTROL]
            ==> SameIn(d, c, f))
      && SameGroup(d, c, Interceptions, 9) && SameGroup(d, c, IoMsrpm, 2) && SameGroup(d, c, Asid, 1)
      && SameGroup(d, c, Avic, 4)
  {
    hide Leave, Read, BACK;
    var d := Leave(t, c);
    LeaveSwitched(t, c, GUEST_PAT);
    forall i | 0 <= i < 5
      ensures SameIn(d, if Read(t, LBR_CONTROL) % 2 == 1 then t else c, In(Lbr, i))
    {
      LeaveSwitched(t, c, In(Lbr, i));
    }
    forall f | f in [IDTR_BASE, NPT_CONTROL, NPT_CR3, TLB_CONTROL, EVENT_INJECTION, LBR_CONTROL]
      ensures SameIn(d, c, f)
    {
      LeaveBack(t, c, f);
    }
    forall g, i: nat | g in {Interceptions, IoMsrpm, Asid, Avic} ensures SameIn(d, c, In(g, i)) {
      LeaveBack(t, c, In(g, i));
    }
  }

  lemma LeaveSwitched(t: Fields, c: Fields, f: Field)
    requires f == GUEST_PAT || (Grouped(f) && f.group == Lbr)
    ensures var on := if f == GUEST_PAT then NptOn(t) else LbrOn(t);
      Read(Leave(t, c), f) == Read(if on then t else c, f)
  {
    hide Leave, Read, BACK;
    LeaveRead(t, c, f);
    if f in BACK { BackIsGuestState(f); }
  }

  lemma LeaveGives(t: Fields, c: Fields)
    ensures ExitGives(Leave(t, c), t, c)
  {
    hide Leave, SameGroup, SameIn;
    LeaveGivesBack(t, c);
    LeaveLeaves(t, c);
  }

  /** What an entry makes u of a shadow that was t: the guest's VMCB c, but for two interceptions that
      are always on, the shifted identifier, NoirVisor's own nested page table while the guest
      hypervisor uses none, and what an entry never touches. */
  predicate EntryGives(u: Fields, t: Fields, c: Fields, ncr3: nat) {
    && SameIn(u, c, RIP) && SameIn(u, c, RSP) && SameIn(u, c, RAX) && SameIn(u, c, RFLAGS)
    && SameIn(u, c, EVENT_INJECTION) && SameIn(u, c, GUEST_INTERRUPT) && SameIn(u, c, TLB_CONTROL)
    && SameGroup(u, c, Interceptions, 3) && (forall i :: 4 <= i < 9 ==> SameIn(u, c, In(Interceptions, i)))
    && (var v, w := Read(c, In(Interceptions, 3)), Read(u, In(Interceptions, 3));
        && w / 0x40000 % 2 == 1 && w / 0x8000_0000 % 2 == 1
        && w % 0x40000 == v % 0x40000 && w / 0x80000 % 0x1000 == v / 0x80000 % 0x1000
        && w / 0x1_0000_0000 == v / 0x1_0000_0000)
    && SameGroup(u, c, IoMsrpm, 2) && SameGroup(u, c, Tpr, 1) && SameGroup(u, c, Cr, 4) && SameGroup(u, c, Dr, 2)
    && SameGroup(u, c, Dt, 3) && SameGroup(u, c, Seg, 16) && SameGroup(u, c, Cr2, 1) && SameGroup(u, c, Lbr, 5)
    && SameGroup(u, c, Avic, 4) && SameGroup(u, c, Cet, 3) && SameIn(u, c, GUEST_PAT)
    && (var a := Read(c, In(Asid, 0)); Read(u, In(Asid, 0)) == if a == 0 || a >= 0x8000_0000 then 0 else a + 1)
    && (if Read(c, NPT_CONTROL) % 2 == 1 then SameIn(u, c, NPT_CONTROL) && SameIn(u, c, NPT_CR3)
        else Read(u, NPT_CONTROL) == 1 && Read(u, NPT_CR3) == ncr3)
    && SameIn(u, t, LBR_CONTROL) && SameIn(u, t, CPL) && SameIn(u, t, EXIT_CODE) && SameIn(u, t, EXIT_INFO1)
    && SameIn(u, t, EXIT_INFO2) && SameIn(u, t, EXIT_INTERRUPT) && SameIn(u, t, NEXT_RIP) && SameIn(u, t, FETCHED)
  }

  /** Field f is the guest's, unless it is special or of no group. */
  predicate Forwards(u: Fields, c: Fields, f: Field) {
    Grouped(f) && f !in [In(Interceptions, 3), In(Asid, 0), NPT_CONTROL, NPT_CR3, IDTR_BASE] ==> SameIn(u, c, f)
  }

  /** The fields of no group. */
  ghost predicate PlainGives(u: Fields, t: Fields, c: Fields) {
    && SameIn(u, c, RIP) && SameIn(u, c, RSP) && SameIn(u, c, RAX) && SameIn(u, c, RFLAGS)
    && SameIn(u, c, EVENT_INJECTION) && SameIn(u, c, GUEST_INTERRUPT) && SameIn(u, c, TLB_CONTROL)
    && forall i: nat :: i >= 7 ==> SameIn(u, t, Plain(i))
  }

  /** The special ones. */
  predicate SpecialGives(u: Fields, c: Fields, ncr3: nat) {
    && Read(u, In(Interceptions, 3)) == AlwaysIntercept(Read(c, In(Interceptions, 3)))
    && (var a := Read(c, In(Asid, 0)); Read(u, In(Asid, 0)) == if a == 0 || a >= 0x8000_0000 then 0 else a + 1)
    && (if Read(c, NPT_CONTROL) % 2 == 1 then SameIn(u, c, NPT_CONTROL) && SameIn(u, c, NPT_CR3)
        else Read(u, NPT_CONTROL) == 1 && Read(u, NPT_CR3) == ncr3)
  }

  lemma GivesAll(u: Fields, t: Fields, c: Fields, ncr3: nat)
    requires PlainGives(u, t, c) && SpecialGives(u, c, ncr3) && forall f :: Forwards(u, c, f)
    ensures EntryGives(u, t, c, ncr3)
  {
    hide Read, AlwaysIntercept, SameIn;
    AlwaysInterceptBits(Read(c, In(Interceptions, 3)));
    forall g, i: nat | i < Count(g) && (g in {IoMsrpm, Tpr, Cr, Dr, Seg, Cr2, Lbr, Avic, Cet}
        || (g == Dt && i < 3) || (g == Interceptions && i != 3) || (g == Npt && i == 2))
      ensures SameIn(u, c, In(g, i))
    {
      assert Forwards(u, c, In(g, i));
    }
  }

  lemma VmrunPlain(s: Cpu, p: nat, ncr3: nat)
    requires Inv(s, ncr3) && Enabled(s, Vmrun(p))
    ensures PlainGives(VmrunStep(s, p, ncr3).pool[Hash(p)].t.fields, s.pool[Hash(p)].t.fields, GuestAt(s, p).v.fields)
  {
    hide Hash, Enter, Read, Shown;
    EntryIsCoherent(s, p, ncr3);
    var t, c, u := s.pool[Hash(p)], GuestAt(s, p).v, VmrunStep(s, p, ncr3).pool[Hash(p)].t;
    forall i: nat | i >= 7 ensures SameIn(u.fields, t.t.fields, Plain(i)) {
      EnterRead(t.valid && t.page == p, t.t, c, ncr3, Plain(i));
    }
    assert forall f :: f in [RIP, RSP, RAX, RFLAGS, EVENT_INJECTION, GUEST_INTERRUPT, TLB_CONTROL] ==> f in UNCACHED;
  }

  lemma VmrunForwards(s: Cpu, p: nat, ncr3: nat, f: Field)
    requires Inv(s, ncr3) && Enabled(s, Vmrun(p))
    ensures Forwards(VmrunStep(s, p, ncr3).pool[Hash(p)].t.fields, GuestAt(s, p).v.fields, f)
  {
    hide Hash, VmrunStep, Read, GuestAt;
    EntryIsCoherent(s, p, ncr3);
  }

  lemma VmrunSpecial(s: Cpu, p: nat, ncr3: nat)
    requires Inv(s, ncr3) && Enabled(s, Vmrun(p))
    ensures SpecialGives(VmrunStep(s, p, ncr3).pool[Hash(p)].t.fields, GuestAt(s, p).v.fields, ncr3)
  {
    hide Hash, VmrunStep, Read, GuestAt, AlwaysIntercept;
    EntryIsCoherent(s, p, ncr3);
  }

  /** After any run an entry gives the shadow all this. */
  lemma VmrunGives(s: Cpu, p: nat, ncr3: nat)
    requires Inv(s, ncr3) && Enabled(s, Vmrun(p))
    ensures EntryGives(VmrunStep(s, p, ncr3).pool[Hash(p)].t.fields, s.pool[Hash(p)].t.fields,
      GuestAt(s, p).v.fields, ncr3)
  {
    hide Enabled, Hash, VmrunStep, GuestAt, Forwards, PlainGives, SpecialGives, EntryGives;
    var u, t, c := VmrunStep(s, p, ncr3).pool[Hash(p)].t.fields, s.pool[Hash(p)].t.fields, GuestAt(s, p).v.fields;
    forall f ensures Forwards(u, c, f) {
      VmrunForwards(s, p, ncr3, f);
    }
    VmrunPlain(s, p, ncr3);
    VmrunSpecial(s, p, ncr3);
    GivesAll(u, t, c, ncr3);
  }

  /** Which clean bits an entry leaves the shadow, and whose base of the interrupt table: a group counts
      as clean if it was, the shadow served this VMCB already, and the guest hypervisor says so; the
      last-branch group only if the AVIC group does too, and the AVIC group whatever is said. */
  lemma VmrunCleans(s: Cpu, p: nat, ncr3: nat, g: Group)
    requires |s.pool| == 16
    ensures var n, c, u := s.pool[Hash(p)], GuestAt(s, p).v, VmrunStep(s, p, ncr3).pool[Hash(p)];
      var kept := n.valid && n.page == p;
      && (g in u.t.clean <==>
            g in n.t.clean && (g == Avic || (kept && g in c.clean && (g == Lbr ==> Avic in c.clean))))
      && Read(u.t.fields, IDTR_BASE) == Read(if kept && Dt in c.clean then n.t.fields else c.fields, IDTR_BASE)
  {
    hide Hash, Enter, Read;
    var n, c := s.pool[Hash(p)], GuestAt(s, p).v;
    EnterClean(n.valid && n.page == p, n.t, c, ncr3, g);
    EnterRead(n.valid && n.page == p, n.t, c, ncr3, IDTR_BASE);
  }

  /** The base of the interrupt table is not copied back: a nested guest that exits and is entered
      again keeps its own base exactly when its hypervisor left the group clean or the bases agree. */
  lemma IdtBaseSurvivesIff(s: Cpu, ncr3: nat)
    requires Inv(s, ncr3) && s.running.Nested? && s.running.node < 16
    requires Enabled(ExitStep(s), Vmrun(s.pool[s.running.node].page))
    ensures var k := s.running.node; var n := s.pool[k];
      var c := GuestAt(s, n.page).v;
      Read(VmrunStep(ExitStep(s), n.page, ncr3).pool[k].t.fields, IDTR_BASE) == Read(n.t.fields, IDTR_BASE)
      <==> Dt in c.clean || Read(c.fields, IDTR_BASE) == Read(n.t.fields, IDTR_BASE)
  {
    hide Hash, Shown, Leave, Enter, Read, CopiedBack;
    var n := s.pool[s.running.node];
    assert InStep(s, s.running.node, ncr3);
    ExitKeeps(s, ncr3);
    EntryIsCoherent(ExitStep(s), n.page, ncr3);
    LeaveRead(n.t.fields, GuestAt(s, n.page).v.fields, IDTR_BASE);
    ControlsStay(n.t.fields);
  }

  lemma ChangeableComesBack(t: Fields, f: Field)
    requires Grouped(f) && f != IDTR_BASE && Changeable(t, f)
    ensures CopiedBack(t, f)
  {
  }

  lemma ExitKeeps(s: Cpu, ncr3: nat)
    requires Inv(s, ncr3) && s.running.Nested?
    ensures Inv(ExitStep(s), ncr3)
  {
    hide Hash, Shown, Leave, Changeable;
    var u, k := ExitStep(s), s.running.node;
    var n := s.pool[k];
    assert InStep(s, k, ncr3);
    forall f | Grouped(f) && f != IDTR_BASE
      ensures Read(n.t.fields, f) == Shown(Leave(n.t.fields, GuestAt(s, n.page).v.fields), f, ncr3)
    {
      LeaveInStep(n.t.fields, GuestAt(s, n.page).v.fields, ncr3, f);
    }
    forall i | 0 <= i < 16 ensures InStep(u, i, ncr3) && Backed(u, i) {
      assert InStep(s, i, ncr3) && Backed(s, i);
    }
  }

  /** Whatever the guest hypervisor and its guests do within the contract, the invariant holds. */
  lemma StepKeeps(s: Cpu, e: Event, ncr3: nat)
    requires Inv(s, ncr3) && Enabled(s, e)
    ensures Inv(Next(s, e, ncr3), ncr3)
  {
    hide Inv, ExitStep, VmrunStep;
    assert |s.pool| == 16 by { PoolSize(s, ncr3); }
    match e
    case Write(_, _, _) => WriteKeeps(s, e, ncr3);
    case SetClean(_, _) => WriteKeeps(s, e, ncr3);
    case Vmrun(p) => VmrunKeeps(s, p, ncr3);
    case Runs(m) => RunsKeeps(s, s.pool[s.running.node].t.(fields := m), ncr3);
    case Served(rax, rip) => RunsKeeps(s, Vmcb(s.pool[s.running.node].t.fields[RAX := rax][RIP := rip], ALL), ncr3);
    case Exit => ExitKeeps(s, ncr3);
  }

  lemma PoolSize(s: Cpu, ncr3: nat)
    requires Inv(s, ncr3)
    ensures |s.pool| == 16
  {
  }

  ghost predicate IsRun(ss: seq<Cpu>, es: seq<Event>, ncr3: nat) {
    && |ss| == |es| + 1 && ss[0] == Start()
    && forall k :: 0 <= k < |es| && |ss[k].pool| == 16 ==>
         Enabled(ss[k], es[k]) && ss[k + 1] == Next(ss[k], es[k], ncr3)
  }

  lemma {:induction false} InvThroughout(ss: seq<Cpu>, es: seq<Event>, ncr3: nat, k: nat)
    requires IsRun(ss, es, ncr3) && k < |ss|
    ensures Inv(ss[k], ncr3)
  {
    hide Inv, Next, Enabled;
    if k == 0 {
      StartInv(ncr3);
    } else {
      InvThroughout(ss, es, ncr3, k - 1);
      PoolSize(ss[k - 1], ncr3);
      assert ss[k - 1 + 1] == Next(ss[k - 1], es[k - 1], ncr3);
      StepKeeps(ss[k - 1], es[k - 1], ncr3);
    }
  }

  /** In every run from the start, each entry finds the shadow coherent and its clean bits sound. */
  lemma EntriesInRuns(ss: seq<Cpu>, es: seq<Event>, ncr3: nat, k: nat, f: Field)
    requires IsRun(ss, es, ncr3) && k < |es| && es[k].Vmrun? && Grouped(f) && f != IDTR_BASE
    ensures |ss[k + 1].pool| == 16
    ensures var p := es[k].page; var u := ss[k + 1].pool[Hash(p)];
      && Read(u.t.fields, f) == Shown(GuestAt(ss[k], p).v.fields, f, ncr3)
      && (f.group in u.t.clean && f.group != Avic ==> u.seen.At? && Read(u.t.fields, f) == Read(u.seen.fields, f))
  {
    InvThroughout(ss, es, ncr3, k);
    hide Hash, Shown, Read;
    PoolSize(ss[k], ncr3);
    var p := es[k].page;
    assert ss[k + 1] == Next(ss[k], es[k], ncr3) && Enabled(ss[k], es[k]);
    EntryIsCoherent(ss[k], p, ncr3);
    if f.group != Avic && f.group in VmrunStep(ss[k], p, ncr3).pool[Hash(p)].t.clean {
      CleanBitsAreSound(ss[k], p, ncr3, f.group);
    }
  }

  /** In every run from the start, each entry gives the shadow what the guest hypervisor asked for. */
  lemma EntriesGive(ss: seq<Cpu>, es: seq<Event>, ncr3: nat, k: nat)
    requires IsRun(ss, es, ncr3) && k < |es| && es[k].Vmrun?
    ensures |ss[k].pool| == |ss[k + 1].pool| == 16
    ensures var i := Hash(es[k].page);
      && ss[k + 1].running == Nested(i)
      && EntryGives(ss[k + 1].pool[i].t.fields, ss[k].pool[i].t.fields, GuestAt(ss[k], es[k].page).v.fields, ncr3)
  {
    InvThroughout(ss, es, ncr3, k);
    hide Hash, Enter, Inv, EntryGives;
    PoolSize(ss[k], ncr3);
    assert ss[k + 1] == Next(ss[k], es[k], ncr3) && Enabled(ss[k], es[k]);
    VmrunGives(ss[k], es[k].page, ncr3);
  }

  /** In every run from the start, each exit gives the guest hypervisor what its guest left: right after
      a stretch of running, all that the guest then had. */
  lemma ExitsGive(ss: seq<Cpu>, es: seq<Event>, ncr3: nat, k: nat)
    requires IsRun(ss, es, ncr3) && k < |es| && es[k] == Exit
    ensures |ss[k].pool| == 16 && ss[k].running.Nested? && ss[k].running.node < 16 && ss[k + 1].running == Hypervisor
    ensures var n := ss[k].pool[ss[k].running.node];
      && ExitGives(GuestAt(ss[k + 1], n.page).v.fields, n.t.fields, GuestAt(ss[k], n.page).v.fields)
      && (k > 0 && es[k - 1].Runs? ==> n.t.fields == es[k - 1].fields)
  {
    InvThroughout(ss, es, ncr3, k);
    hide Hash, Leave, Inv, ExitGives;
    PoolSize(ss[k], ncr3);
    assert ss[k + 1] == Next(ss[k], es[k], ncr3) && Enabled(ss[k], es[k]);
    var n := ss[k].pool[ss[k].running.node];
    LeaveGives(n.t.fields, GuestAt(ss[k], n.page).v.fields);
    if k > 0 && es[k - 1].Runs? {
      InvThroughout(ss, es, ncr3, k - 1);
      PoolSize(ss[k - 1], ncr3);
      assert ss[k - 1 + 1] == Next(ss[k - 1], es[k - 1], ncr3);
    }
  }

  /** What the guest hypervisor writes to one of its VMCBs is there, with nothing else changed. */
  lemma WritesShow(ss: seq<Cpu>, es: seq<Event>, ncr3: nat, k: nat, p: nat, f: Field)
    requires IsRun(ss, es, ncr3) && k < |es| && (es[k].Write? || es[k].SetClean?)
    ensures ss[k + 1].pool == ss[k].pool && ss[k].running == ss[k + 1].running == Hypervisor
    ensures var e, v, w := es[k], GuestAt(ss[k], p).v, GuestAt(ss[k + 1], p).v;
      && Read(w.fields, f) == (if e.Write? && e.page == p && e.field == f then e.value else Read(v.fields, f))
      && w.clean == if e.SetClean? && e.page == p then e.clean else v.clean
  {
    InvThroughout(ss, es, ncr3, k);
    hide Hash, Inv;
    PoolSize(ss[k], ncr3);
    assert ss[k + 1] == Next(ss[k], es[k], ncr3) && Enabled(ss[k], es[k]);
  }

  /** An exit that NoirVisor serves alone changes two registers of the guest, leaves the whole shadow
      clean, and tells the guest hypervisor nothing. */
  lemma ServesAlone(ss: seq<Cpu>, es: seq<Event>, ncr3: nat, k: nat, f: Field)
    requires IsRun(ss, es, ncr3) && k < |es| && es[k].Served?
    ensures |ss[k].pool| == |ss[k + 1].pool| == 16 && ss[k].running.Nested? && ss[k].running.node < 16
    ensures var t, u := ss[k].pool[ss[k].running.node].t, ss[k + 1].pool[ss[k].running.node].t;
      && Read(u.fields, f) == (if f == RAX then es[k].rax else if f == RIP then es[k].rip else Read(t.fields, f))
      && (forall g :: g in u.clean) && ss[k + 1].memory == ss[k].memory && ss[k + 1].running == ss[k].running
  {
    InvThroughout(ss, es, ncr3, k);
    hide Hash, Inv;
    PoolSize(ss[k], ncr3);
    assert ss[k + 1] == Next(ss[k], es[k], ncr3) && Enabled(ss[k], es[k]);
    forall g ensures g in ALL {
      match g {
        case Interceptions => case IoMsrpm => case Asid => case Tpr => case Npt => case Cr => case Dr =>
        case Dt => case Seg => case Cr2 => case Lbr => case Avic => case Cet =>
      }
    }
  }

  // ---- Runs that show what goes wrong ----

  const ENTERED := Guest(Vmcb(map[], {}), {})

  /** The first two states of a run that enters the VMCB at page 0. */
  lemma FirstEntry(ncr3: nat) returns (s: Cpu)
    ensures Enabled(Start(), Vmrun(0)) && s == Next(Start(), Vmrun(0), ncr3)
    ensures |s.pool| == 16 && s.running == Nested(Hash(0)) && s.memory == map[0 := ENTERED] && s.pool[Hash(0)].page == 0
    ensures Read(s.pool[Hash(0)].t.fields, IDTR_BASE) == 0 && Read(s.pool[Hash(0)].t.fields, In(Avic, 0)) == 0
  {
    hide Hash, Enter;
    s := Next(Start(), Vmrun(0), ncr3);
    EnterRead(false, Vmcb(map[], {}), Vmcb(map[], {}), ncr3, IDTR_BASE);
    EnterRead(false, Vmcb(map[], {}), Vmcb(map[], {}), ncr3, In(Avic, 0));
  }

  /** A nested guest loads its interrupt table, exits and is entered again: the base is gone. */
  lemma IdtBaseLost(ncr3: nat) returns (ss: seq<Cpu>, es: seq<Event>)
    ensures IsRun(ss, es, ncr3) && |es| == 4 && es[1].Runs? && es[2] == Exit && es[0] == es[3] == Vmrun(0)
    ensures |ss[2].pool| == |ss[4].pool| == 16 && Read(ss[2].pool[Hash(0)].t.fields, IDTR_BASE) == 5
    ensures Read(ss[4].pool[Hash(0)].t.fields, IDTR_BASE) != 5
  {
    hide Hash, VmrunStep, Leave;
    var s1 := FirstEntry(ncr3);
    var m := s1.pool[Hash(0)].t.fields[IDTR_BASE := 5];
    var s2 := Next(s1, Runs(m), ncr3);
    var s3 := Next(s2, Exit, ncr3);
    var s4 := Next(s3, Vmrun(0), ncr3);
    ss, es := [Start(), s1, s2, s3, s4], [Vmrun(0), Runs(m), Exit, Vmrun(0)];
    InvThroughout(ss, es, ncr3, 2);
    IdtBaseSurvivesIff(s2, ncr3);
  }

  /** A guest hypervisor changes a field of the AVIC group after its guest has run and leaves all
      clean bits unset; the next entry rewrites the group and still marks it clean. */
  lemma AvicBitLies(ncr3: nat) returns (ss: seq<Cpu>, es: seq<Event>)
    ensures IsRun(ss, es, ncr3) && es == [Vmrun(0), Exit, Write(0, In(Avic, 0), 7), Vmrun(0)]
    ensures |ss[4].pool| == 16
    ensures var u := ss[4].pool[Hash(0)];
      Avic in u.t.clean && u.seen.At? && Read(u.seen.fields, In(Avic, 0)) == 0 && Read(u.t.fields, In(Avic, 0)) == 7
  {
    hide Hash, Enter, Leave;
    var s1 := FirstEntry(ncr3);
    var s2 := Next(s1, Exit, ncr3);
    var s3 := Next(s2, Write(0, In(Avic, 0), 7), ncr3);
    var s4 := Next(s3, Vmrun(0), ncr3);
    ss, es := [Start(), s1, s2, s3, s4], [Vmrun(0), Exit, Write(0, In(Avic, 0), 7), Vmrun(0)];
    var n, c := s3.pool[Hash(0)], GuestAt(s3, 0).v;
    AvicBitStays(s3, 0, ncr3);
    EnterRead(n.valid && n.page == 0, n.t, c, ncr3, In(Avic, 0));
  }
}
