/**
  The same pool in place: shadow pages written field by field.
*/
module NestedPool {
  import opened NestedVmcb

  /** A page that holds a VMCB. */
  class VmcbPage {
    var fields: Fields
    var clean: set<Group>

    constructor ()
      ensures State() == Vmcb(map[], {})
    {
      fields, clean := map[], {};
    }

    function State(): (v: Vmcb)
      reads this
    {
      Vmcb(fields, clean)
    }

    method CopyFrom(c: VmcbPage, fs: seq<Field>)
      requires c != this
      modifies this`fields
      ensures fields == CopyAll(old(fields), c.fields, fs)
    {
      for i := 0 to |fs|
        invariant fields == CopyAll(old(fields), c.fields, fs[..i])
      {
        fields := fields[fs[i] := Read(c.fields, fs[i])];
        assert fs[..i + 1][..i] == fs[..i];
      }
      assert fs[..|fs|] == fs;
    }

    /** The thirteen routines that bring one group of a shadow up to date. */
    method CleanGroup(c: VmcbPage, g: Group, ncr3: nat)
      requires c != this
      modifies this
      ensures State() == CopyGroup(old(State()), c.fields, g, ncr3)
    {
      hide CopyAll;
      match g {
        case Interceptions =>
          CopyFrom(c, FieldsOf(g));
          fields := fields[INSTRUCTION1 := AlwaysIntercept(Read(fields, INSTRUCTION1))];
          clean := clean - {Interceptions};
        case Asid =>
          var asid := Read(c.fields, GUEST_ASID);
          fields := fields[GUEST_ASID := AsidFor(asid)];
          clean := clean - {Asid};
        case Npt =>
          if NptOn(c.fields) {
            CopyFrom(c, [NPT_CONTROL, NPT_CR3]);
          } else {
            fields := fields[NPT_CONTROL := 1];
            fields := fields[NPT_CR3 := ncr3];
          }
          CopyFrom(c, [GUEST_PAT]);
          clean := clean - {Npt};
        case Avic =>
          CopyFrom(c, FieldsOf(g));
          clean := clean - {Lbr};
        case _ =>
          CopyFrom(c, FieldsOf(g));
          clean := clean - {g};
      }
    }
  }

  /** One place of the pool. */
  class PoolNode {
    var page: nat       // the guest VMCB served
    var valid: bool
    const t: VmcbPage

    constructor ()
      ensures page == 0 && !valid && fresh(t) && t.State() == Vmcb(map[], {})
    {
      page, valid := 0, false;
      t := new VmcbPage();
    }

    /** Brings the shadow up to date with the guest's VMCB c. */
    method SwitchTo(c: VmcbPage, ncr3: nat)
      requires c != t
      modifies this`valid, t
      ensures valid && t.State() == Enter(old(valid), old(t.State()), c.State(), ncr3)
    {
      hide CopyGroup, CopyAll;
      for i := 0 to |GROUPS|
        invariant valid == old(valid) && c.State() == old(c.State())
        invariant t.State() == EnterGroups(valid, old(t.State()), c.State(), ncr3, i)
        modifies t
      {
        if !valid || GROUPS[i] !in c.clean {
          t.CleanGroup(c, GROUPS[i], ncr3);
        }
      }
      t.CopyFrom(c, UNCACHED);
      valid := true;
    }

    /** Copies what the nested guest did back to the guest's VMCB. */
    method SwitchFrom(c: VmcbPage)
      requires c != t
      modifies c`fields
      ensures c.fields == Leave(t.fields, old(c.fields))
    {
      hide CopyAll;
      c.CopyFrom(t, BACK);
      if NptOn(t.fields) { c.CopyFrom(t, [GUEST_PAT]); }
      if LbrOn(t.fields) { c.CopyFrom(t, FieldsOf(Lbr)); }
    }
  }

  function Pow16(n: nat): (p: nat)
    ensures p > 0
  {
    if n == 0 then 1 else 16 * Pow16(n - 1)
  }

  /** Folds the thirteen hexadecimal digits of a VMCB's page number. */
  method HashOf(page: nat) returns (hash: nat)
    requires page < Pow16(13)
    ensures hash == Hash(page)
  {
    hide Digits, Pow16;
    var h: bv4 := 0xC;
    var rest: nat := page;
    for i := 0 to 13
      invariant h ^ Digits(rest) == 0xC ^ Digits(page)
      invariant rest < Pow16(13 - i)
    {
      FoldDigit(h, rest);
      PowStep(rest, 13 - i);
      h := h ^ ((rest % 16) as bv4);
      rest := rest / 16;
    }
    NoDigits(rest, h);
    hash := h as nat;
  }

  lemma PowStep(rest: nat, n: nat)
    requires 0 < n && rest < Pow16(n)
    ensures rest / 16 < Pow16(n - 1)
  {
  }

  lemma NoDigits(rest: nat, h: bv4)
    requires rest < Pow16(0)
    ensures h ^ Digits(rest) == h
  {
  }

  lemma FoldDigit(h: bv4, rest: nat)
    ensures (h ^ ((rest % 16) as bv4)) ^ Digits(rest / 16) == h ^ Digits(rest)
  {
    XorAssociates(h, (rest % 16) as bv4, Digits(rest / 16));
    if rest == 0 { XorZero(h); }
  }

  lemma XorZero(x: bv4)
    ensures (x ^ 0) ^ 0 == x ^ 0
  {
  }

  lemma XorAssociates(x: bv4, y: bv4, z: bv4)
    ensures (x ^ y) ^ z == x ^ (z ^ y)
  {
  }

  class Pool {
    const nodes: array<PoolNode>
    var running: int    // the place in use, or -1 while the guest hypervisor runs

    ghost predicate Valid()
      reads this, nodes, nodes[..]
    {
      && nodes.Length == 16 && -1 <= running < 16
      && (forall i, j :: 0 <= i < j < 16 ==> nodes[i] != nodes[j] && nodes[i].t != nodes[j].t)
    }

    function StateOf(i: nat): (n: (nat, bool, Vmcb))
      requires nodes.Length == 16 && i < 16
      reads this, nodes, nodes[..], set k | 0 <= k < nodes.Length :: nodes[k].t
    {
      (nodes[i].page, nodes[i].valid, nodes[i].t.State())
    }

    /** Handles the entry instruction for the VMCB c at a page. */
    method Vmrun(page: nat, c: VmcbPage, ncr3: nat)
      requires Valid() && page < Pow16(13) && forall i :: 0 <= i < 16 ==> nodes[i].t != c
      modifies this`running, nodes[Hash(page)], nodes[Hash(page)].t
      ensures Valid() && running == Hash(page)
      ensures var was := old(StateOf(Hash(page)));
        StateOf(Hash(page)) == (page, true, Enter(was.1 && was.0 == page, was.2, c.State(), ncr3))
      ensures forall i :: 0 <= i < 16 && i != Hash(page) ==> StateOf(i) == old(StateOf(i))
    {
      hide Enter, Hash;
      var i := HashOf(page);
      var n := nodes[i];
      if n.page != page {
        n.page := page;
        n.valid := false;
      }
      n.SwitchTo(c, ncr3);
      running := i;
    }

    /** Handles an exit that reaches the guest hypervisor, whose VMCB is c. */
    method Exit(c: VmcbPage)
      requires Valid() && running >= 0 && forall i :: 0 <= i < 16 ==> nodes[i].t != c
      modifies this`running, nodes[running].t`clean, c`fields
      ensures Valid() && running == -1
      ensures var k := old(running); var t := old(nodes[k].t.State());
        && nodes[k].t.State() == t.(clean := ALL)
        && c.State() == old(c.State()).(fields := Leave(t.fields, old(c.fields)))
    {
      hide Leave;
      var n := nodes[running];
      n.t.clean := ALL;
      n.SwitchFrom(c);
      running := -1;
    }
  }
}
