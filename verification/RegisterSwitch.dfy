/**
  World switches and edits of a customizable virtual CPU in place.
*/
module RegisterSwitch {
  import opened RegisterCache

  class CustomVcpu {
    var header: Regs
    var vmcb: Regs
    var valid: set<Group>
    var clean: set<Clean>
    var svme: bool
    var synchronized: bool
    var processor: nat

    constructor (header: Regs)
      ensures State() == Created(header)
    {
      this.header, vmcb, valid, clean, svme, synchronized, processor := header, map[], {}, {}, false, false, 0;
    }

    function State(): (s: Vcpu)
      reads this
    {
      Vcpu(header, vmcb, valid, clean, svme, synchronized)
    }

    /** Loads the registers of one group and takes back the clean bit that covers them. */
    method LoadGroup(g: Group)
      requires g !in valid
      modifies this
      ensures State() == Load(old(State()), g) && processor == old(processor)
    {
      hide Encode;
      for i := 0 to Count(g)
        invariant vmcb == EncodeAll(old(vmcb), header, g, i)
        invariant State() == old(State()).(vmcb := vmcb) && processor == old(processor)
      {
        vmcb := vmcb[Reg(g, i) := Encode(Reg(g, i), Read(header, Reg(g, i)))];
      }
      if g == Ef {
        svme := Read(header, EFER) & SVME != 0;
      }
      clean := Without(clean, g);
      valid := valid + {g};
    }

    /** Entry on a given processor. */
    method SwitchToGuest(current: nat)
      modifies this
      ensures State() == Enter(old(State()), old(processor) != current) && processor == current
    {
      hide Load;
      if processor != current {
        processor := current;
        clean := {};
      }
      ghost var s := State();
      for i := 0 to |GROUPS|
        invariant State() == LoadAll(s, i) && processor == current
      {
        SameWhenValid(State(), GROUPS[i]);
        if GROUPS[i] !in valid {
          LoadGroup(GROUPS[i]);
        }
      }
    }

    static lemma SameWhenValid(s: Vcpu, g: Group)
      ensures g in s.valid ==> Load(s, g) == s
    {
    }

    /** Exit to the host with the register state the processor left in the VMCB. */
    method SwitchToHost(left: Regs, shadow: bool)
      modifies this
      ensures State() == Exit(old(State()), left, shadow) && processor == old(processor)
    {
      hide Decode;
      vmcb, svme, clean, synchronized := left, shadow, ALL_CLEAN, false;
      for i := 0 to 4
        invariant header == DecodeAll(old(header), left, Gpr, i, shadow)
        invariant State() == Exit(old(State()), left, shadow).(header := header) && processor == old(processor)
      {
        GprIsPlain(i, Read(vmcb, Reg(Gpr, i)), shadow);
        header := header[Reg(Gpr, i) := Read(vmcb, Reg(Gpr, i))];
      }
    }

    static lemma GprIsPlain(i: nat, w: Value, shadow: bool)
      ensures Decode(Reg(Gpr, i), w, shadow) == w
    {
    }

    method DumpGroup(g: Group)
      modifies this`header
      ensures header == DecodeAll(old(header), vmcb, g, DumpCount(g), svme)
    {
      hide Decode;
      for i := 0 to DumpCount(g)
        invariant header == DecodeAll(old(header), vmcb, g, i, svme)
      {
        header := header[Reg(g, i) := Decode(Reg(g, i), Read(vmcb, Reg(g, i)), svme)];
      }
    }

    /** Reads every valid group back into the header. */
    method DumpState()
      modifies this
      ensures State() == Dump(old(State())) && processor == old(processor)
    {
      hide DecodeAll;
      ghost var s := State();
      for i := 0 to |DUMPED|
        invariant header == DumpAll(s, i) && State() == s.(header := header) && processor == old(processor)
      {
        if DUMPED[i] in valid {
          DumpGroup(DUMPED[i]);
        }
      }
      synchronized := true;
    }

    method EditGroup(g: Group, regs: Regs)
      requires EditOk(g, regs)
      modifies this
      ensures State() == Edit(old(State()), g, regs) && processor == old(processor)
    {
      header := header + regs;
      valid := valid - {g};
    }
  }
}
