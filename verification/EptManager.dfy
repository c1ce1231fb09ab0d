/**
  The memory-type routines of the EPT manager, in place on the manager.
*/
module EptManager {
  import opened Descriptors
  import opened IdentityMap
  import opened IdentityManager
  import opened EptMemoryType
  import opened HookManager
  import opened HookViews
  import opened Masks
  import opened Mtrr
  import opened MtrrEmulation
  import opened MtrrPrecedence

  method UpdatePteMemoryType(m: Manager, p: nat, t: MemType)
    requires m.Valid() && p < PAGES
    modifies m.Footprint()
    ensures m.Valid() && fresh(m.Footprint() - old(m.Footprint()))
    ensures m.State() == TouchPage(old(m.State()), p, t)
  {
    hide ByRegion, TabsOk, SplitPde, SetPte;
    var n, k := m.SplitPde(p, true, true);
    assert n.virt.Length == ENTRIES by { Manager.FullTable(m.State(), p / 512); }
    var e := n.virt[p % 512];
    var a := e.attr;
    a := a.(memType := if a.covered then Merge(a.memType, t, false) else t);
    a := a.(covered := true);
    m.WritePte(p, n, k, e.(attr := a));
  }

  method UpdatePdeMemoryType(m: Manager, p: nat, t: MemType) returns (result: bool)
    requires m.Valid() && p < PAGES && p % 512 == 0
    modifies m.Footprint()
    ensures m.Valid() && fresh(m.Footprint() - old(m.Footprint()))
    ensures (m.State(), result) == TouchLarge(old(m.State()), p / 512, t)
  {
    hide Manager.Valid, ByRegion, SplitPdpte, TouchPages, DescriptorList.Valid, Touch, TabsOk;
    m.Facts();
    var n, k := m.SplitPdpte(p, true, true);
    m.Facts();
    Manager.FullPdes(m.State(), p / 512 / 512);
    var e := n.virt[p / 512 % 512];
    if e.Leaf? {
      UpdateLargeLeaf(m, p, n, k, t);
      return true;
    }
    UpdateUnderlyingPtes(m, p, t);
    return false;
  }

  method UpdateLargeLeaf(m: Manager, p: nat, n: Node<Entry>, ghost k: nat, t: MemType)
    requires m.Valid() && p < PAGES && m.pde.At(n, k, p / 512 / 512) && n.virt.Length == ENTRIES
    requires n.virt[p / 512 % 512].Leaf?
    modifies m.pde.Repr
    ensures m.Valid() && m.Footprint() == old(m.Footprint())
    ensures var e := At(old(m.State()).pde, p / 512);
      m.State() == SetLarge(old(m.State()), p / 512, Leaf(e.frame, Touch(e.attr, t)))
  {
    hide ByRegion, TabsOk, Touch;
    var e := n.virt[p / 512 % 512];
    m.WritePde(p, n, k, Leaf(e.frame, Touch(e.attr, t)));
  }

  /** The loop over the 512 pages below a split PDE. */
  method UpdateUnderlyingPtes(m: Manager, p: nat, t: MemType)
    requires m.Valid() && p + 512 <= PAGES
    modifies m.Footprint()
    ensures m.Valid() && fresh(m.Footprint() - old(m.Footprint()))
    ensures m.State() == TouchPages(old(m.State()), p, 512, t)
  {
    hide ByRegion, TabsOk, TouchPage, DescriptorList.Valid;
    for i := 0 to 512
      invariant m.Valid() && fresh(m.Footprint() - old(m.Footprint()))
      invariant TouchPages(m.State(), p + i, 512 - i, t) == TouchPages(old(m.State()), p, 512, t)
    {
      UpdatePteMemoryType(m, p + i, t);
    }
  }

  method UpdatePdpteMemoryType(m: Manager, p: nat, t: MemType) returns (result: bool)
    requires m.Valid() && p < PAGES && p % HUGES == 0
    modifies m.Footprint()
    ensures m.Valid() && fresh(m.Footprint() - old(m.Footprint()))
    ensures m.State() == TouchHuge(old(m.State()), p / 512 / 512, t)
  {
    hide ByRegion, TabsOk, TouchLarge, DescriptorList.Valid;
    var r := p / 512 / 512;
    if m.pdpt[r].Leaf? {
      m.WritePdpte(r, Leaf(m.pdpt[r].frame, Touch(m.pdpt[r].attr, t)));
      return true;
    }
    ghost var q := p / 512;
    ghost var d := m.State();
    for i := 0 to 512
      invariant m.Valid() && fresh(m.Footprint() - old(m.Footprint()))
      invariant TouchLarges(m.State(), q + i, 512 - i, t) == TouchLarges(d, q, 512, t)
    {
      var ok := UpdatePdeMemoryType(m, p + i * 512, t);
      assert (p + i * 512) / 512 == q + i;
      if !ok { return false; }
    }
    return true;
  }

  /** Runs one variable-range register over the map, unless it is invalid or has the default type.
      `types` and `owner` name the register within the whole layout. */
  method UpdatePerVarMtrr(m: Manager, g: Reg, def: MemType, ghost types: seq<MemType>, ghost owner: nat)
    requires m.Valid() && RegOk(g)
    requires Active(g, def) ==> owner < |types| && types[owner] == g.memType
    modifies m.Footprint()
    ensures m.Valid() && fresh(m.Footprint() - old(m.Footprint()))
    ensures Active(g, def) ==>
      StepsOk(Tiles(g.base, g.base + LowestBit(g.mask), owner), types)
      && m.State() == Run(old(m.State()), Tiles(g.base, g.base + LowestBit(g.mask), owner), types)
    ensures !Active(g, def) ==> m.State() == old(m.State())
  {
    hide ByRegion, TabsOk, DescriptorList.Valid, Manager.Valid, TouchPage, TouchLarge, TouchHuge, Run;
    m.Facts();
    if g.valid {
      if g.memType != def {
        var end := g.base + LowestBit(g.mask);
        var addr := g.base;
        TilesOk(addr, end, owner, types);
        while addr < end
          invariant addr <= end && m.Valid() && Shape(m.State()) && fresh(m.Footprint() - old(m.Footprint()))
          invariant StepsOk(Tiles(addr, end, owner), types)
          invariant Run(m.State(), Tiles(addr, end, owner), types)
            == Run(old(m.State()), Tiles(g.base, end, owner), types)
          decreases end - addr
        {
          var remainder := end - addr;
          var increment;
          if addr % 262144 == 0 {
            if remainder >= 262144 {
              increment := 262144;
            } else if remainder >= 512 {
              increment := 512;
            } else {
              increment := 1;
            }
          } else if addr % 512 == 0 {
            if remainder >= 512 {
              increment := 512;
            } else {
              increment := 1;
            }
          } else {
            increment := 1;
          }
          RunFirst(m.State(), Step(addr, Choose(addr, remainder), owner), Tiles(addr + increment, end, owner), types);
          if increment == 262144 {
            var _ := UpdatePdpteMemoryType(m, addr, g.memType);
          } else if increment == 512 {
            var _ := UpdatePdeMemoryType(m, addr, g.memType);
          } else {
            UpdatePteMemoryType(m, addr, g.memType);
          }
          m.Facts();
          addr := addr + increment;
        }
        RunNothing(m.State(), types);
      }
    }
  }

  lemma RunNothing(s: Slat, types: seq<MemType>)
    requires Shape(s)
    ensures Run(s, [], types) == s
  {
  }

  // ---- The whole update ----

  lemma ActiveRegsStep(regs: seq<Reg>, i: nat, def: MemType)
    requires i < |regs|
    ensures ActiveRegs(regs[..i + 1], def) == ActiveRegs(regs[..i], def) + if Active(regs[i], def) then [regs[i]]
      else []
  {
    assert regs[..i + 1][..i] == regs[..i];
  }

  /** The run for the first i registers. */
  ghost function RunRegs(s: Slat, regs: seq<Reg>, def: MemType): (u: Slat)
    requires Shape(s) && RegsOk(regs)
    ensures Shape(u)
  {
    var act := ActiveRegs(regs, def);
    LayoutSteps(Ranges(act));
    Run(s, Layout(Ranges(act)), Types(act))
  }

  /** One more register adds its own tiles at the end of the run. */
  lemma RunRegsStep(s: Slat, regs: seq<Reg>, i: nat, def: MemType)
    requires Shape(s) && RegsOk(regs) && i < |regs|
    ensures var g, act := regs[i], ActiveRegs(regs[..i], def);
      if Active(g, def) then
        StepsOk(Tiles(g.base, g.base + LowestBit(g.mask), |act|), Types(act + [g]))
        && RunRegs(s, regs[..i + 1], def)
           == Run(RunRegs(s, regs[..i], def), Tiles(g.base, g.base + LowestBit(g.mask), |act|), Types(act + [g]))
      else RunRegs(s, regs[..i + 1], def) == RunRegs(s, regs[..i], def)
  {
    hide Run, Layout, Tiles, ActiveRegs, LowestBit;
    ActiveRegsStep(regs, i, def);
    var g, act := regs[i], ActiveRegs(regs[..i], def);
    if Active(g, def) {
      var ts := Tiles(g.base, g.base + LowestBit(g.mask), |act|);
      TilesOk(g.base, g.base + LowestBit(g.mask), |act|, Types(act + [g]));
      assert act + [g] == ActiveRegs(regs[..i + 1], def);
      LayoutSteps(Ranges(act));
      LayoutAppend(Ranges(act), RangeOf(g));
      assert Ranges(act + [g]) == Ranges(act) + [RangeOf(g)];
      RunAppend(s, Layout(Ranges(act)), ts, Types(act + [g]));
      RunMoreTypes(s, Layout(Ranges(act)), Types(act), [g.memType]);
      assert Types(act + [g]) == Types(act) + [g.memType];
    } else {
      assert ActiveRegs(regs[..i + 1], def) == act;
    }
  }

  /** The variable-range registers one by one. */
  method UpdateByRegisters(m: Manager, c: Msrs)
    requires m.Valid() && MsrsOk(c)
    modifies m.Footprint()
    ensures m.Valid() && fresh(m.Footprint() - old(m.Footprint()))
    ensures m.State() == VariableRun(old(m.State()), c)
  {
    hide ByRegion, TabsOk, DescriptorList.Valid, RunRegs, Run, Tiles, LowestBit, VariableRun, ActiveRegs;
    assert m.State() == RunRegs(m.State(), Used(c)[..0], c.def) by { RunNoRegs(m.State(), Used(c)[..0], c.def); }
    for i := 0 to |Used(c)|
      invariant m.Valid() && fresh(m.Footprint() - old(m.Footprint()))
      invariant m.State() == RunRegs(old(m.State()), Used(c)[..i], c.def)
    {
      RunRegsStep(old(m.State()), Used(c), i, c.def);
      ghost var act := ActiveRegs(Used(c)[..i], c.def);
      UpdatePerVarMtrr(m, Used(c)[i], c.def, Types(act + [Used(c)[i]]), |act|);
    }
    RunAllRegs(old(m.State()), c);
  }

  /** The MTRR emulation on a manager. */
  method UpdateByMtrr(m: Manager, c: Msrs)
    requires m.Valid() && MsrsOk(c)
    modifies m.Footprint()
    ensures m.Valid() && fresh(m.Footprint() - old(m.Footprint()))
    ensures m.State() == MtrrEmulation.UpdateByMtrr(old(m.State()), c)
  {
    hide ByRegion, TabsOk, DescriptorList.Valid, VariableRun, SetFixed, SplitPde, Clear;
    UpdateByRegisters(m, c);
    if c.enabled && c.fixEnabled {
      SetFixedRanges(m, c.fixed);
    }
    ClearMtrrBits(m);
  }

  lemma RunNoRegs(s: Slat, regs: seq<Reg>, def: MemType)
    requires Shape(s) && regs == []
    ensures RunRegs(s, regs, def) == s
  {
    assert Ranges(ActiveRegs(regs, def)) == [];
  }

  lemma RunAllRegs(s: Slat, c: Msrs)
    requires Shape(s) && MsrsOk(c)
    ensures RegsOk(Used(c)) && RunRegs(s, Used(c)[..|Used(c)|], c.def) == VariableRun(s, c)
  {
    assert Used(c)[..|Used(c)|] == Used(c);
  }

  /** The first page that byte b of the fixed-range registers types. */
  function FixedStart(b: nat): (y: nat)
    requires b <= 88
    ensures y <= 256
  {
    if b < 8 then b * 16 else if b < 24 then 128 + (b - 8) * 4 else 192 + (b - 24)
  }

  /** A register of eight bytes from `first`, each for `per` pages, starts at page `base`. */
  predicate Serves(first: nat, per: nat, base: nat) {
    || (per == 16 && first == 0 && base == 0)
    || (per == 4 && (first == 8 || first == 16) && base == 128 + (first - 8) * 4)
    || (per == 1 && 24 <= first <= 80 && base == 168 + first)
  }

  lemma ServedPages(first: nat, per: nat, base: nat, i: nat)
    requires Serves(first, per, base) && i < 8
    ensures first + i < 88 && FixedStart(first + i) == base + i * per
      && FixedStart(first + i + 1) == FixedStart(first + i) + per
    ensures forall y: nat :: FixedStart(first + i) <= y < FixedStart(first + i) + per ==> FixedIndex(y) == first + i
  {
    if per == 16 {
      assert i * per == i * 16;
    } else if per == 4 {
      assert i * per == i * 4;
    }
  }

  /** One byte of a fixed-range register: one type for `per` pages. */
  method SetFixedByte(m: Manager, n: Node<Pte>, ghost k: nat, fixed: seq<MemType>, b: nat, per: nat, base: nat,
    ghost s: Slat)
    requires m.Valid() && m.pte.At(n, k, 0) && n.virt.Length == ENTRIES && |fixed| == 88 && b < 88
    requires base + per <= 256 && forall y: nat :: base <= y < base + per ==> FixedIndex(y) == b
    requires Shape(s) && 0 in s.pte && m.State() == SetFixed(s, fixed, base)
    modifies m.pte`contents, n.virt
    ensures m.Valid() && m.pte.At(n, k, 0) && m.State() == SetFixed(s, fixed, base + per)
  {
    hide ByRegion, Manager.Valid, DescriptorList.At, SetPte, FixedIndex;
    for j := 0 to per
      invariant m.Valid() && m.pte.At(n, k, 0)
      invariant m.State() == SetFixed(s, fixed, base + j)
    {
      SetPageType(m, n, k, base + j, fixed[b]);
    }
  }

  method SetPageType(m: Manager, n: Node<Pte>, ghost k: nat, p: nat, t: MemType)
    requires m.Valid() && m.pte.At(n, k, 0) && n.virt.Length == ENTRIES && p < 512
    modifies m.pte`contents, n.virt
    ensures m.Valid() && m.pte.At(n, k, 0)
    ensures 0 in old(m.State()).pte && p / 512 == 0
    ensures m.State() == SetPte(old(m.State()), p,
      At(old(m.State()).pte, p).(attr := At(old(m.State()).pte, p).attr.(memType := t)))
  {
    hide ByRegion, TabsOk, DescriptorList.Valid, SetPte;
    var e := n.virt[p];
    m.WritePte(p, n, k, e.(attr := e.attr.(memType := t)));
  }

  /** One fixed-range register: eight types, each for `per` pages. */
  method SetFixedRange(m: Manager, n: Node<Pte>, ghost k: nat, fixed: seq<MemType>, first: nat, per: nat, base: nat,
    ghost s: Slat)
    requires m.Valid() && m.pte.At(n, k, 0) && n.virt.Length == ENTRIES && |fixed| == 88 && Serves(first, per, base)
    requires Shape(s) && 0 in s.pte && m.State() == SetFixed(s, fixed, FixedStart(first))
    modifies m.pte`contents, n.virt
    ensures m.Valid() && m.pte.At(n, k, 0) && m.State() == SetFixed(s, fixed, FixedStart(first + 8))
  {
    hide ByRegion, TabsOk, DescriptorList.Valid, SetFixed, FixedIndex, FixedStart, Serves;
    ServedPages(first, per, base, 7);
    for i := 0 to 8
      invariant m.Valid() && m.pte.At(n, k, 0) && m.State() == SetFixed(s, fixed, FixedStart(first + i))
    {
      ServedPages(first, per, base, i);
      SetFixedByte(m, n, k, fixed, first + i, per, base + i * per, s);
    }
  }

  method SetFixedRanges(m: Manager, fixed: seq<MemType>)
    requires m.Valid() && |fixed| == 88
    modifies m.Footprint()
    ensures m.Valid() && fresh(m.Footprint() - old(m.Footprint()))
    ensures m.State() == SetFixed(SplitPde(old(m.State()), 0, true, true), fixed, 256)
  {
    hide ByRegion, TabsOk, SplitPde, SetFixed;
    var n, k := m.SplitPde(0, true, true);
    assert n.virt.Length == ENTRIES by { Manager.FullTable(m.State(), 0); }
    ghost var s := m.State();
    assert m.State() == SetFixed(s, fixed, 0) by { NoneFixed(s, fixed); }
    SetFixedRegisters(m, n, k, fixed, s);
  }

  /** One register of 64 KiB ranges, two of 16 KiB ranges and eight of 4 KiB ranges. */
  method SetFixedRegisters(m: Manager, n: Node<Pte>, ghost k: nat, fixed: seq<MemType>, ghost s: Slat)
    requires m.Valid() && m.pte.At(n, k, 0) && n.virt.Length == ENTRIES && |fixed| == 88
    requires Shape(s) && 0 in s.pte && m.State() == SetFixed(s, fixed, 0)
    modifies m.pte`contents, n.virt
    ensures m.Valid() && m.State() == SetFixed(s, fixed, 256)
  {
    hide ByRegion, TabsOk, DescriptorList.Valid, SetFixed;
    SetFixedRange(m, n, k, fixed, 0, 16, 0, s);
    SetFixedRange(m, n, k, fixed, 8, 4, 128, s);
    SetFixedRange(m, n, k, fixed, 16, 4, 160, s);
    for x := 0 to 8
      invariant m.Valid() && m.pte.At(n, k, 0) && m.State() == SetFixed(s, fixed, FixedStart(24 + 8 * x))
    {
      SetFixedRange(m, n, k, fixed, 24 + 8 * x, 1, 192 + 8 * x, s);
    }
  }

  lemma NoneFixed(s: Slat, fixed: seq<MemType>)
    requires Shape(s) && 0 in s.pte && |fixed| == 88
    ensures SetFixed(s, fixed, 0) == s
  {
  }

  method ClearMtrrBits(m: Manager)
    requires m.Valid()
    modifies m.Footprint()
    ensures m.Valid() && m.Footprint() == old(m.Footprint()) && m.State() == Clear(old(m.State()))
  {
    hide ByRegion, TabsOk;
    ClearTop(m);
    ClearLists(m);
  }

  method ClearTop(m: Manager)
    requires m.Valid()
    modifies m.pdpt
    ensures m.Valid() && m.State() == old(m.State()).(pdpt := MapSeq(old(m.State()).pdpt, UncoverEntry))
  {
    hide ByRegion, TabsOk;
    for i := 0 to HUGES
      invariant forall r :: 0 <= r < i ==> m.pdpt[r] == UncoverEntry(old(m.pdpt[r]))
      invariant forall r :: i <= r < HUGES ==> m.pdpt[r] == old(m.pdpt[r])
      modifies m.pdpt
    {
      m.pdpt[i] := UncoverEntry(m.pdpt[i]);
    }
    assert m.pdpt[..] == MapSeq(old(m.pdpt[..]), UncoverEntry);
  }

  method ClearLists(m: Manager)
    requires m.Valid()
    modifies m.Footprint()
    ensures m.Valid() && m.Footprint() == old(m.Footprint())
    ensures var s := old(m.State());
      m.State() == s.(pde := MapTabs(s.pde, UncoverEntry), pte := MapTabs(s.pte, UncoverPte))
  {
    hide ByRegion, TabsOk;
    m.TransformPdes(UncoverEntry);
    m.TransformPtes(UncoverPte);
  }

  /** A hooked page may only be executed, and shows its patched copy. */
  const EXECUTE_ONLY := Rule(true, false, false, true)

  ghost function Built(c: Msrs, hooks: seq<Hook>): (s: Slat)
    requires MsrsOk(c) && HooksOk(hooks)
  {
    hide MtrrEmulation.UpdateByMtrr;
    UpdateAll(MtrrEmulation.UpdateByMtrr(Fresh(DefType(c)), c), HookUpdates(hooks, EXECUTE_ONLY))
  }

  /** Builds the identity map, types it from the MSRs and inserts the stealth hooks. */
  method BuildIdentityMap(c: Msrs, hooks: seq<Hook>) returns (m: Manager)
    requires MsrsOk(c) && HooksOk(hooks)
    ensures m.Valid() && fresh(m.Footprint())
    ensures m.State() == Built(c, hooks)
  {
    hide ByRegion, TabsOk, DescriptorList.Valid, MtrrEmulation.UpdateByMtrr, UpdateAll;
    m := new Manager(DefType(c));
    UpdateByMtrr(m, c);
    UpdateHooks(m, hooks, EXECUTE_ONLY);
  }

  /** The map as built: a hooked page is execute-only on one of its copies with the memory type
      the MTRRs gave the page, and every other page is as the MTRR emulation left it. */
  lemma BuiltMeaning(c: Msrs, hooks: seq<Hook>, y: nat)
    requires MsrsOk(c) && HooksOk(hooks) && y < PAGES && Clean(Layout(Ranges(Acts(c))))
    ensures var s := MtrrEmulation.UpdateByMtrr(Fresh(DefType(c)), c);
      var t := Built(c, hooks);
      && Inv(s) && Inv(t) && Open(t)
      && if !Hooked(hooks, y) then View(t, y) == View(s, y)
         else exists i :: 0 <= i < |hooks| && hooks[i].orig == y
                          && View(t, y) == Xlat(hooks[i].copy,
                            Attr(false, false, true, true, View(s, y).attr.memType, false))
  {
    hide Linked, Pristine, LinkedBut, Open, View, Above, MeaningAfter, UpdateAll, MtrrEmulation.UpdateByMtrr, Clean;
    var s := MtrrEmulation.UpdateByMtrr(Fresh(DefType(c)), c);
    MtrrTypes(c, y);
    UpdatesRefineMap(s, HookUpdates(hooks, EXECUTE_ONLY));
    OpenAbove(s, y);
    HookMeaning(View(s, y), hooks, EXECUTE_ONLY, y);
  }

  /** The types of the map as built: uncacheable everywhere without MTRRs; otherwise, for a clean
      layout, what the registers say. Hooks do not change them. */
  lemma BuiltTypes(c: Msrs, hooks: seq<Hook>, y: nat)
    requires MsrsOk(c) && HooksOk(hooks) && y < PAGES && (c.enabled ==> Clean(Layout(Ranges(Acts(c)))))
    ensures var t := Built(c, hooks);
      && Inv(t)
      && (if c.enabled then TypedBy(c, y, View(t, y).attr.memType) else View(t, y).attr.memType == 0)
      && (!c.enabled && !Hooked(hooks, y) ==> View(t, y) == Xlat(y, Attr(true, true, true, true, 0, false)))
  {
    hide Linked, Pristine, TabsOk, View, Open, Built, MtrrEmulation.UpdateByMtrr, Layout, Clean, TypedBy, Ranges, Acts;
    if c.enabled { EnabledTypes(c, y); } else { DisabledClean(c); DisabledIsUncacheable(c, y); }
    BuiltMeaning(c, hooks, y);
  }
}
