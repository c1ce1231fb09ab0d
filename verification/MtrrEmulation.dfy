/**
  The whole MTRR emulation: variable registers and the system-management range, the fixed
  ranges of the first MiB, and the clearing of the bookkeeping bits.
*/
module MtrrEmulation {
  import opened Descriptors
  import opened IdentityMap
  import opened EptMemoryType
  import opened Masks
  import opened Mtrr

  const UC: MemType := 0
  const WT: MemType := 4
  const WB: MemType := 6

  /** A variable-range register pair; base and mask are the page-number fields. */
  datatype Reg = Reg(valid: bool, base: nat, mask: nat, memType: MemType)

  /** What the MSRs say. `fixed` lists the types of the eleven fixed-range registers, byte by
      byte in address order. */
  datatype Msrs = Msrs(enabled: bool, fixEnabled: bool, def: MemType, regs: seq<Reg>, smrr: Option<Reg>,
    fixed: seq<MemType>)

  predicate RegOk(g: Reg) {
    g.valid ==> 0 < g.mask && g.base + LowestBit(g.mask) <= PAGES
  }

  predicate MsrsOk(c: Msrs) {
    && |c.fixed| == 88
    && (forall g :: g in c.regs ==> RegOk(g))
    && (c.smrr.Some? ==> RegOk(c.smrr.value))
  }

  function DefType(c: Msrs): (t: MemType) {
    if c.enabled then c.def else UC
  }

  /** The registers the emulation goes through, the system-management range last. */
  function Used(c: Msrs): (regs: seq<Reg>) {
    if !c.enabled then [] else c.regs + if c.smrr.Some? then [c.smrr.value] else []
  }

  /** Registers that carry the default type are passed over. */
  predicate Active(g: Reg, def: MemType) {
    g.valid && g.memType != def
  }

  predicate Holds(g: Reg, y: nat)
    requires RegOk(g)
  {
    g.valid && g.base <= y < g.base + LowestBit(g.mask)
  }

  predicate RegsOk(regs: seq<Reg>) {
    forall k :: 0 <= k < |regs| ==> RegOk(regs[k])
  }

  function ActiveRegs(regs: seq<Reg>, def: MemType): (act: seq<Reg>)
    ensures forall g :: g in act <==> g in regs && Active(g, def)
  {
    if regs == [] then [] else
    var g := regs[|regs| - 1];
    ActiveRegs(regs[..|regs| - 1], def) + if Active(g, def) then [g] else []
  }

  function RangeOf(g: Reg): (r: Range)
    requires g.valid && RegOk(g)
  {
    Range(g.base, LowestBit(g.mask))
  }

  function Ranges(act: seq<Reg>): (rs: seq<Range>)
    requires forall g :: g in act ==> g.valid && RegOk(g)
    ensures |rs| == |act| && forall i :: 0 <= i < |rs| ==> rs[i] == RangeOf(act[i])
  {
    seq(|act|, i requires 0 <= i < |act| => RangeOf(act[i]))
  }

  function Types(act: seq<Reg>): (ts: seq<MemType>)
    ensures |ts| == |act| && forall i :: 0 <= i < |ts| ==> ts[i] == act[i].memType
  {
    seq(|act|, i requires 0 <= i < |act| => act[i].memType)
  }

  /** The lowest type, other than the default, of the valid registers that hold the page; the
      default when there is none. */
  ghost predicate LowestOfRegs(regs: seq<Reg>, def: MemType, y: nat, t: MemType)
    requires RegsOk(regs)
  {
    && (forall k :: 0 <= k < |regs| && Active(regs[k], def) && Holds(regs[k], y) ==> t <= regs[k].memType)
    && ((exists k :: 0 <= k < |regs| && Active(regs[k], def) && Holds(regs[k], y) && t == regs[k].memType)
        || (t == def && forall k :: 0 <= k < |regs| && Active(regs[k], def) ==> !Holds(regs[k], y)))
  }

  // ---- The routine ----

  /** Which of the 88 fixed-range bytes types a page of the first MiB: eight ranges of 64 KiB,
      sixteen of 16 KiB, sixty-four of 4 KiB. */
  function FixedIndex(y: nat): (i: nat)
    requires y < 256
    ensures i < 88
  {
    if y < 128 then y / 16 else if y < 192 then 8 + (y - 128) / 4 else 24 + (y - 192)
  }

  /** The first n pages after their PTEs took their fixed-range types. */
  ghost function SetFixed(s: Slat, fixed: seq<MemType>, n: nat): (u: Slat)
    requires Shape(s) && 0 in s.pte && n <= 256 && |fixed| == 88
    ensures Shape(u) && 0 in u.pte && u.pte.Keys == s.pte.Keys
  {
    if n == 0 then s else
    var d := SetFixed(s, fixed, n - 1);
    var e := At(d.pte, n - 1);
    SetPte(d, n - 1, e.(attr := e.attr.(memType := fixed[FixedIndex(n - 1)])))
  }

  function Uncover(a: Attr): (b: Attr) {
    a.(covered := false)
  }

  function UncoverEntry(e: Entry): (f: Entry) {
    e.(attr := Uncover(e.attr))
  }

  function UncoverPte(e: Pte): (f: Pte) {
    e.(attr := Uncover(e.attr))
  }

  /** Clears the MTRR flag of every entry at every level. */
  ghost function Clear(s: Slat): (u: Slat)
    requires Shape(s)
    ensures Shape(u)
  {
    Slat(MapSeq(s.pdpt, UncoverEntry), MapTabs(s.pde, UncoverEntry), MapTabs(s.pte, UncoverPte), s.used)
  }

  function Acts(c: Msrs): (act: seq<Reg>)
    requires MsrsOk(c)
    ensures forall g :: g in act ==> g.valid && RegOk(g)
  {
    ActiveRegs(Used(c), c.def)
  }

  lemma ActsOk(c: Msrs)
    requires MsrsOk(c)
    ensures RangesOk(Ranges(Acts(c))) && StepsOk(Layout(Ranges(Acts(c))), Types(Acts(c)))
  {
    LayoutSteps(Ranges(Acts(c)));
  }

  ghost function VariableRun(s: Slat, c: Msrs): (u: Slat)
    requires Shape(s) && MsrsOk(c)
    ensures Shape(u)
  {
    ActsOk(c);
    Run(s, Layout(Ranges(Acts(c))), Types(Acts(c)))
  }

  ghost function UpdateByMtrr(s: Slat, c: Msrs): (u: Slat)
    requires Shape(s) && MsrsOk(c)
    ensures Shape(u)
  {
    var v := VariableRun(s, c);
    Clear(if c.enabled && c.fixEnabled then SetFixed(SplitPde(v, 0, true, true), c.fixed, 256) else v)
  }

  function WithType(x: Xlat, t: MemType): (y: Xlat) {
    x.(attr := x.attr.(memType := t))
  }

  lemma SetTypeView(s: Slat, p: nat, t: MemType)
    requires Tight(s) && Open(s) && p < PAGES && Resolved(s, p / 512)
    ensures var u := SetPte(s, p, At(s.pte, p).(attr := At(s.pte, p).attr.(memType := t)));
      && Tight(u) && Open(u) && u.pde == s.pde && u.pdpt == s.pdpt
      && (forall y :: 0 <= y < PAGES ==> View(u, y) == if y == p then WithType(View(s, y), t) else View(s, y))
  {
    hide Linked, Pristine, At, SetPte, Open;
    SetPteView(s, p, At(s.pte, p).(attr := At(s.pte, p).attr.(memType := t)));
  }

  lemma {:induction false} SetFixedView(s: Slat, fixed: seq<MemType>, n: nat)
    requires Tight(s) && Open(s) && Resolved(s, 0) && n <= 256 && |fixed| == 88
    ensures var u := SetFixed(s, fixed, n);
      && Tight(u) && Open(u) && u.pde == s.pde && u.pdpt == s.pdpt
      && forall y :: 0 <= y < PAGES ==>
           View(u, y) == if y < n then WithType(View(s, y), fixed[FixedIndex(y)]) else View(s, y)
  {
    hide Linked, Pristine, LinkedBut, View, SetPte, Open, FixedIndex, At, WithType;
    if n != 0 {
      SetFixedView(s, fixed, n - 1);
      assert (n - 1) / 512 == 0;
      SetTypeView(SetFixed(s, fixed, n - 1), n - 1, fixed[FixedIndex(n - 1)]);
    }
  }

  lemma ClearEntries(s: Slat)
    requires Shape(s)
    ensures var u := Clear(s);
      && u.pde.Keys == s.pde.Keys && u.pte.Keys == s.pte.Keys
      && (forall r :: 0 <= r < HUGES ==> u.pdpt[r] == UncoverEntry(s.pdpt[r]))
      && (forall r :: r in s.pde ==> u.pde[r].phys == s.pde[r].phys)
      && (forall q :: q in s.pte ==> u.pte[q].phys == s.pte[q].phys)
      && (forall q: nat :: q / 512 in s.pde ==> At(u.pde, q) == UncoverEntry(At(s.pde, q)))
      && (forall p: nat :: p / 512 in s.pte ==> At(u.pte, p) == UncoverPte(At(s.pte, p)))
  {
    hide UncoverEntry, UncoverPte;
  }

  lemma ClearTight(s: Slat)
    requires Tight(s)
    ensures Tight(Clear(s)) && (Open(s) ==> Open(Clear(s)))
  {
    hide At, Clear, View, Linked, LinkedBut;
    ClearEntries(s);
    ClearLinked(s);
  }

  lemma ClearLinked(s: Slat)
    requires Tight(s)
    ensures Linked(Clear(s)) && LinkedBut(Clear(s), {})
  {
    hide At, Clear, Pristine;
    ClearEntries(s);
  }

  lemma ClearView(s: Slat, y: nat)
    requires Tight(s) && y < PAGES
    ensures Tight(Clear(s)) && View(Clear(s), y) == View(s, y).(attr := Uncover(View(s, y).attr))
  {
    ClearTight(s);
    ClearEntries(s);
    hide At, Clear, Linked, Pristine, LinkedBut;
  }

  /** From the fresh map, when the variable ranges make a clean layout: the map stays the identity
      with all rights and no flag, and every page has its fixed-range type if fixed ranges are on
      and it lies in the first MiB, otherwise the lowest type of the valid non-default registers
      that hold it, otherwise the default. */
  lemma MtrrTypes(c: Msrs, y: nat)
    requires MsrsOk(c) && y < PAGES && Clean(Layout(Ranges(Acts(c))))
    ensures var u := UpdateByMtrr(Fresh(DefType(c)), c);
      && Tight(u) && Open(u) && View(u, y) == Xlat(y, Full(View(u, y).attr.memType, false))
      && (if c.enabled && c.fixEnabled && y < 256 then View(u, y).attr.memType == c.fixed[FixedIndex(y)]
          else RegsOk(Used(c)) && LowestOfRegs(Used(c), DefType(c), y, View(u, y).attr.memType))
  {
    hide Linked, Pristine, LinkedBut, Open, View, VariableRun, Clear, SetFixed, LowestOfRegs, RegsOk, SplitPde,
      FixedIndex;
    VariableTypes(c, y);
    FinishView(VariableRun(Fresh(DefType(c)), c), c.fixed, y);
  }

  /** The last two stages, with and without fixed ranges. */
  lemma FinishView(v: Slat, fixed: seq<MemType>, y: nat)
    requires Tight(v) && Open(v) && y < PAGES && |fixed| == 88
    ensures Tight(Clear(v)) && Open(Clear(v)) && View(Clear(v), y) == Xlat(View(v, y).host, Uncover(View(v, y).attr))
    ensures var u := Clear(SetFixed(SplitPde(v, 0, true, true), fixed, 256));
      && Tight(u) && Open(u)
      && View(u, y) == Xlat(View(v, y).host,
           Uncover(if y < 256 then WithType(View(v, y), fixed[FixedIndex(y)]).attr else View(v, y).attr))
  {
    hide Linked, Pristine, LinkedBut, Open, View, Clear, SetFixed, SplitPde, FixedIndex;
    var d := SplitPde(v, 0, true, true);
    HostSplitTight(v, 0);
    SetFixedView(d, fixed, 256);
    ClearTight(SetFixed(d, fixed, 256));
    ClearView(SetFixed(d, fixed, 256), y);
    ClearTight(v);
    ClearView(v, y);
  }

  lemma VariableTypes(c: Msrs, y: nat)
    requires MsrsOk(c) && y < PAGES && Clean(Layout(Ranges(Acts(c))))
    ensures var v := VariableRun(Fresh(DefType(c)), c);
      && Tight(v) && Open(v) && View(v, y).host == y && Grants(View(v, y).attr)
      && RegsOk(Used(c)) && LowestOfRegs(Used(c), DefType(c), y, View(v, y).attr.memType)
  {
    ActsOk(c);
    RunFromFresh(Layout(Ranges(Acts(c))), Types(Acts(c)), DefType(c));
    CleanIsRight(Ranges(Acts(c)), Types(Acts(c)), DefType(c), y);
    WantedIffLowestOfRegs(c, y, View(VariableRun(Fresh(DefType(c)), c), y).attr.memType);
  }

  /** t is the lowest type of the listed registers that hold the page, or the default. */
  ghost predicate LowestOf(act: seq<Reg>, def: MemType, y: nat, t: MemType)
    requires forall g :: g in act ==> RegOk(g)
  {
    && (forall g :: g in act && Holds(g, y) ==> t <= g.memType)
    && ((exists g :: g in act && Holds(g, y) && t == g.memType)
        || (t == def && forall g :: g in act ==> !Holds(g, y)))
  }

  lemma WantedIsLowestOf(act: seq<Reg>, def: MemType, y: nat, t: MemType)
    requires forall g :: g in act ==> g.valid && RegOk(g)
    ensures Wanted(Ranges(act), Types(act), def, y, t) <==> LowestOf(act, def, y, t)
  {
    var rs := Ranges(act);
    assert forall i :: 0 <= i < |act| ==> (InRange(rs[i], y) <==> Holds(act[i], y));
    hide Ranges, Types, Holds, InRange;
    if Wanted(rs, Types(act), def, y, t) {
      forall g | g in act && Holds(g, y) ensures t <= g.memType {
        var i :| 0 <= i < |act| && act[i] == g;
      }
    }
    if LowestOf(act, def, y, t) {
      if g :| g in act && Holds(g, y) && t == g.memType {
        var i :| 0 <= i < |act| && act[i] == g;
      }
    }
  }

  lemma LowestOfActive(regs: seq<Reg>, def: MemType, y: nat, t: MemType)
    requires RegsOk(regs)
    ensures forall g :: g in ActiveRegs(regs, def) ==> RegOk(g)
    ensures LowestOf(ActiveRegs(regs, def), def, y, t) <==> LowestOfRegs(regs, def, y, t)
  {
    hide ActiveRegs, Holds, RegOk;
    var act := ActiveRegs(regs, def);
    if LowestOf(act, def, y, t) {
      if g :| g in act && Holds(g, y) && t == g.memType {
        var k :| 0 <= k < |regs| && regs[k] == g;
      }
    }
    if LowestOfRegs(regs, def, y, t) {
      forall g | g in act && Holds(g, y) ensures t <= g.memType {
        var k :| 0 <= k < |regs| && regs[k] == g;
      }
    }
  }

  /** What the ranges ask for is the lowest type of the registers in use. */
  lemma WantedIffLowestOfRegs(c: Msrs, y: nat, t: MemType)
    requires MsrsOk(c)
    ensures RegsOk(Used(c))
    ensures Wanted(Ranges(Acts(c)), Types(Acts(c)), DefType(c), y, t) <==> LowestOfRegs(Used(c), DefType(c), y, t)
  {
    hide Wanted, LowestOf, LowestOfRegs, RegOk;
    var regs := Used(c);
    assert forall k :: 0 <= k < |regs| ==> regs[k] in regs;
    WantedIsLowestOf(Acts(c), DefType(c), y, t);
    LowestOfActive(regs, DefType(c), y, t);
    assert regs == [] ==> ActiveRegs(regs, c.def) == ActiveRegs(regs, DefType(c));
  }

  /** The type the routine leaves on a page above the fixed ranges, whatever the layout. */
  lemma TypeAboveFixed(c: Msrs, y: nat)
    requires MsrsOk(c) && 256 <= y < PAGES
    ensures var u := UpdateByMtrr(Fresh(DefType(c)), c);
      && Inv(u) && StepsOk(Layout(Ranges(Acts(c))), Types(Acts(c)))
      && View(u, y).attr.memType == FinalType(Layout(Ranges(Acts(c))), Types(Acts(c)), DefType(c), y)
  {
    hide Linked, Pristine, LinkedBut, Open, View, Clear, SetFixed, SplitPde, FixedIndex, Layout, LowestReaching, Run;
    ActsOk(c);
    FreshTight(DefType(c));
    RunFromFresh(Layout(Ranges(Acts(c))), Types(Acts(c)), DefType(c));
    FinishView(VariableRun(Fresh(DefType(c)), c), c.fixed, y);
  }
}
