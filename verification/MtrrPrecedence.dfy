/**
  When the emulated memory types are right: for all types the registers may hold, and against the
  precedence rules of the architecture.
*/
module MtrrPrecedence {
  import opened Descriptors
  import opened IdentityMap
  import opened EptMemoryType
  import opened Masks
  import opened Mtrr
  import opened MtrrEmulation

  /** The type the routine leaves on page y. */
  ghost function Emulated(c: Msrs, y: nat): (t: MemType)
    requires MsrsOk(c) && y < PAGES && Inv(UpdateByMtrr(Fresh(DefType(c)), c))
  {
    View(UpdateByMtrr(Fresh(DefType(c)), c), y).attr.memType
  }

  predicate Fixed(c: Msrs, y: nat) {
    c.enabled && c.fixEnabled && y < 256
  }

  // ---- The types, written out ----

  /** Without MTRRs the map is the identity with all rights, and every page is uncacheable. */
  lemma DisabledIsUncacheable(c: Msrs, y: nat)
    requires MsrsOk(c) && !c.enabled && y < PAGES
    ensures var s := UpdateByMtrr(Fresh(DefType(c)), c);
      Inv(s) && View(s, y) == Xlat(y, Attr(true, true, true, true, 0, false))
  {
    hide Inv, View, UpdateByMtrr, Layout, Clean, Open;
    DisabledClean(c);
    MtrrTypes(c, y);
    TightInv(UpdateByMtrr(Fresh(DefType(c)), c));
  }

  /** A register counts for page y: it is valid, holds the page, and is not of the default type. */
  predicate Counts(g: Reg, def: MemType, y: nat)
    requires RegOk(g)
  {
    g.valid && g.memType != def && g.base <= y < g.base + LowestBit(g.mask)
  }

  /** Byte b of the fixed-range registers covers page y: eight ranges of 64 KiB, sixteen of 16 KiB
      and sixty-four of 4 KiB. */
  predicate InFixed(b: nat, y: nat) {
    || (b < 8 && b * 16 <= y < b * 16 + 16)
    || (8 <= b < 24 && 128 + (b - 8) * 4 <= y < 128 + (b - 8) * 4 + 4)
    || (24 <= b < 88 && y == 192 + (b - 24))
  }

  /** With MTRRs on, for a clean layout: in the first MiB the fixed type if fixed ranges are on;
      otherwise the lowest type of the registers that count, the system-management range among
      them, and the default type where none does. */
  ghost predicate TypedBy(c: Msrs, y: nat, t: MemType)
    requires MsrsOk(c)
  {
    if c.fixEnabled && y < 256 then exists b :: 0 <= b < 88 && InFixed(b, y) && t == c.fixed[b]
    else
      && (forall g :: g in c.regs && Counts(g, c.def, y) ==> t <= g.memType)
      && (c.smrr.Some? && Counts(c.smrr.value, c.def, y) ==> t <= c.smrr.value.memType)
      && ( || (exists g :: g in c.regs && Counts(g, c.def, y) && t == g.memType)
           || (c.smrr.Some? && Counts(c.smrr.value, c.def, y) && t == c.smrr.value.memType)
           || (t == c.def && (forall g :: g in c.regs ==> !Counts(g, c.def, y))
               && (c.smrr.Some? ==> !Counts(c.smrr.value, c.def, y))))
  }

  lemma EnabledTypes(c: Msrs, y: nat)
    requires MsrsOk(c) && c.enabled && y < PAGES && Clean(Layout(Ranges(Acts(c))))
    ensures Inv(UpdateByMtrr(Fresh(DefType(c)), c)) && TypedBy(c, y, Emulated(c, y))
  {
    hide Inv, View, UpdateByMtrr, Layout, Clean, Open, LowestOfRegs, FixedIndex, Ranges, Acts;
    MtrrTypes(c, y);
    TightInv(UpdateByMtrr(Fresh(DefType(c)), c));
    if c.fixEnabled && y < 256 {
      FixedIndexCovers(y);
    } else {
      LowestWrittenOut(c, y, Emulated(c, y));
    }
  }

  lemma FixedIndexCovers(y: nat)
    requires y < 256
    ensures InFixed(FixedIndex(y), y)
  {
  }

  lemma LowestWrittenOut(c: Msrs, y: nat, t: MemType)
    requires MsrsOk(c) && c.enabled && !(c.fixEnabled && y < 256)
    requires RegsOk(Used(c)) && LowestOfRegs(Used(c), DefType(c), y, t)
    ensures TypedBy(c, y, t)
  {
    hide RegOk, LowestBit;
    var regs, n := Used(c), |c.regs|;
    assert forall k :: 0 <= k < n ==> regs[k] == c.regs[k];
    forall g | g in c.regs ensures exists k :: 0 <= k < |regs| && regs[k] == g {
      var k :| 0 <= k < n && c.regs[k] == g;
      assert regs[k] == g;
    }
    assert c.smrr.Some? ==> regs[n] == c.smrr.value;
  }

  // ---- Right for all types ----

  /** Every page that no fixed range types has the lowest non-default type of the registers that
      hold it, or the default. */
  ghost predicate Right(c: Msrs)
    requires MsrsOk(c)
  {
    && Inv(UpdateByMtrr(Fresh(DefType(c)), c)) && RegsOk(Used(c))
    && forall y :: 0 <= y < PAGES && !Fixed(c, y) ==> LowestOfRegs(Used(c), DefType(c), y, Emulated(c, y))
  }

  /** The same register with another legal type, unless it has the default type and keeps it. */
  predicate Retyped(g: Reg, h: Reg, def: MemType) {
    && h == g.(memType := h.memType)
    && if Active(g, def) then Legal(h.memType) && h.memType != def else h == g
  }

  predicate AllRetyped(regs: seq<Reg>, regs': seq<Reg>, def: MemType) {
    |regs'| == |regs| && forall k :: 0 <= k < |regs| ==> Retyped(regs[k], regs'[k], def)
  }

  /** The same machine with other types in its active registers. */
  predicate SameRanges(c: Msrs, d: Msrs) {
    && d == c.(regs := d.regs, smrr := d.smrr) && (d.smrr.Some? <==> c.smrr.Some?)
    && AllRetyped(c.regs, d.regs, c.def)
    && (c.smrr.Some? ==> Retyped(c.smrr.value, d.smrr.value, c.def))
  }

  lemma {:induction false} RetypedRanges(regs: seq<Reg>, regs': seq<Reg>, def: MemType)
    requires RegsOk(regs) && RegsOk(regs') && AllRetyped(regs, regs', def)
    ensures |ActiveRegs(regs', def)| == |ActiveRegs(regs, def)|
    ensures forall i :: 0 <= i < |ActiveRegs(regs, def)| ==>
      var g, h := ActiveRegs(regs, def)[i], ActiveRegs(regs', def)[i];
      h == g.(memType := h.memType)
  {
    if regs != [] { RetypedRanges(regs[..|regs| - 1], regs'[..|regs| - 1], def); }
  }

  lemma SameRangesActs(c: Msrs, d: Msrs)
    requires MsrsOk(c) && MsrsOk(d) && SameRanges(c, d)
    ensures Ranges(Acts(d)) == Ranges(Acts(c)) && DefType(d) == DefType(c)
  {
    hide ActiveRegs, RangeOf;
    assert RegsOk(Used(c)) && RegsOk(Used(d));
    RetypedRanges(Used(c), Used(d), c.def);
    forall i | 0 <= i < |Acts(c)| ensures Ranges(Acts(d))[i] == Ranges(Acts(c))[i] {
      SameRange(Acts(c)[i], Acts(d)[i]);
    }
  }

  lemma SameRange(g: Reg, h: Reg)
    requires g.valid && RegOk(g) && h == g.(memType := h.memType)
    ensures RegOk(h) && RangeOf(h) == RangeOf(g)
  {
  }

  /** The registers with the given types in the active ones. */
  function Retype(regs: seq<Reg>, def: MemType, types: seq<MemType>): (regs': seq<Reg>)
    requires |types| == |ActiveRegs(regs, def)| && AllLegal(types, def)
    ensures AllRetyped(regs, regs', def)
  {
    if regs == [] then [] else
    var g, n := regs[|regs| - 1], |types|;
    if Active(g, def) then Retype(regs[..|regs| - 1], def, types[..n - 1]) + [g.(memType := types[n - 1])]
    else Retype(regs[..|regs| - 1], def, types) + [g]
  }

  lemma {:induction false} RetypeTypes(regs: seq<Reg>, def: MemType, types: seq<MemType>)
    requires |types| == |ActiveRegs(regs, def)| && AllLegal(types, def)
    ensures Types(ActiveRegs(Retype(regs, def, types), def)) == types
  {
    if regs != [] {
      hide Retype, ActiveRegs, Types, AllLegal, Active;
      var g, init := regs[|regs| - 1], regs[..|regs| - 1];
      assert regs == init + [g];
      RetypeLast(init, g, def, types);
      if Active(g, def) {
        RetypeTypes(init, def, types[..|types| - 1]);
        RetypeActiveLast(init, g, def, types);
      } else {
        RetypeTypes(init, def, types);
        ActiveLast(Retype(init, def, types), g, def);
        assert ActiveRegs(Retype(init, def, types), def) + [] == ActiveRegs(Retype(init, def, types), def);
      }
    }
  }

  lemma RetypeActiveLast(init: seq<Reg>, g: Reg, def: MemType, types: seq<MemType>)
    requires |types| == |ActiveRegs(init, def)| + 1 && AllLegal(types, def) && Active(g, def)
    requires AllLegal(types[..|types| - 1], def)
    requires Types(ActiveRegs(Retype(init, def, types[..|types| - 1]), def)) == types[..|types| - 1]
    ensures var regs := Retype(init, def, types[..|types| - 1]) + [g.(memType := types[|types| - 1])];
      Types(ActiveRegs(regs, def)) == types
  {
    hide Retype, ActiveRegs, Types;
    var h, us := g.(memType := types[|types| - 1]), Retype(init, def, types[..|types| - 1]);
    ActiveLast(us, h, def);
    TypesLast(ActiveRegs(us, def), h);
  }

  lemma RetypeLast(init: seq<Reg>, g: Reg, def: MemType, types: seq<MemType>)
    requires |types| == |ActiveRegs(init + [g], def)| && AllLegal(types, def)
    ensures if Active(g, def) then
              var n := |types| - 1;
              && n == |ActiveRegs(init, def)| && AllLegal(types[..n], def) && Active(g.(memType := types[n]), def)
              && Retype(init + [g], def, types) == Retype(init, def, types[..n]) + [g.(memType := types[n])]
            else
              |types| == |ActiveRegs(init, def)| && Retype(init + [g], def, types) == Retype(init, def, types) + [g]
  {
    ActiveLast(init, g, def);
    assert (init + [g])[..|init|] == init;
    hide ActiveRegs;
  }

  lemma ActiveLast(regs: seq<Reg>, g: Reg, def: MemType)
    ensures ActiveRegs(regs + [g], def) == ActiveRegs(regs, def) + if Active(g, def) then [g] else []
  {
    assert (regs + [g])[..|regs|] == regs;
  }

  lemma TypesLast(act: seq<Reg>, g: Reg)
    ensures Types(act + [g]) == Types(act) + [g.memType]
  {
  }

  lemma RetypedOk(regs: seq<Reg>, regs': seq<Reg>, def: MemType)
    requires AllRetyped(regs, regs', def) && forall g :: g in regs ==> RegOk(g)
    ensures forall g :: g in regs' ==> RegOk(g)
  {
    assert forall k :: 0 <= k < |regs| ==> RegOk(regs[k]);
  }

  /** The machine with the given types in its active registers. */
  function RetypeMsrs(c: Msrs, types: seq<MemType>): (d: Msrs)
    requires MsrsOk(c) && c.enabled && |types| == |Acts(c)| && AllLegal(types, c.def)
    ensures MsrsOk(d) && SameRanges(c, d) && Used(d) == Retype(Used(c), c.def, types)
  {
    var regs, n := Retype(Used(c), c.def, types), |c.regs|;
    RetypedOk(Used(c), regs, c.def);
    hide Retype, RegOk, Retyped;
    assert regs == regs[..n] + regs[n..];
    c.(regs := regs[..n], smrr := if c.smrr.Some? then Some(regs[n]) else None)
  }

  /** The routine types every page as its registers ask, whatever legal types the registers hold,
      exactly when no 1 GiB step meets an earlier split before the last 2 MiB of its region. */
  lemma RightForAllTypesIffClean(c: Msrs)
    requires MsrsOk(c)
    ensures (forall d :: MsrsOk(d) && SameRanges(c, d) ==> Right(d)) <==> Clean(Layout(Ranges(Acts(c))))
  {
    hide SameRanges, Layout, Clean, Right, MsrsOk, RetypeMsrs;
    if Clean(Layout(Ranges(Acts(c)))) {
      forall d | MsrsOk(d) && SameRanges(c, d) ensures Right(d) {
        SameRangesActs(c, d);
        CleanRight(d);
      }
    } else {
      var d := UncleanWrong(c);
    }
  }

  lemma CleanRight(c: Msrs)
    requires MsrsOk(c) && Clean(Layout(Ranges(Acts(c))))
    ensures Right(c)
  {
    hide Inv, View, Tight, UpdateByMtrr, Layout, Clean, LowestOfRegs, Open, FixedIndex;
    MtrrTypes(c, 0);
    TightInv(UpdateByMtrr(Fresh(DefType(c)), c));
    forall y | 0 <= y < PAGES && !Fixed(c, y) ensures LowestOfRegs(Used(c), DefType(c), y, Emulated(c, y)) {
      MtrrTypes(c, y);
    }
  }

  lemma TightInv(s: Slat)
    requires Tight(s)
    ensures Inv(s)
  {
  }

  lemma UncleanWrong(c: Msrs) returns (d: Msrs)
    requires MsrsOk(c) && !Clean(Layout(Ranges(Acts(c))))
    ensures MsrsOk(d) && SameRanges(c, d) && !Right(d)
  {
    hide Inv, View, UpdateByMtrr, Layout, Clean, LowestOfRegs, FinalType, Wanted, SameRanges;
    ActsOk(c);
    assert c.enabled by { DisabledClean(c); }
    var types, y := UncleanIsWrongSomewhere(Ranges(Acts(c)), c.def);
    d := RetypeMsrs(c, types);
    RetypeTypes(Used(c), c.def, types);
    SameRangesActs(c, d);
    TypeAboveFixed(d, y);
    WantedIffLowestOfRegs(d, y, Emulated(d, y));
  }

  lemma DisabledClean(c: Msrs)
    requires MsrsOk(c)
    ensures !c.enabled ==> Clean(Layout(Ranges(Acts(c))))
  {
  }

  // ---- The precedence rules of the architecture ----

  /** The architecture's own test of whether a register holds a page. */
  predicate Covers(g: Reg, y: nat) {
    g.valid && Matches(g.base, g.mask, y)
  }

  /** An aligned base and a mask without gaps, below 2^bits. */
  predicate RegularReg(g: Reg, bits: nat) {
    g.valid ==> 0 < g.mask < Pow2(bits) && g.base < Pow2(bits) && Regular(g.base, g.mask, bits)
  }

  /** The emulation and the architecture take the same pages for a register's exactly when the
      register is regular. */
  lemma HoldsIffRegular(g: Reg, bits: nat)
    requires RegOk(g) && g.valid && g.mask < Pow2(bits) && g.base < Pow2(bits)
    ensures (forall y :: 0 <= y < Pow2(bits) ==> (Holds(g, y) <==> Covers(g, y))) <==> RegularReg(g, bits)
  {
    hide Pow2, Matches, Regular;
    BlockIsMatchIff(g.base, g.mask, bits);
    var own := forall y :: 0 <= y < Pow2(bits) ==> (Holds(g, y) <==> Covers(g, y));
    var block := forall y :: 0 <= y < Pow2(bits) ==>
      (g.base <= y < g.base + LowestBit(g.mask) <==> Matches(g.base, g.mask, y));
    assert forall y :: Matches(g.base, g.mask, y) <==> Covers(g, y);
    assert own <==> block;
  }

  ghost function TypesAt(regs: seq<Reg>, y: nat): (ts: set<MemType>) {
    set k | 0 <= k < |regs| && Covers(regs[k], y) :: regs[k].memType
  }

  /** Section 11.11.4.1 of the Intel SDM, Volume 3A: the type of a page outside the fixed
      ranges, where it is defined. */
  ghost function Precedence(regs: seq<Reg>, def: MemType, y: nat): (t: Option<MemType>) {
    var ts := TypesAt(regs, y);
    if ts == {} then Some(def)
    else if t :| ts == {t} then Some(t)
    else if UC in ts then Some(UC)
    else if ts == {WT, WB} then Some(WT)
    else None
  }

  /** The rules one by one: no register holds the page; or register k does and all that do have its type,
      or its type is 0, or 4 and all others' 4 or 6; or register j has another type and the two are
      neither. */
  lemma PrecedenceRules(regs: seq<Reg>, def: MemType, y: nat, k: nat)
    requires k < |regs|
    ensures (forall i :: 0 <= i < |regs| ==> !Covers(regs[i], y)) ==> Precedence(regs, def, y) == Some(def)
    ensures var t, p := regs[k].memType, Precedence(regs, def, y);
      Covers(regs[k], y) ==>
        && ((forall i :: 0 <= i < |regs| && Covers(regs[i], y) ==> regs[i].memType == t) ==> p == Some(t))
        && (t == 0 ==> p == Some(0))
        && (t == 4 && (forall i :: 0 <= i < |regs| && Covers(regs[i], y) ==> regs[i].memType in {4, 6}) ==>
              p == Some(4))
        && ((forall i :: 0 <= i < |regs| && Covers(regs[i], y) ==> regs[i].memType != 0) ==>
              forall j :: 0 <= j < |regs| && Covers(regs[j], y) ==>
                regs[j].memType == t || {t, regs[j].memType} <= {4, 6} || p == None)
  {
    hide Covers;
    var ts, t := TypesAt(regs, y), regs[k].memType;
    if Covers(regs[k], y) {
      assert t in ts;
      if forall i :: 0 <= i < |regs| && Covers(regs[i], y) ==> regs[i].memType == t { assert ts == {t}; }
      if t == 4 && 6 in ts && forall i :: 0 <= i < |regs| && Covers(regs[i], y) ==> regs[i].memType in {4, 6} {
        assert ts == {WT, WB};
      }
      forall j | 0 <= j < |regs| && Covers(regs[j], y) ensures regs[j].memType in ts {}
    } else if forall i :: 0 <= i < |regs| ==> !Covers(regs[i], y) {
      assert ts == {};
    }
  }

  ghost predicate AllRegular(regs: seq<Reg>, bits: nat) {
    RegsOk(regs) && forall k :: 0 <= k < |regs| ==> RegularReg(regs[k], bits)
  }

  /** The default is one of several types of the page and wins. */
  ghost predicate DefaultWins(regs: seq<Reg>, def: MemType, y: nat) {
    Precedence(regs, def, y) == Some(def) && exists x :: x in TypesAt(regs, y) && x != def
  }

  /** For regular registers, where the architecture defines the type, passing over default-typed
      registers yields it unless the default itself should have won over another type. */
  lemma AgreesIffDefaultDoesNotWin(regs: seq<Reg>, def: MemType, y: nat, bits: nat)
    requires AllRegular(regs, bits) && y < Pow2(bits) && Precedence(regs, def, y).Some?
    ensures LowestOfRegs(regs, def, y, Precedence(regs, def, y).value) <==> !DefaultWins(regs, def, y)
  {
    forall k | 0 <= k < |regs| ensures Holds(regs[k], y) <==> Covers(regs[k], y) {
      if regs[k].valid { HoldsIffRegular(regs[k], bits); }
    }
    hide Holds, Covers, RegOk, RegularReg;
    var ts, t := TypesAt(regs, y), Precedence(regs, def, y).value;
    assert forall k :: 0 <= k < |regs| && Covers(regs[k], y) ==> regs[k].memType in ts;
    assert t in ts ==> exists k :: 0 <= k < |regs| && Covers(regs[k], y) && regs[k].memType == t;
    ActiveHolds(regs, def, y);
    if t == def && exists x :: x in ts && x != def {
      var x :| x in ts && x != def;
      var k :| 0 <= k < |regs| && Covers(regs[k], y) && regs[k].memType == x;
      assert Active(regs[k], def);
    }
  }

  lemma ActiveHolds(regs: seq<Reg>, def: MemType, y: nat)
    requires RegsOk(regs)
    ensures forall k :: 0 <= k < |regs| && Holds(regs[k], y) ==> (Active(regs[k], def) <==> regs[k].memType != def)
  {
  }

  /** There is only one such type. */
  lemma LowestIsUnique(regs: seq<Reg>, def: MemType, y: nat, t: MemType, u: MemType)
    requires RegsOk(regs) && LowestOfRegs(regs, def, y, t) && LowestOfRegs(regs, def, y, u)
    ensures t == u
  {
    hide Holds, Active, RegOk;
  }

  /** End to end, for a clean layout and regular registers: where the architecture defines the type
      of a page, the routine leaves the page that type exactly unless the default should win. */
  lemma ArchitecturalIffDefaultDoesNotWin(c: Msrs, y: nat, bits: nat)
    requires MsrsOk(c) && Clean(Layout(Ranges(Acts(c)))) && AllRegular(Used(c), bits)
    requires y < PAGES && y < Pow2(bits) && !Fixed(c, y) && Precedence(Used(c), DefType(c), y).Some?
    ensures Inv(UpdateByMtrr(Fresh(DefType(c)), c))
    ensures Some(Emulated(c, y)) == Precedence(Used(c), DefType(c), y) <==> !DefaultWins(Used(c), DefType(c), y)
  {
    hide Inv, UpdateByMtrr, Layout, Clean, LowestOfRegs, Precedence, DefaultWins, Pow2, Emulated;
    CleanRight(c);
    AgreesIffDefaultDoesNotWin(Used(c), DefType(c), y, bits);
    var t := Precedence(Used(c), DefType(c), y).value;
    if LowestOfRegs(Used(c), DefType(c), y, t) { LowestIsUnique(Used(c), DefType(c), y, t, Emulated(c, y)); }
  }

  /** With a write-back default the emulated type is always the architectural one. */
  lemma WriteBackDefaultAgrees(c: Msrs, y: nat, bits: nat)
    requires MsrsOk(c) && Clean(Layout(Ranges(Acts(c)))) && AllRegular(Used(c), bits) && DefType(c) == WB
    requires y < PAGES && y < Pow2(bits) && !Fixed(c, y) && Precedence(Used(c), WB, y).Some?
    ensures Inv(UpdateByMtrr(Fresh(WB), c)) && Some(Emulated(c, y)) == Precedence(Used(c), WB, y)
  {
    hide Inv, UpdateByMtrr, Layout, Clean, Pow2, Emulated, AllRegular;
    ArchitecturalIffDefaultDoesNotWin(c, y, bits);
  }

  // ---- Registers for which it is not right ----

  /** Two registers, fixed ranges off. */
  function TwoRegs(def: MemType, g: Reg, h: Reg): (c: Msrs) {
    Msrs(true, false, def, [g, h], None, seq(88, i => UC))
  }

  const PAGE_MASK: nat := PAGES - 1            // one page
  const GIGABYTE_MASK: nat := PAGES - 262144   // 1 GiB

  lemma TwoRegsFacts(def: MemType, g: Reg, h: Reg, bits: nat)
    requires g.valid && h.valid && RegOk(g) && RegOk(h) && RegularReg(g, bits) && RegularReg(h, bits)
    ensures var c := TwoRegs(def, g, h);
      && MsrsOk(c) && Used(c) == [g, h] && DefType(c) == def && AllRegular(Used(c), bits)
      && Acts(c) == (if Active(g, def) then [g] else []) + if Active(h, def) then [h] else []
  {
    hide RegOk, RegularReg, ActiveRegs, Active;
    assert Used(TwoRegs(def, g, h)) == [g, h];
    ActiveTwo(g, h, def);
  }

  lemma TypesOfTwo(g: Reg, h: Reg, y: nat)
    ensures TypesAt([g, h], y) == (if Covers(g, y) then {g.memType} else {}) + if Covers(h, y) then {h.memType} else {}
  {
    hide Covers;
    var regs := [g, h];
    assert regs[0] == g && regs[1] == h;
  }

  lemma ActiveTwo(g: Reg, h: Reg, def: MemType)
    ensures ActiveRegs([g, h], def) == (if Active(g, def) then [g] else []) + if Active(h, def) then [h] else []
  {
    assert [] + [g] == [g] && [g] + [h] == [g, h];
    ActiveLast([], g, def);
    ActiveLast([g], h, def);
  }

  lemma MaskFacts()
    ensures Pow2(36) == PAGES && LowestBit(PAGE_MASK) == 1 && LowestBit(GIGABYTE_MASK) == 262144
    ensures Masked(512, PAGE_MASK) == 512 && Masked(512, GIGABYTE_MASK) == 0
    ensures Masked(0, PAGE_MASK) == 0 && Masked(0, GIGABYTE_MASK) == 0
  {
    hide Pow2, Masked, LowestBit;
    Pow2Values();
    AllOnes(512, 36);
    AllOnes(0, 36);
    assert GIGABYTE_MASK == Pow2(18) * (Pow2(18) - 1);
    OnesFrom(512, 18, 18);
    OnesFrom(0, 18, 18);
  }

  /** Page 0 uncacheable and the first gigabyte write-through over a write-back default: page 512
      ought to be write-through and is left write-back. */
  lemma PageThenGigabyteIsWrong()
    ensures var c := TwoRegs(WB, Reg(true, 0, PAGE_MASK, UC), Reg(true, 0, GIGABYTE_MASK, WT));
      && MsrsOk(c) && AllRegular(Used(c), 36) && Precedence(Used(c), WB, 512) == Some(WT)
      && Inv(UpdateByMtrr(Fresh(WB), c)) && Emulated(c, 512) == WB
  {
    hide Inv, UpdateByMtrr, Emulated, AllRegular, Precedence, Acts, Used, MsrsOk, Ranges, TwoRegs;
    GigabyteRegs();
    StaysDefault(TwoRegs(WB, Reg(true, 0, PAGE_MASK, UC), Reg(true, 0, GIGABYTE_MASK, WT)));
  }

  lemma GigabyteRegs()
    ensures var c := TwoRegs(WB, Reg(true, 0, PAGE_MASK, UC), Reg(true, 0, GIGABYTE_MASK, WT));
      && MsrsOk(c) && DefType(c) == WB && AllRegular(Used(c), 36) && Precedence(Used(c), WB, 512) == Some(WT)
      && Ranges(Acts(c)) == [Range(0, 1), Range(0, 262144)]
  {
    var g, h := Reg(true, 0, PAGE_MASK, UC), Reg(true, 0, GIGABYTE_MASK, WT);
    hide Masked, Pow2, LowestBit, ActiveRegs, AllRegular, MsrsOk, Used, Acts, TypesAt;
    MaskFacts();
    TwoRegsFacts(WB, g, h, 36);
    TypesOfTwo(g, h, 512);
    assert Ranges([g, h]) == [Range(0, 1), Range(0, 262144)];
  }

  lemma StaysDefault(c: Msrs)
    requires MsrsOk(c) && Ranges(Acts(c)) == [Range(0, 1), Range(0, 262144)]
    ensures Inv(UpdateByMtrr(Fresh(DefType(c)), c)) && Emulated(c, 512) == DefType(c)
  {
    hide Inv, View, UpdateByMtrr, FinalType, Layout, Clean, Ranges;
    TypeAboveFixed(c, 512);
    PageThenGigabyteIsUnclean(Types(Acts(c)), DefType(c));
  }

  /** Page 0 both uncacheable and write-back, by two registers, over an uncacheable default: it ought
      to be uncacheable and is made write-back. */
  lemma UncacheableDefaultLoses()
    ensures var c := TwoRegs(UC, Reg(true, 0, PAGE_MASK, UC), Reg(true, 0, PAGE_MASK, WB));
      && MsrsOk(c) && AllRegular(Used(c), 36) && Precedence(Used(c), UC, 0) == Some(UC)
      && Inv(UpdateByMtrr(Fresh(UC), c)) && Emulated(c, 0) == WB
  {
    hide Inv, UpdateByMtrr, Emulated, AllRegular, Precedence, Acts, Used, MsrsOk, Ranges, TwoRegs;
    PageRegs();
    TakesOther(TwoRegs(UC, Reg(true, 0, PAGE_MASK, UC), Reg(true, 0, PAGE_MASK, WB)), Reg(true, 0, PAGE_MASK, WB));
  }

  lemma PageRegs()
    ensures var g, h := Reg(true, 0, PAGE_MASK, UC), Reg(true, 0, PAGE_MASK, WB);
      var c := TwoRegs(UC, g, h);
      && MsrsOk(c) && DefType(c) == UC && !Fixed(c, 0) && AllRegular(Used(c), 36)
      && Precedence(Used(c), UC, 0) == Some(UC) && Acts(c) == [h] && Ranges(Acts(c)) == [Range(0, 1)]
  {
    var g, h := Reg(true, 0, PAGE_MASK, UC), Reg(true, 0, PAGE_MASK, WB);
    hide Masked, Pow2, LowestBit, ActiveRegs, AllRegular, MsrsOk, Used, Acts, TypesAt;
    MaskFacts();
    TwoRegsFacts(UC, g, h, 36);
    TypesOfTwo(g, h, 0);
    assert Ranges([h]) == [Range(0, 1)];
  }

  lemma TakesOther(c: Msrs, h: Reg)
    requires MsrsOk(c) && Acts(c) == [h] && Ranges(Acts(c)) == [Range(0, 1)] && !Fixed(c, 0)
    ensures Inv(UpdateByMtrr(Fresh(DefType(c)), c)) && Emulated(c, 0) == h.memType
  {
    hide Inv, View, UpdateByMtrr, Layout, Clean, LowestOfRegs, Acts;
    PageIsClean();
    CleanRight(c);
    WantedIffLowestOfRegs(c, 0, Emulated(c, 0));
    assert InRange(Ranges(Acts(c))[0], 0);
  }

  lemma PageIsClean()
    ensures Clean(Layout([Range(0, 1)]))
  {
    assert [Range(0, 1)][..0] == [];
    assert Tiles(0, 1, 0) == [Step(0, Small, 0)];
  }
}
