/**
  Variable-range MTRRs: how a range is cut into steps, what a run of steps over any number of
  overlapping ranges leaves as each page's memory type, and when that is the type the MTRR
  precedence rules ask for.
*/
module Mtrr {
  import opened Descriptors
  import opened IdentityMap
  import opened EptMemoryType

  datatype Size = Small | Large | Huge {
    function Pages(): (n: nat) {
      match this case Small => 1 case Large => 512 case Huge => 262144
    }
  }

  /** One call of an updater, on behalf of range number `owner`. */
  datatype Step = Step(page: nat, size: Size, owner: nat)

  /** Pages [base, base + len). */
  datatype Range = Range(base: nat, len: nat)

  predicate InRange(g: Range, y: nat) {
    g.base <= y < g.base + g.len
  }

  predicate InStep(st: Step, y: nat) {
    st.page <= y < st.page + st.size.Pages()
  }

  predicate Fits(z: Size, page: nat, remainder: nat) {
    page % z.Pages() == 0 && z.Pages() <= remainder
  }

  /** The step size, from the alignment of the address and what remains of the range. */
  function Choose(page: nat, remainder: nat): (z: Size)
    requires 0 < remainder
    ensures z.Pages() <= remainder && page % z.Pages() == 0
  {
    if page % 262144 == 0 then
      if remainder >= 262144 then Huge else if remainder >= 512 then Large else Small
    else if page % 512 == 0 then
      if remainder >= 512 then Large else Small
    else Small
  }

  /** It is the largest that fits both. */
  lemma ChooseLargest(page: nat, remainder: nat, x: Size)
    requires 0 < remainder && Fits(x, page, remainder)
    ensures x.Pages() <= Choose(page, remainder).Pages()
  {
  }

  /** The steps that cut [page, end). */
  function Tiles(page: nat, end: nat, owner: nat): (ts: seq<Step>)
    requires page <= end
    decreases end - page
  {
    if page == end then [] else
    var z := Choose(page, end - page);
    [Step(page, z, owner)] + Tiles(page + z.Pages(), end, owner)
  }

  /** Steps are naturally aligned, each starts where the one before it ends, and they run
      exactly from the start of the range to its end. */
  lemma {:induction false} TilesAreATiling(page: nat, end: nat, owner: nat)
    requires page <= end
    ensures var ts := Tiles(page, end, owner);
      && (ts == [] <==> page == end)
      && (ts != [] ==> ts[0].page == page && ts[|ts| - 1].page + ts[|ts| - 1].size.Pages() == end)
      && (forall i :: 0 <= i < |ts| ==>
            && ts[i].owner == owner && ts[i].page % ts[i].size.Pages() == 0
            && page <= ts[i].page && ts[i].page + ts[i].size.Pages() <= end)
      && (forall i :: 0 <= i < |ts| - 1 ==> ts[i + 1].page == ts[i].page + ts[i].size.Pages())
      && (forall i, j :: 0 <= i < j < |ts| ==> ts[i].page + ts[i].size.Pages() <= ts[j].page)
    decreases end - page
  {
    if page < end {
      var z := Choose(page, end - page);
      TilesAreATiling(page + z.Pages(), end, owner);
    }
  }

  lemma {:induction false} TileOf(page: nat, end: nat, owner: nat, y: nat) returns (k: nat)
    requires page <= y < end
    ensures k < |Tiles(page, end, owner)| && InStep(Tiles(page, end, owner)[k], y)
    decreases end - page
  {
    var z := Choose(page, end - page);
    if y < page + z.Pages() {
      k := 0;
    } else {
      k := TileOf(page + z.Pages(), end, owner, y);
      k := k + 1;
    }
  }

  /** A page lies in exactly one step if it lies in the range, and in none otherwise. */
  lemma TilesCover(page: nat, end: nat, owner: nat, y: nat)
    requires page <= end
    ensures var ts := Tiles(page, end, owner);
      && (page <= y < end <==> exists i :: 0 <= i < |ts| && InStep(ts[i], y))
      && (forall i, j :: 0 <= i < |ts| && 0 <= j < |ts| && InStep(ts[i], y) && InStep(ts[j], y) ==> i == j)
  {
    TilesAreATiling(page, end, owner);
    if page <= y < end {
      var k := TileOf(page, end, owner, y);
    }
    hide Tiles;
  }

  lemma TilesOk(page: nat, end: nat, owner: nat, types: seq<MemType>)
    requires page <= end <= PAGES && owner < |types|
    ensures StepsOk(Tiles(page, end, owner), types)
  {
    TilesAreATiling(page, end, owner);
  }

  // ---- Running steps ----

  predicate StepOk(st: Step) {
    st.page % st.size.Pages() == 0 && st.page + st.size.Pages() <= PAGES
  }

  ghost function Apply(s: Slat, st: Step, t: MemType): (u: Slat)
    requires Shape(s) && StepOk(st)
    ensures Shape(u)
  {
    match st.size
    case Small => TouchPage(s, st.page, t)
    case Large => TouchLarge(s, st.page / 512, t).0
    case Huge => TouchHuge(s, st.page / 512 / 512, t)
  }

  /** Whether a step changes page y when the regions in `split` are down to 4 KiB pages:
      a 1 GiB step ends after the first of them. */
  ghost predicate Reaches(split: set<nat>, st: Step, y: nat) {
    InStep(st, y) && (st.size.Huge? ==> forall q :: q in split && st.page / 512 <= q ==> y / 512 <= q)
  }

  ghost predicate StepEffect(s: Slat, u: Slat, st: Step, t: MemType)
    requires Tight(s)
  {
    && Tight(u) && (Open(s) ==> Open(u))
    && u.pte.Keys == s.pte.Keys + (if st.size.Small? then {st.page / 512} else {})
    && forall y :: 0 <= y < PAGES ==>
         View(u, y) == if Reaches(s.pte.Keys, st, y) then TouchView(View(s, y), t) else View(s, y)
  }

  lemma StopReaches(split: set<nat>, q: nat, n: nat, m: nat)
    requires q <= m < q + n
    ensures m < Stop(split, q, n) <==> forall x :: x in split && q <= x ==> m <= x
  {
    hide Stop;
    assert m >= Stop(split, q, n) ==> Stop(split, q, n) - 1 in split;
  }

  lemma EffectIsStep(s: Slat, u: Slat, lo: nat, hi: nat, st: Step, t: MemType)
    requires Tight(s) && Effect(s, u, lo, hi, t)
    requires u.pte.Keys == s.pte.Keys + (if st.size.Small? then {st.page / 512} else {})
    requires forall y :: 0 <= y < PAGES ==> (Reaches(s.pte.Keys, st, y) <==> lo <= y < hi)
    ensures StepEffect(s, u, st, t)
  {
    hide Tight, View, Open, TouchView, Reaches;
  }

  lemma ApplySmall(s: Slat, st: Step, t: MemType)
    requires Tight(s) && StepOk(st) && st.size.Small?
    ensures StepEffect(s, Apply(s, st, t), st, t)
  {
    hide Linked, Pristine, LinkedBut, TabsOk, View, Open, TouchPage, TouchView, Effect, StepEffect;
    TouchPageEffect(s, st.page, t);
    EffectIsStep(s, Apply(s, st, t), st.page, st.page + 1, st, t);
  }

  lemma ApplyLarge(s: Slat, st: Step, t: MemType)
    requires Tight(s) && StepOk(st) && st.size.Large?
    ensures StepEffect(s, Apply(s, st, t), st, t)
  {
    hide Linked, Pristine, LinkedBut, TabsOk, View, Open, TouchLarge, TouchView, Effect, StepEffect;
    Aligned(st.page);
    TouchLargeEffect(s, st.page / 512, t);
    EffectIsStep(s, Apply(s, st, t), st.page, st.page + 512, st, t);
  }

  lemma ApplyHuge(s: Slat, st: Step, t: MemType)
    requires Tight(s) && StepOk(st) && st.size.Huge?
    ensures StepEffect(s, Apply(s, st, t), st, t)
  {
    hide Linked, Pristine, LinkedBut, TabsOk, View, Open, TouchHuge, TouchView, Stop, Effect, StepEffect, Reaches;
    Aligned(st.page);
    TouchHugeEffect(s, st.page / 512 / 512, t);
    HugeReach(s.pte.Keys, st);
    EffectIsStep(s, Apply(s, st, t), st.page, Stop(s.pte.Keys, st.page / 512, 512) * 512, st, t);
  }

  lemma Aligned(p: nat)
    ensures p % 512 == 0 ==> p / 512 * 512 == p
    ensures p % 262144 == 0 ==> p / 512 / 512 * 262144 == p && p / 512 / 512 * 512 == p / 512
  {
    if p % 262144 == 0 {
      var r := p / 262144;
      assert p == r * 262144;
      assert p / 512 == r * 512;
      assert p / 512 / 512 == r;
    }
  }

  lemma ApplyEffect(s: Slat, st: Step, t: MemType)
    requires Tight(s) && StepOk(st)
    ensures StepEffect(s, Apply(s, st, t), st, t)
  {
    hide Linked, Pristine, LinkedBut, TabsOk, Apply, StepEffect;
    match st.size
    case Small => ApplySmall(s, st, t);
    case Large => ApplyLarge(s, st, t);
    case Huge => ApplyHuge(s, st, t);
  }

  lemma HugeReach(split: set<nat>, st: Step)
    requires st.size.Huge? && StepOk(st)
    ensures forall y :: 0 <= y < PAGES ==>
      (Reaches(split, st, y) <==> st.page <= y < Stop(split, st.page / 512, 512) * 512)
  {
    hide Stop;
    forall y | 0 <= y < PAGES && InStep(st, y)
      ensures Reaches(split, st, y) <==> y / 512 < Stop(split, st.page / 512, 512)
    {
      StopReaches(split, st.page / 512, 512, y / 512);
    }
  }

  ghost predicate StepsOk(steps: seq<Step>, types: seq<MemType>) {
    forall i :: 0 <= i < |steps| ==> StepOk(steps[i]) && steps[i].owner < |types|
  }

  ghost function Run(s: Slat, steps: seq<Step>, types: seq<MemType>): (u: Slat)
    requires Shape(s) && StepsOk(steps, types)
    ensures Shape(u)
    decreases |steps|
  {
    if steps == [] then s else
    var n := |steps| - 1;
    Apply(Run(s, steps[..n], types), steps[n], types[steps[n].owner])
  }

  lemma {:induction false} RunAppend(s: Slat, a: seq<Step>, b: seq<Step>, types: seq<MemType>)
    requires Shape(s) && StepsOk(a, types) && StepsOk(b, types)
    ensures StepsOk(a + b, types) && Run(s, a + b, types) == Run(Run(s, a, types), b, types)
    decreases |b|
  {
    hide Shape, Apply;
    if b == [] {
      assert a + b == a;
    } else {
      var n := |b| - 1;
      RunAppend(s, a, b[..n], types);
      assert (a + b)[..|a| + n] == a + b[..n];
    }
  }

  lemma RunFirst(s: Slat, st: Step, rest: seq<Step>, types: seq<MemType>)
    requires Shape(s) && StepsOk([st] + rest, types)
    ensures StepsOk(rest, types) && StepOk(st) && st.owner < |types|
    ensures Run(s, [st] + rest, types) == Run(Apply(s, st, types[st.owner]), rest, types)
  {
    assert forall i :: 0 <= i < |rest| ==> rest[i] == ([st] + rest)[i + 1];
    assert StepOk(([st] + rest)[0]);
    RunAppend(s, [st], rest, types);
    hide Shape, Apply;
    assert [st][..0] == [];
  }

  lemma {:induction false} RunMoreTypes(s: Slat, steps: seq<Step>, types: seq<MemType>, more: seq<MemType>)
    requires Shape(s) && StepsOk(steps, types)
    ensures StepsOk(steps, types + more) && Run(s, steps, types + more) == Run(s, steps, types)
    decreases |steps|
  {
    hide Shape, Apply;
    if steps != [] { RunMoreTypes(s, steps[..|steps| - 1], types, more); }
  }

  /** The 2 MiB regions that a run leaves split. */
  ghost function SmallRegions(steps: seq<Step>): (qs: set<nat>)
    decreases |steps|
  {
    if steps == [] then {} else
    var n := |steps| - 1;
    SmallRegions(steps[..n]) + (if steps[n].size.Small? then {steps[n].page / 512} else {})
  }

  lemma {:induction false} InSmallRegions(steps: seq<Step>, q: nat)
    ensures q in SmallRegions(steps) <==>
      exists i :: 0 <= i < |steps| && steps[i].size.Small? && steps[i].page / 512 == q
    decreases |steps|
  {
    if steps != [] {
      var n := |steps| - 1;
      InSmallRegions(steps[..n], q);
      if i :| 0 <= i < |steps| && steps[i].size.Small? && steps[i].page / 512 == q {
        assert i < n ==> steps[..n][i] == steps[i];
      }
    }
  }

  /** Step number j reaches page y when the steps before it have run from an unsplit map. */
  ghost predicate ReachesAt(steps: seq<Step>, j: nat, y: nat)
    requires j < |steps|
  {
    Reaches(SmallRegions(steps[..j]), steps[j], y)
  }

  /** The attributes a run leaves on page y. */
  ghost function After(a: Attr, steps: seq<Step>, types: seq<MemType>, y: nat): (b: Attr)
    requires StepsOk(steps, types)
    decreases |steps|
  {
    if steps == [] then a else
    var n := |steps| - 1;
    var b := After(a, steps[..n], types, y);
    if ReachesAt(steps, n, y) then Touch(b, types[steps[n].owner]) else b
  }

  lemma {:induction false} RunMeaning(s: Slat, steps: seq<Step>, types: seq<MemType>)
    requires Tight(s) && s.pte == map[] && StepsOk(steps, types)
    ensures var u := Run(s, steps, types);
      && Tight(u) && (Open(s) ==> Open(u)) && u.pte.Keys == SmallRegions(steps)
      && (forall y :: 0 <= y < PAGES ==>
            View(u, y) == Xlat(View(s, y).host, After(View(s, y).attr, steps, types, y)))
    decreases |steps|
  {
    hide Linked, Pristine, LinkedBut, TabsOk, View, Open, Touch, Apply;
    if steps != [] {
      var n := |steps| - 1;
      RunMeaning(s, steps[..n], types);
      ApplyEffect(Run(s, steps[..n], types), steps[n], types[steps[n].owner]);
    }
  }

  /** t is the lowest type of the steps that reach y, or the default when none does. */
  ghost predicate LowestReaching(steps: seq<Step>, types: seq<MemType>, def: MemType, y: nat, t: MemType)
    requires StepsOk(steps, types)
  {
    && (forall j :: 0 <= j < |steps| && ReachesAt(steps, j, y) ==> t <= types[steps[j].owner])
    && ((exists j :: 0 <= j < |steps| && ReachesAt(steps, j, y) && t == types[steps[j].owner])
        || (t == def && forall j :: 0 <= j < |steps| ==> !ReachesAt(steps, j, y)))
  }

  ghost predicate Reached(steps: seq<Step>, y: nat) {
    exists j :: 0 <= j < |steps| && ReachesAt(steps, j, y)
  }

  lemma ReachesAtPrefix(steps: seq<Step>, n: nat, y: nat)
    requires n <= |steps|
    ensures forall j :: 0 <= j < n ==> (ReachesAt(steps[..n], j, y) <==> ReachesAt(steps, j, y))
  {
    hide Reaches, SmallRegions;
    assert forall j :: 0 <= j < n ==> steps[..n][..j] == steps[..j];
  }

  lemma LowestExtends(steps: seq<Step>, types: seq<MemType>, def: MemType, y: nat, t: MemType)
    requires StepsOk(steps, types) && steps != []
    requires LowestReaching(steps[..|steps| - 1], types, def, y, t)
    ensures var n := |steps| - 1;
      var new' := types[steps[n].owner];
      && (Reached(steps, y) <==> Reached(steps[..n], y) || ReachesAt(steps, n, y))
      && LowestReaching(steps, types, def, y,
           if !ReachesAt(steps, n, y) then t else if Reached(steps[..n], y) then Merge(t, new', false) else new')
  {
    hide ReachesAt, StepOk;
    var n := |steps| - 1;
    ReachesAtPrefix(steps, n, y);
    assert forall j :: 0 <= j < n ==> steps[..n][j] == steps[j];
  }

  lemma {:induction false} AfterIsLowest(steps: seq<Step>, types: seq<MemType>, def: MemType, y: nat)
    requires StepsOk(steps, types)
    ensures var b := After(Full(def, false), steps, types, y);
      && b == Full(b.memType, b.covered) && (b.covered <==> Reached(steps, y))
      && LowestReaching(steps, types, def, y, b.memType)
    decreases |steps|
  {
    hide ReachesAt, LowestReaching;
    if steps == [] {
      NothingReached(types, def, y);
    } else {
      var n := |steps| - 1;
      AfterIsLowest(steps[..n], types, def, y);
      LowestExtends(steps, types, def, y, After(Full(def, false), steps[..n], types, y).memType);
    }
  }

  lemma NothingReached(types: seq<MemType>, def: MemType, y: nat)
    ensures !Reached([], y) && LowestReaching([], types, def, y, def)
  {
  }

  /** The type a run from the map with default type `def` leaves on page y. */
  ghost function FinalType(steps: seq<Step>, types: seq<MemType>, def: MemType, y: nat): (t: MemType)
    requires StepsOk(steps, types) && y < PAGES
  {
    FreshTight(def);
    RunMeaning(Fresh(def), steps, types);
    View(Run(Fresh(def), steps, types), y).attr.memType
  }

  lemma FreshTight(def: MemType)
    ensures Tight(Fresh(def)) && Open(Fresh(def)) && Fresh(def).pte == map[]
    ensures forall p :: 0 <= p < PAGES ==> View(Fresh(def), p) == Xlat(p, Full(def, false))
  {
    FreshMeaning(def);
  }

  /** For any steps whatever: the map stays the identity with all rights, and each page's type is
      the lowest among the steps that reach it. */
  lemma RunFromFresh(steps: seq<Step>, types: seq<MemType>, def: MemType)
    requires StepsOk(steps, types)
    ensures var u := Run(Fresh(def), steps, types);
      && Tight(u) && Open(u)
      && (forall y :: 0 <= y < PAGES ==>
            && View(u, y).host == y && Grants(View(u, y).attr)
            && LowestReaching(steps, types, def, y, View(u, y).attr.memType))
  {
    hide Tight, Open, View, LowestReaching, Run;
    FreshTight(def);
    RunMeaning(Fresh(def), steps, types);
    forall y | 0 <= y < PAGES
      ensures var a := After(Full(def, false), steps, types, y);
              Grants(a) && LowestReaching(steps, types, def, y, a.memType)
    {
      AfterIsLowest(steps, types, def, y);
    }
  }

  // ---- Ranges ----

  predicate RangesOk(ranges: seq<Range>) {
    forall k :: 0 <= k < |ranges| ==> ranges[k].base + ranges[k].len <= PAGES
  }

  /** The steps of all ranges, range by range. */
  function Layout(ranges: seq<Range>): (steps: seq<Step>)
    decreases |ranges|
  {
    if ranges == [] then [] else
    var n := |ranges| - 1;
    Layout(ranges[..n]) + Tiles(ranges[n].base, ranges[n].base + ranges[n].len, n)
  }

  lemma LayoutAppend(ranges: seq<Range>, g: Range)
    ensures Layout(ranges + [g]) == Layout(ranges) + Tiles(g.base, g.base + g.len, |ranges|)
  {
    hide Layout, Tiles;
    assert (ranges + [g])[..|ranges|] == ranges;
    LayoutLast(ranges + [g]);
  }

  lemma LayoutLast(ranges: seq<Range>)
    requires ranges != []
    ensures var n := |ranges| - 1;
      Layout(ranges) == Layout(ranges[..n]) + Tiles(ranges[n].base, ranges[n].base + ranges[n].len, n)
  {
    hide Tiles;
  }

  /** Every step is a legal call that stays inside its own range. */
  lemma {:induction false} LayoutSteps(ranges: seq<Range>)
    requires RangesOk(ranges)
    ensures forall i :: 0 <= i < |Layout(ranges)| ==>
      var st := Layout(ranges)[i];
      && StepOk(st) && st.owner < |ranges|
      && ranges[st.owner].base <= st.page && st.page + st.size.Pages() <= ranges[st.owner].base + ranges[st.owner].len
    decreases |ranges|
  {
    if ranges != [] {
      var n := |ranges| - 1;
      LayoutSteps(ranges[..n]);
      TilesAreATiling(ranges[n].base, ranges[n].base + ranges[n].len, n);
    }
  }

  /** Each page of a range is in a step of that range. */
  lemma {:induction false} LayoutCovers(ranges: seq<Range>, k: nat, y: nat) returns (i: nat)
    requires k < |ranges| && InRange(ranges[k], y)
    ensures i < |Layout(ranges)| && Layout(ranges)[i].owner == k && InStep(Layout(ranges)[i], y)
    decreases |ranges|
  {
    hide Tiles;
    var n := |ranges| - 1;
    if k == n {
      TilesAreATiling(ranges[n].base, ranges[n].base + ranges[n].len, n);
      i := TileOf(ranges[n].base, ranges[n].base + ranges[n].len, n, y);
      i := |Layout(ranges[..n])| + i;
    } else {
      i := LayoutCovers(ranges[..n], k, y);
    }
  }

  /** No page is in two steps of one range. */
  lemma {:induction false} LayoutOnce(ranges: seq<Range>, i: nat, j: nat, y: nat)
    requires RangesOk(ranges) && i < |Layout(ranges)| && j < |Layout(ranges)|
    requires Layout(ranges)[i].owner == Layout(ranges)[j].owner
    requires InStep(Layout(ranges)[i], y) && InStep(Layout(ranges)[j], y)
    ensures i == j
    decreases |ranges|
  {
    var n := |ranges| - 1;
    var g, a := ranges[n], |Layout(ranges[..n])|;
    TilesAreATiling(g.base, g.base + g.len, n);
    LayoutSteps(ranges[..n]);
    if i < a && j < a {
      LayoutOnce(ranges[..n], i, j, y);
    } else if i >= a && j >= a {
      TilesCover(g.base, g.base + g.len, n, y);
    }
  }

  /** The type the ranges ask for: the lowest type of the ranges that hold the page, or the
      default. */
  ghost predicate Wanted(ranges: seq<Range>, types: seq<MemType>, def: MemType, y: nat, t: MemType)
    requires |types| == |ranges|
  {
    && (forall k :: 0 <= k < |ranges| && InRange(ranges[k], y) ==> t <= types[k])
    && ((exists k :: 0 <= k < |ranges| && InRange(ranges[k], y) && t == types[k])
        || (t == def && forall k :: 0 <= k < |ranges| ==> !InRange(ranges[k], y)))
  }

  /** A 4 KiB step inside the region of a 1 GiB step. */
  predicate Splits(small: Step, huge: Step) {
    small.size.Small? && huge.size.Huge? && InStep(huge, small.page)
  }

  /** No 1 GiB step lands on a region that an earlier step has split anywhere but in its last
      2 MiB. */
  ghost predicate Clean(steps: seq<Step>) {
    forall i, j :: 0 <= i < j < |steps| && Splits(steps[i], steps[j]) ==> steps[i].page / 512 % 512 == 511
  }

  lemma CleanReaches(steps: seq<Step>, j: nat, y: nat)
    requires Clean(steps) && j < |steps| && StepOk(steps[j])
    ensures ReachesAt(steps, j, y) <==> InStep(steps[j], y)
  {
    if InStep(steps[j], y) && steps[j].size.Huge? {
      forall q | q in SmallRegions(steps[..j]) && steps[j].page / 512 <= q ensures y / 512 <= q {
        InSmallRegions(steps[..j], q);
        var i :| 0 <= i < j && steps[..j][i].size.Small? && steps[..j][i].page / 512 == q;
        assert steps[i] == steps[..j][i];
        LastLarge(steps[j], steps[i].page, y);
      }
    }
  }

  lemma LastLarge(st: Step, x: nat, y: nat)
    requires st.size.Huge? && StepOk(st) && InStep(st, y) && st.page / 512 <= x / 512
    requires InStep(st, x) ==> x / 512 % 512 == 511
    ensures y / 512 <= x / 512
  {
    var r := st.page / 262144;
    assert st.page == r * 262144 && y < r * 262144 + 262144;
    assert y / 512 <= r * 512 + 511;
    if InStep(st, x) {
      assert r * 512 <= x / 512 <= r * 512 + 511;
    } else {
      assert x >= r * 262144 + 262144;
    }
  }

  /** If what reaches a page is what its ranges hold, the lowest reaching type is the one wanted. */
  lemma LowestIsWanted(ranges: seq<Range>, types: seq<MemType>, def: MemType, y: nat, t: MemType)
    requires |types| == |ranges| && StepsOk(Layout(ranges), types)
    requires LowestReaching(Layout(ranges), types, def, y, t)
    requires forall i :: 0 <= i < |Layout(ranges)| && ReachesAt(Layout(ranges), i, y) ==>
      InRange(ranges[Layout(ranges)[i].owner], y)
    requires forall k :: 0 <= k < |ranges| && InRange(ranges[k], y) ==> Served(Layout(ranges), k, y)
    ensures Wanted(ranges, types, def, y, t)
  {
    hide Layout, Reaches, SmallRegions;
  }

  /** Some step of range k reaches page y. */
  ghost predicate Served(steps: seq<Step>, k: nat, y: nat) {
    exists i :: 0 <= i < |steps| && steps[i].owner == k && ReachesAt(steps, i, y)
  }

  lemma CleanServes(ranges: seq<Range>, k: nat, y: nat)
    requires RangesOk(ranges) && Clean(Layout(ranges)) && k < |ranges| && InRange(ranges[k], y)
    ensures Served(Layout(ranges), k, y)
  {
    LayoutSteps(ranges);
    var i := LayoutCovers(ranges, k, y);
    CleanReaches(Layout(ranges), i, y);
  }

  lemma CleanServesAll(ranges: seq<Range>, y: nat)
    requires RangesOk(ranges) && Clean(Layout(ranges))
    ensures forall k :: 0 <= k < |ranges| && InRange(ranges[k], y) ==> Served(Layout(ranges), k, y)
  {
    forall k | 0 <= k < |ranges| && InRange(ranges[k], y) ensures Served(Layout(ranges), k, y) {
      CleanServes(ranges, k, y);
    }
  }

  lemma FinalTypeIsLowest(steps: seq<Step>, types: seq<MemType>, def: MemType, y: nat)
    requires StepsOk(steps, types) && y < PAGES
    ensures LowestReaching(steps, types, def, y, FinalType(steps, types, def, y))
  {
    RunFromFresh(steps, types, def);
  }

  /** A clean layout gives every page the type its ranges ask for. */
  lemma CleanIsRight(ranges: seq<Range>, types: seq<MemType>, def: MemType, y: nat)
    requires RangesOk(ranges) && |types| == |ranges| && Clean(Layout(ranges)) && y < PAGES
    ensures StepsOk(Layout(ranges), types) && Wanted(ranges, types, def, y, FinalType(Layout(ranges), types, def, y))
  {
    LayoutSteps(ranges);
    FinalTypeIsLowest(Layout(ranges), types, def, y);
    CleanServesAll(ranges, y);
    ReachedInRange(ranges, y);
    LowestIsWanted(ranges, types, def, y, FinalType(Layout(ranges), types, def, y));
  }

  lemma ReachedInRange(ranges: seq<Range>, y: nat)
    requires RangesOk(ranges)
    ensures forall i :: 0 <= i < |Layout(ranges)| && ReachesAt(Layout(ranges), i, y) ==>
      Layout(ranges)[i].owner < |ranges| && InRange(ranges[Layout(ranges)[i].owner], y)
  {
    LayoutSteps(ranges);
  }

  /** Types that expose range k: it alone is lowest. */
  function Exposing(n: nat, k: nat, low: MemType, high: MemType): (types: seq<MemType>)
    requires k < n
  {
    seq(n, i requires 0 <= i => if i == k then low else high)
  }

  /** When a 1 GiB step finds an earlier split before the last 2 MiB of its region, the page just
      after that split region gets the wrong type for the exposing types. */
  lemma UncleanIsWrong(ranges: seq<Range>, def: MemType, i: nat, j: nat, low: MemType, high: MemType)
    requires RangesOk(ranges) && i < j < |Layout(ranges)| && Splits(Layout(ranges)[i], Layout(ranges)[j])
    requires Layout(ranges)[i].page / 512 % 512 != 511 && Layout(ranges)[j].owner < |ranges|
    requires low < high && low != def
    ensures var types := Exposing(|ranges|, Layout(ranges)[j].owner, low, high);
      var y := (Layout(ranges)[i].page / 512 + 1) * 512;
      y < PAGES && StepsOk(Layout(ranges), types)
      && !Wanted(ranges, types, def, y, FinalType(Layout(ranges), types, def, y))
  {
    hide FinalType, LowestReaching, Layout, ReachesAt, Wanted;
    LayoutSteps(ranges);
    var steps, k := Layout(ranges), Layout(ranges)[j].owner;
    var types, y := Exposing(|ranges|, k, low, high), (steps[i].page / 512 + 1) * 512;
    NextLarge(steps[j], steps[i].page);
    BlockedStep(steps, i, j);
    OnlyOwnStep(ranges, j, y);
    FinalTypeIsLowest(steps, types, def, y);
    NeverLow(steps, types, def, y, low, FinalType(steps, types, def, y));
    LowIsWanted(ranges, types, def, y, k, FinalType(steps, types, def, y));
  }

  lemma LowIsWanted(ranges: seq<Range>, types: seq<MemType>, def: MemType, y: nat, k: nat, t: MemType)
    requires |types| == |ranges| && k < |ranges| && InRange(ranges[k], y)
    requires forall i :: 0 <= i < |types| ==> types[k] <= types[i]
    ensures Wanted(ranges, types, def, y, t) ==> t == types[k]
  {
  }

  lemma BlockedStep(steps: seq<Step>, i: nat, j: nat)
    requires i < j < |steps| && Splits(steps[i], steps[j]) && StepOk(steps[j])
    ensures !ReachesAt(steps, j, (steps[i].page / 512 + 1) * 512)
  {
    assert steps[..j][i] == steps[i];
    InSmallRegions(steps[..j], steps[i].page / 512);
  }

  lemma OnlyOwnStep(ranges: seq<Range>, j: nat, y: nat)
    requires RangesOk(ranges) && j < |Layout(ranges)| && InStep(Layout(ranges)[j], y)
      && !ReachesAt(Layout(ranges), j, y)
    ensures forall m :: 0 <= m < |Layout(ranges)| && ReachesAt(Layout(ranges), m, y) ==>
      Layout(ranges)[m].owner != Layout(ranges)[j].owner
  {
    forall m | 0 <= m < |Layout(ranges)| && ReachesAt(Layout(ranges), m, y)
      ensures Layout(ranges)[m].owner != Layout(ranges)[j].owner
    {
      if Layout(ranges)[m].owner == Layout(ranges)[j].owner { LayoutOnce(ranges, m, j, y); }
    }
  }

  lemma NeverLow(steps: seq<Step>, types: seq<MemType>, def: MemType, y: nat, low: MemType, t: MemType)
    requires StepsOk(steps, types) && low != def && LowestReaching(steps, types, def, y, t)
    requires forall m :: 0 <= m < |steps| && ReachesAt(steps, m, y) ==> types[steps[m].owner] != low
    ensures t != low
  {
    hide ReachesAt;
  }

  lemma NextLarge(st: Step, x: nat)
    requires st.size.Huge? && StepOk(st) && InStep(st, x) && x / 512 % 512 != 511
    ensures InStep(st, (x / 512 + 1) * 512)
  {
  }

  /** The memory types a register can hold: uncacheable, write-combining, write-through,
      write-protected and write-back. */
  predicate Legal(t: MemType) {
    t == 0 || t == 1 || t == 4 || t == 5 || t == 6
  }

  predicate AllLegal(types: seq<MemType>, def: MemType) {
    forall k :: 0 <= k < |types| ==> Legal(types[k]) && types[k] != def
  }

  /** Two legal types other than the default, the lower one first. */
  function LowType(def: MemType): (t: MemType) {
    if def == 0 then 1 else 0
  }

  function HighType(def: MemType): (t: MemType) {
    if def == 4 then 5 else 4
  }

  /** A layout that is not clean gives some page above the first 2 MiB a wrong type for some legal
      types of the ranges. */
  lemma UncleanIsWrongSomewhere(ranges: seq<Range>, def: MemType) returns (types: seq<MemType>, y: nat)
    requires RangesOk(ranges) && !Clean(Layout(ranges))
    ensures |types| == |ranges| && AllLegal(types, def) && 512 <= y < PAGES
    ensures StepsOk(Layout(ranges), types) && !Wanted(ranges, types, def, y, FinalType(Layout(ranges), types, def, y))
  {
    hide FinalType, Wanted, Layout, RangesOk;
    LayoutSteps(ranges);
    var i, j :| 0 <= i < j < |Layout(ranges)| && Splits(Layout(ranges)[i], Layout(ranges)[j])
      && Layout(ranges)[i].page / 512 % 512 != 511;
    hide Clean, Splits, StepOk;
    UncleanIsWrong(ranges, def, i, j, LowType(def), HighType(def));
    types := Exposing(|ranges|, Layout(ranges)[j].owner, LowType(def), HighType(def));
    y := (Layout(ranges)[i].page / 512 + 1) * 512;
  }

  /** Every page gets the type its ranges ask for, whatever legal types (other than the default)
      the ranges carry, exactly when the layout is clean. */
  lemma RightForAllTypesIffClean(ranges: seq<Range>, def: MemType)
    requires RangesOk(ranges)
    ensures RightForAllTypes(ranges, def) <==> Clean(Layout(ranges))
  {
    LayoutSteps(ranges);
    if Clean(Layout(ranges)) {
      forall types: seq<MemType>, y | |types| == |ranges| && AllLegal(types, def) && 0 <= y < PAGES
        ensures Wanted(ranges, types, def, y, FinalType(Layout(ranges), types, def, y))
      {
        CleanIsRight(ranges, types, def, y);
      }
    } else {
      var types, y := UncleanIsWrongSomewhere(ranges, def);
    }
  }

  ghost predicate RightForAllTypes(ranges: seq<Range>, def: MemType)
    requires RangesOk(ranges)
  {
    LayoutSteps(ranges);
    forall types: seq<MemType>, y :: |types| == |ranges| && AllLegal(types, def) && 0 <= y < PAGES ==>
      Wanted(ranges, types, def, y, FinalType(Layout(ranges), types, def, y))
  }

  /** A single page followed by the gigabyte around it is such a layout: page 512 keeps the default. */
  lemma PageThenGigabyteIsUnclean(types: seq<MemType>, def: MemType)
    requires |types| == 2
    ensures var steps := Layout([Range(0, 1), Range(0, 262144)]);
      !Clean(steps) && StepsOk(steps, types) && FinalType(steps, types, def, 512) == def
  {
    hide FinalType, Layout, ReachesAt, Tiles;
    PageThenGigabyte();
    var steps := [Step(0, Small, 0), Step(0, Huge, 1)];
    assert Splits(steps[0], steps[1]);
    BlockedStep(steps, 0, 1);
    OutOfStep(steps, 0, 512);
    FinalTypeIsLowest(steps, types, def, 512);
  }

  lemma OutOfStep(steps: seq<Step>, j: nat, y: nat)
    requires j < |steps| && !InStep(steps[j], y)
    ensures !ReachesAt(steps, j, y)
  {
  }

  lemma PageThenGigabyte()
    ensures Layout([Range(0, 1), Range(0, 262144)]) == [Step(0, Small, 0), Step(0, Huge, 1)]
  {
    var ranges := [Range(0, 1), Range(0, 262144)];
    assert ranges[..1] == [Range(0, 1)] && ranges[..1][..0] == [];
    assert Tiles(0, 1, 0) == [Step(0, Small, 0)];
    assert Tiles(0, 262144, 1) == [Step(0, Huge, 1)];
    assert Layout(ranges[..1]) == [Step(0, Small, 0)];
  }
}
