/**
  What a reassignment comes to. Which tables it makes, and in what order it hands their pages to
  NoirVisor, follows from the described regions and the next table number alone; from that list
  follow when the reassignment succeeds and what every page means afterwards, success or not.
*/
module OwnershipOutcome {
  import opened Descriptors
  import opened IdentityMap
  import opened Ownership

  // ---- The tables it makes ----

  /** The described regions, with the number of each PTE table, and the next table's number. */
  datatype Layout = Layout(huge: set<nat>, large: map<nat, nat>, used: nat)

  ghost function LayoutOf(s: Slat): (d: Layout) {
    Layout(s.pde.Keys, map q | q in s.pte :: s.pte[q].phys, s.used)
  }

  ghost function Room(d: Layout): (n: nat) {
    Gap(d.huge, d.large.Keys)
  }

  ghost predicate Extends(d: Layout, e: Layout) {
    && d.huge <= e.huge && d.used <= e.used
    && (forall q :: q in d.large ==> q in e.large && e.large[q] == d.large[q])
    && (forall q :: q in e.large && q !in d.large ==> d.used <= e.large[q] < e.used)
  }

  lemma RoomShrinks(d: Layout, e: Layout)
    requires Extends(d, e)
    ensures Room(e) <= Room(d)
    ensures forall r :: r < HUGES && r in e.huge && r !in d.huge ==> Room(e) < Room(d)
    ensures forall q :: q < LARGES && q in e.large && q !in d.large ==> Room(e) < Room(d)
  {
    GapShrinks(d.huge, d.large.Keys, e.huge, e.large.Keys);
    hide Gap;
  }

  lemma ExtendsTrans(d: Layout, e: Layout, k: Layout)
    requires Extends(d, e) && Extends(e, k)
    ensures Extends(d, k) && forall r :: r in e.huge ==> r in k.huge
  {
  }

  lemma ExtendsSelf(d: Layout)
    ensures Extends(d, d)
  {
  }

  /** A PTE table for region q, unless it has one. */
  ghost function WithPtes(d: Layout, q: nat): (e: Layout)
    ensures Extends(d, e) && q in e.large
  {
    if q in d.large then d else d.(large := d.large[q := d.used], used := d.used + 1)
  }

  /** The pages handed over for the PDE table of page p, if that is missing. */
  ghost function TablesUpper(f: Frames, d: Layout, p: nat): (r: (Layout, seq<nat>))
    requires p < PAGES
    ensures Extends(d, r.0) && p / 512 / 512 in r.0.huge
    decreases Room(d), 0
  {
    if p / 512 / 512 in d.huge then (d, []) else
    var e := d.(huge := d.huge + {p / 512 / 512}, used := d.used + 1);
    RoomShrinks(d, e);
    var (k, ts) := TablesFor(f, e, f(d.used));
    (k, ts + [f(d.used)])
  }

  /** For its PTE table, missing in d; it is made only if it is still missing by now, in e, but
      handed over either way. */
  ghost function TablesLower(f: Frames, d: Layout, e: Layout, p: nat): (r: (Layout, seq<nat>))
    requires p < PAGES && Extends(d, e) && p / 512 !in d.large
    ensures Extends(e, r.0) && p / 512 in r.0.large
    decreases Room(d), 0
  {
    hide Extends, WithPtes;
    var k := WithPtes(e, p / 512);
    ExtendsTrans(d, e, k);
    RoomShrinks(d, k);
    var (l, ts) := TablesFor(f, k, f(k.large[p / 512]));
    (l, ts + [f(k.large[p / 512])])
  }

  ghost function TablesFor(f: Frames, d: Layout, p: nat): (r: (Layout, seq<nat>))
    requires p < PAGES
    ensures Extends(d, r.0) && p / 512 / 512 in r.0.huge && p / 512 in r.0.large
    decreases Room(d), 1
  {
    var (e, ts) := TablesUpper(f, d, p);
    if p / 512 in d.large then (e, ts) else
    hide Extends;
    var (k, us) := TablesLower(f, d, e, p);
    ExtendsTrans(d, e, k);
    (k, ts + us)
  }

  /** For the first n listed pages. */
  ghost function Tables(f: Frames, d: Layout, hpas: seq<nat>, n: nat): (r: (Layout, seq<nat>))
    requires n <= |hpas| && PagesOk(hpas)
    ensures Extends(d, r.0)
  {
    hide Extends;
    ExtendsSelf(d);
    if n == 0 then (d, []) else
    var (e, ts) := Tables(f, d, hpas, n - 1);
    var (k, us) := TablesFor(f, e, hpas[n - 1]);
    ExtendsTrans(d, e, k);
    (k, ts + us)
  }

  // ---- Handing pages over one by one ----

  /** Page p can be given to NoirVisor. */
  predicate Takeable(rmt: map<nat, Rme>, p: nat) {
    p in rmt && rmt[p].owner != NoirVisor
  }

  /** The reverse mapping once NoirVisor has the pages in ts. */
  function Given(rmt: map<nat, Rme>, ts: seq<nat>): (t: map<nat, Rme>) {
    map p | p in rmt :: if p in ts then Rme(0, true, NoirVisor, p) else rmt[p]
  }

  /** How many pages of ts can be given one after the other before one is refused. */
  function Taken(rmt: map<nat, Rme>, ts: seq<nat>): (n: nat)
    ensures n <= |ts|
  {
    if ts == [] then 0 else
    var m := Taken(rmt, ts[..|ts| - 1]);
    if m == |ts| - 1 && Takeable(Given(rmt, ts[..m]), ts[m]) then |ts| else m
  }

  predicate NoRepeat(ts: seq<nat>) {
    forall i, j :: 0 <= i < j < |ts| ==> ts[i] != ts[j]
  }

  /** None is refused exactly when they are all different and can all be given from the start. */
  lemma {:induction false} TakenAllIff(rmt: map<nat, Rme>, ts: seq<nat>)
    ensures Taken(rmt, ts) == |ts| <==> NoRepeat(ts) && forall t :: t in ts ==> Takeable(rmt, t)
  {
    if ts != [] {
      var us, t := ts[..|ts| - 1], ts[|ts| - 1];
      assert ts == us + [t];
      hide Taken, NoRepeat, Takeable;
      TakenAllIff(rmt, us);
      TakenStep(rmt, us, t);
      NoRepeatStep(us, t);
      TakeableThen(rmt, us, t);
      assert (forall x :: x in ts ==> Takeable(rmt, x)) <==>
        (forall x :: x in us ==> Takeable(rmt, x)) && Takeable(rmt, t);
    }
  }

  lemma TakeableThen(rmt: map<nat, Rme>, ts: seq<nat>, t: nat)
    ensures Takeable(Given(rmt, ts), t) <==> Takeable(rmt, t) && t !in ts
  {
  }

  lemma NoRepeatStep(us: seq<nat>, t: nat)
    ensures NoRepeat(us + [t]) <==> NoRepeat(us) && t !in us
  {
    var ts := us + [t];
    assert forall i :: 0 <= i < |us| ==> ts[i] == us[i];
    if t in us {
      var i :| 0 <= i < |us| && us[i] == t;
      assert ts[i] == ts[|us|];
    }
    if NoRepeat(ts) {
      assert forall i, j :: 0 <= i < j < |us| ==> ts[i] != ts[j];
    }
  }

  lemma GivenTwice(rmt: map<nat, Rme>, ts: seq<nat>, us: seq<nat>)
    ensures Given(Given(rmt, ts), us) == Given(rmt, ts + us)
  {
    var a, b := Given(Given(rmt, ts), us), Given(rmt, ts + us);
    assert a.Keys == b.Keys == rmt.Keys;
    assert a == b;
  }

  lemma TakenStep(rmt: map<nat, Rme>, ts: seq<nat>, t: nat)
    ensures Taken(rmt, []) == 0
    ensures Taken(rmt, ts + [t]) ==
      if Taken(rmt, ts) == |ts| && Takeable(Given(rmt, ts), t) then |ts| + 1 else Taken(rmt, ts)
  {
    hide Given, Takeable;
    assert (ts + [t])[..|ts|] == ts;
  }

  lemma {:induction false} TakenConcat(rmt: map<nat, Rme>, ts: seq<nat>, us: seq<nat>)
    ensures Taken(rmt, ts + us) == if Taken(rmt, ts) < |ts| then Taken(rmt, ts) else |ts| + Taken(Given(rmt, ts), us)
  {
    hide Taken, Given, Takeable;
    if us == [] {
      assert ts + us == ts;
      TakenStep(Given(rmt, ts), us, 0);
    } else {
      var vs, t := us[..|us| - 1], us[|us| - 1];
      TakenConcat(rmt, ts, vs);
      TakenStep(rmt, ts + vs, t);
      TakenStep(Given(rmt, ts), vs, t);
      GivenTwice(rmt, ts, vs);
      assert us == vs + [t] && ts + us == ts + vs + [t];
    }
  }

  /** g is h with the pages in ts handed to NoirVisor: their entries and rights say so, and
      nothing else changed. */
  ghost predicate Handed(h: Host, g: Host, ts: seq<nat>)
    requires Inv(h.slat)
  {
    && Inv(g.slat) && SameAbove(h.slat, g.slat) && g.rmt == Given(h.rmt, ts)
    && forall p :: 0 <= p < PAGES ==>
         View(g.slat, p) == if p in ts then Ruled(h.slat, p, NoirVisor) else View(h.slat, p)
  }

  lemma HandedThen(h: Host, g: Host, k: Host, ts: seq<nat>, us: seq<nat>)
    requires Inv(h.slat) && Handed(h, g, ts) && Inv(g.slat) && Handed(g, k, us)
    ensures Handed(h, k, ts + us)
  {
    hide Inv, View, Above, Ruled, Given;
    GivenTwice(h.rmt, ts, us);
    forall p | 0 <= p < PAGES
      ensures View(k.slat, p) == if p in ts + us then Ruled(h.slat, p, NoirVisor) else View(h.slat, p)
    {
      RuledAgain(h.slat, g.slat, p, NoirVisor, NoirVisor);
    }
  }

  /** A stage that is to hand over ts does so up to the first refusal, and succeeds, with layout
      d, if there is none. */
  ghost predicate Outcome(h: Host, g: Host, ok: bool, d: Layout, ts: seq<nat>)
    requires Inv(h.slat)
  {
    && (ok <==> Taken(h.rmt, ts) == |ts|)
    && Handed(h, g, ts[..Taken(h.rmt, ts)])
    && (ok ==> LayoutOf(g.slat) == d)
  }

  lemma OutcomeThen(h: Host, g: Host, k: Host, ok: bool, d: Layout, e: Layout, ts: seq<nat>, us: seq<nat>)
    requires Inv(h.slat) && Outcome(h, g, true, d, ts) && Inv(g.slat) && Outcome(g, k, ok, e, us)
    ensures Outcome(h, k, ok, e, ts + us)
  {
    hide Inv, View, Above, Ruled, Handed, Taken, LayoutOf;
    var n := |ts|;
    assert ts[..n] == ts;
    assert g.rmt == Given(h.rmt, ts) by { HandedRmt(h, g, ts); }
    TakenConcat(h.rmt, ts, us);
    HandedThen(h, g, k, ts, us[..Taken(g.rmt, us)]);
    assert (ts + us)[..n + Taken(g.rmt, us)] == ts + us[..Taken(g.rmt, us)];
  }

  lemma HandedRmt(h: Host, g: Host, ts: seq<nat>)
    requires Inv(h.slat) && Handed(h, g, ts)
    ensures Inv(g.slat) && g.rmt == Given(h.rmt, ts)
  {
  }

  /** After a refusal nothing more is handed over. */
  lemma OutcomeStays(h: Host, g: Host, d: Layout, e: Layout, ts: seq<nat>, us: seq<nat>)
    requires Inv(h.slat) && Outcome(h, g, false, d, ts)
    ensures Outcome(h, g, false, e, ts + us)
  {
    hide Inv, Handed, Taken, LayoutOf;
    TakenConcat(h.rmt, ts, us);
    assert (ts + us)[..Taken(h.rmt, ts)] == ts[..Taken(h.rmt, ts)];
  }

  lemma OutcomeInv(h: Host, g: Host, ok: bool, d: Layout, ts: seq<nat>)
    requires Inv(h.slat) && Outcome(h, g, ok, d, ts)
    ensures Inv(g.slat)
  {
  }

  lemma NothingHanded(h: Host, s: Slat)
    requires Inv(h.slat) && SameMeaning(h.slat, s) && SameAbove(h.slat, s)
    ensures Outcome(h, h.(slat := s), true, LayoutOf(s), [])
  {
    hide Inv, View, Above, Open, Resolved, LayoutOf;
    assert Given(h.rmt, []) == h.rmt;
  }

  // ---- The recursion follows the list ----

  lemma HugeLayout(s: Slat, r: nat)
    requires Shape(s) && r < HUGES && r !in s.pde
    ensures var t, d := SplitPdpte(s, r, false, true), LayoutOf(s);
      LayoutOf(t) == d.(huge := d.huge + {r}, used := d.used + 1) && t.pde[r].phys == d.used
  {
    hide TabsOk;
  }

  lemma LargeLayout(s: Slat, q: nat)
    requires Shape(s) && q < LARGES && q / 512 in s.pde
    ensures var t := SplitPde(s, q, false, true);
      LayoutOf(t) == WithPtes(LayoutOf(s), q) && t.pte[q].phys == LayoutOf(t).large[q]
  {
    hide TabsOk;
  }

  lemma RemapPageLayout(s: Slat, h: nat, o: Owner)
    requires Shape(s) && h < PAGES && h / 512 in s.pte
    ensures LayoutOf(RemapPage(s, h, o)) == LayoutOf(s)
  {
    hide TabsOk;
  }

  lemma {:induction false} RemappedLayout(s: Slat, rmt: map<nat, Rme>, hpas: seq<nat>, n: nat)
    requires Shape(s) && n <= |hpas| && PagesOk(hpas)
    requires Described(s, hpas, |hpas|) && forall i :: 0 <= i < |hpas| ==> hpas[i] in rmt
    ensures LayoutOf(Remapped(s, rmt, hpas, n)) == LayoutOf(s)
  {
    hide TabsOk, RemapPage, LayoutOf;
    if n != 0 {
      RemappedLayout(s, rmt, hpas, n - 1);
      RemapPageLayout(Remapped(s, rmt, hpas, n - 1), hpas[n - 1], rmt[hpas[n - 1]].owner);
    }
  }

  lemma GivenOne(rmt: map<nat, Rme>, a: nat)
    requires Takeable(rmt, a)
    ensures AllAllowed(rmt, TableRequest(a)) && Configured(rmt, TableRequest(a), 1) == Given(rmt, [a])
  {
    var q := TableRequest(a);
    assert q.hpas[0] == a && q.gpas[0] == a;
    assert Configured(rmt, q, 1) == rmt[a := Rme(0, true, NoirVisor, a)];
  }

  /** Giving one described page. */
  lemma GiveOutcome(h: Host, a: nat)
    requires Inv(h.slat) && a < PAGES && Described(h.slat, [a], 1)
    ensures AllAllowed(h.rmt, TableRequest(a)) <==> Takeable(h.rmt, a)
    ensures if Takeable(h.rmt, a) then Outcome(h, Assigned(h, TableRequest(a)), true, LayoutOf(h.slat), [a])
            else Outcome(h, h, false, LayoutOf(h.slat), [a])
  {
    hide Linked, Pristine, View, Above, TabsOk, Remapped, Ruled, LayoutOf, Configured;
    var q := TableRequest(a);
    assert q.hpas[0] == a;
    assert Given(h.rmt, []) == h.rmt;
    assert [a][..0] == [] && [a][..1] == [a];
    assert Taken(h.rmt, []) == 0;
    if Takeable(h.rmt, a) {
      GivenOne(h.rmt, a);
      var rmt := Configured(h.rmt, q, 1);
      RemappedView(h.slat, rmt, [a], 1);
      RemappedLayout(h.slat, rmt, [a], 1);
    }
  }

  lemma NothingYet(h: Host)
    requires Inv(h.slat)
    ensures Outcome(h, h, true, LayoutOf(h.slat), [])
  {
    hide Linked, Pristine, View, Above, TabsOk, LayoutOf;
    assert Given(h.rmt, []) == h.rmt;
  }

  lemma SplitHugeOutcome(h: Host, r: nat)
    requires Inv(h.slat) && r < HUGES
    ensures var s := SplitPdpte(h.slat, r, false, true);
      Inv(s) && Outcome(h, h.(slat := s), true, LayoutOf(s), [])
  {
    hide Linked, Pristine, Open, View, Above, TabsOk, Outcome, SplitPdpte, LayoutOf;
    SplitPdpteKeeps(h.slat, r, false, true);
    SplitPdpteAbove(h.slat, r, false, true);
    NothingHanded(h, SplitPdpte(h.slat, r, false, true));
  }

  lemma SplitLargeOutcome(h: Host, q: nat)
    requires Inv(h.slat) && q < LARGES
    ensures var s := SplitPde(h.slat, q, false, true);
      Inv(s) && Outcome(h, h.(slat := s), true, LayoutOf(s), [])
  {
    hide Linked, Pristine, Open, View, Above, TabsOk, Outcome, SplitPde, LayoutOf;
    SplitPdeKeeps(h.slat, q, false, true);
    SplitPdeAbove(h.slat, q, false, true);
    NothingHanded(h, SplitPde(h.slat, q, false, true));
  }

  lemma UpperSteps(f: Frames, h: Host, p: nat)
    requires Shape(h.slat) && p < PAGES && p / 512 / 512 !in h.slat.pde
    ensures var s, d := SplitPdpte(h.slat, p / 512 / 512, false, true), LayoutOf(h.slat);
      && Undescribed(s) < Undescribed(h.slat)
      && DescribeUpper(f, h, p) == Reassign(f, h.(slat := s), TableRequest(f(d.used)))
      && TablesUpper(f, d, p) == (TablesFor(f, LayoutOf(s), f(d.used)).0,
        TablesFor(f, LayoutOf(s), f(d.used)).1 + [f(d.used)])
  {
    hide TabsOk, Reassign, TablesFor, SplitPdpte, Gap;
    HugeLayout(h.slat, p / 512 / 512);
    HugeGrows(h.slat, p / 512 / 512);
    UndescribedShrinks(h.slat, SplitPdpte(h.slat, p / 512 / 512, false, true));
  }

  lemma UpperOutcome(f: Frames, h: Host, p: nat)
    requires Inv(h.slat) && p < PAGES
    ensures var (g, ok) := DescribeUpper(f, h, p);
      var (d, ts) := TablesUpper(f, LayoutOf(h.slat), p);
      Outcome(h, g, ok, d, ts)
    decreases Undescribed(h.slat), 0
  {
    hide Linked, Pristine, Open, View, Above, TabsOk, Outcome, Reassign, SplitPdpte, TablesFor, Gap;
    if p / 512 / 512 in h.slat.pde {
      NothingYet(h);
    } else {
      SplitHugeOutcome(h, p / 512 / 512);
      UpperSteps(f, h, p);
      NewTableOutcome(f, h, SplitPdpte(h.slat, p / 512 / 512, false, true), f(h.slat.used));
    }
  }

  lemma LowerSteps(f: Frames, h: Host, g: Host, p: nat)
    requires Shape(h.slat) && Shape(g.slat) && Grows(h.slat, g.slat) && p < PAGES
    requires p / 512 !in h.slat.pte && p / 512 / 512 in g.slat.pde
    ensures var s := SplitPde(g.slat, p / 512, false, true);
      && Undescribed(s) < Undescribed(h.slat)
      && LayoutOf(s) == WithPtes(LayoutOf(g.slat), p / 512)
      && DescribeLower(f, h, g, p) == Reassign(f, g.(slat := s), TableRequest(f(LayoutOf(s).large[p / 512])))
  {
    hide TabsOk, Reassign, SplitPde, Gap;
    LargeLayout(g.slat, p / 512);
    LargeGrows(g.slat, p / 512);
    UndescribedShrinks(h.slat, SplitPde(g.slat, p / 512, false, true));
  }

  /** The PTE table that was missing in h, handed over in g. */
  lemma LowerOutcome(f: Frames, h: Host, g: Host, p: nat)
    requires Inv(h.slat) && Inv(g.slat) && Grows(h.slat, g.slat) && p < PAGES
    requires p / 512 !in h.slat.pte && p / 512 / 512 in g.slat.pde && Extends(LayoutOf(h.slat), LayoutOf(g.slat))
    ensures var (k, ok) := DescribeLower(f, h, g, p);
      var (d, ts) := TablesLower(f, LayoutOf(h.slat), LayoutOf(g.slat), p);
      Outcome(g, k, ok, d, ts)
    decreases Undescribed(h.slat), 0
  {
    hide Linked, Pristine, View, Above, TabsOk, Outcome, Reassign, DescribeLower, SplitPde, TablesFor, Extends,
      WithPtes, Gap;
    SplitLargeOutcome(g, p / 512);
    LowerSteps(f, h, g, p);
    var s := SplitPde(g.slat, p / 512, false, true);
    NewTableOutcome(f, g, s, f(LayoutOf(s).large[p / 512]));
  }

  /** Giving away a table just made. */
  lemma NewTableOutcome(f: Frames, h: Host, s: Slat, a: nat)
    requires Inv(h.slat) && Inv(s) && a < PAGES && Outcome(h, h.(slat := s), true, LayoutOf(s), [])
    ensures var (g, ok) := Reassign(f, h.(slat := s), TableRequest(a));
      var (d, ts) := TablesFor(f, LayoutOf(s), a);
      Outcome(h, g, ok, d, ts + [a])
    decreases Undescribed(s), 3
  {
    hide Linked, Pristine, View, Above, TabsOk, Outcome, Reassign, TablesFor;
    TableOutcome(f, h.(slat := s), a);
    var (d, ts) := TablesFor(f, LayoutOf(s), a);
    var (g, ok) := Reassign(f, h.(slat := s), TableRequest(a));
    OutcomeThen(h, h.(slat := s), g, ok, LayoutOf(s), d, [], ts + [a]);
    assert [] + (ts + [a]) == ts + [a];
  }

  /** Describing a page and then giving it away, as for every new table. */
  lemma TableOutcome(f: Frames, h: Host, a: nat)
    requires Inv(h.slat) && a < PAGES
    ensures var (g, ok) := Reassign(f, h, TableRequest(a));
      var (d, ts) := TablesFor(f, LayoutOf(h.slat), a);
      Outcome(h, g, ok, d, ts + [a])
    decreases Undescribed(h.slat), 2
  {
    hide Linked, Pristine, View, Above, TabsOk, Outcome, Reassign, DescribePages, DescribePage, TablesFor, Assigned;
    var q := TableRequest(a);
    ReassignSteps(f, h, q);
    DescribeSteps(f, h, q.hpas, 0);
    DescribeSteps(f, h, q.hpas, 1);
    PageOutcome(f, h, a);
    var (g, ok) := DescribePage(f, h, a);
    var (d, ts) := TablesFor(f, LayoutOf(h.slat), a);
    OutcomeInv(h, g, ok, d, ts);
    if ok {
      GiveOutcome(g, a);
      OutcomeLayout(h, g, d, ts);
      if Takeable(g.rmt, a) {
        OutcomeThen(h, g, Assigned(g, q), true, d, d, ts, [a]);
      } else {
        OutcomeThen(h, g, g, false, d, d, ts, [a]);
      }
    } else {
      OutcomeStays(h, g, d, d, ts, [a]);
    }
  }

  lemma OutcomeLayout(h: Host, g: Host, d: Layout, ts: seq<nat>)
    requires Inv(h.slat) && Outcome(h, g, true, d, ts)
    ensures LayoutOf(g.slat) == d
  {
  }

  lemma PageOutcome(f: Frames, h: Host, p: nat)
    requires Inv(h.slat) && p < PAGES
    ensures var (g, ok) := DescribePage(f, h, p);
      var (d, ts) := TablesFor(f, LayoutOf(h.slat), p);
      Outcome(h, g, ok, d, ts)
    decreases Undescribed(h.slat), 1
  {
    hide Linked, Pristine, View, Above, TabsOk, Outcome, DescribeUpper, DescribeLower, TablesUpper, TablesLower,
      Extends;
    UpperOutcome(f, h, p);
    var (g, ok) := DescribeUpper(f, h, p);
    var (e, ts) := TablesUpper(f, LayoutOf(h.slat), p);
    OutcomeInv(h, g, ok, e, ts);
    if p / 512 !in h.slat.pte {
      var (d, us) := TablesLower(f, LayoutOf(h.slat), e, p);
      if ok {
        OutcomeLayout(h, g, e, ts);
        LowerOutcome(f, h, g, p);
        var (k, done) := DescribeLower(f, h, g, p);
        OutcomeThen(h, g, k, done, e, d, ts, us);
      } else {
        OutcomeStays(h, g, e, d, ts, us);
      }
    }
  }

  lemma {:induction false} PagesOutcome(f: Frames, h: Host, hpas: seq<nat>, n: nat)
    requires Inv(h.slat) && n <= |hpas| && PagesOk(hpas)
    ensures var (g, ok) := DescribePages(f, h, hpas, n);
      var (d, ts) := Tables(f, LayoutOf(h.slat), hpas, n);
      Outcome(h, g, ok, d, ts)
  {
    hide Linked, Pristine, View, Above, TabsOk, Outcome, DescribePages, DescribePage, TablesFor, Extends;
    DescribeSteps(f, h, hpas, n);
    if n == 0 {
      NothingYet(h);
    } else {
      PagesOutcome(f, h, hpas, n - 1);
      var (g, ok) := DescribePages(f, h, hpas, n - 1);
      var (e, ts) := Tables(f, LayoutOf(h.slat), hpas, n - 1);
      var (d, us) := TablesFor(f, e, hpas[n - 1]);
      OutcomeInv(h, g, ok, e, ts);
      if ok {
        OutcomeLayout(h, g, e, ts);
        PageOutcome(f, g, hpas[n - 1]);
        var (k, done) := DescribePage(f, g, hpas[n - 1]);
        OutcomeThen(h, g, k, done, e, d, ts, us);
      } else {
        OutcomeStays(h, g, e, d, ts, us);
      }
    }
  }

  // ---- Which pages are handed over ----

  /** Page x holds a table with a number from lo up to, not including, hi. */
  ghost predicate NewTable(f: Frames, lo: nat, hi: nat, x: nat) {
    exists n: nat :: lo <= n < hi && f(n) == x
  }

  ghost predicate Only(f: Frames, lo: nat, hi: nat, ts: seq<nat>) {
    forall x :: x in ts ==> NewTable(f, lo, hi, x)
  }

  ghost predicate Covers(f: Frames, lo: nat, hi: nat, ts: seq<nat>) {
    forall n: nat :: lo <= n < hi ==> f(n) in ts
  }

  /** The pages in ts are those of the tables numbered from lo up to hi. */
  ghost predicate Exactly(f: Frames, lo: nat, hi: nat, ts: seq<nat>) {
    Only(f, lo, hi, ts) && Covers(f, lo, hi, ts)
  }

  lemma OnlyWiden(f: Frames, lo: nat, hi: nat, lo': nat, hi': nat, ts: seq<nat>)
    requires lo' <= lo && hi <= hi' && Only(f, lo, hi, ts)
    ensures Only(f, lo', hi', ts)
  {
    forall x | x in ts ensures NewTable(f, lo', hi', x) {
      assert NewTable(f, lo, hi, x);
    }
  }

  lemma ExactlyConcat(f: Frames, lo: nat, mid: nat, hi: nat, ts: seq<nat>, us: seq<nat>)
    requires lo <= mid <= hi && Exactly(f, lo, mid, ts) && Only(f, lo, hi, us) && Covers(f, mid, hi, us)
    ensures Exactly(f, lo, hi, ts + us)
  {
    OnlyWiden(f, lo, mid, lo, hi, ts);
    hide NewTable;
  }

  /** One more table, numbered a, in front of those from mid on; m is mid, or a if that is the
      number before. */
  lemma OneMore(f: Frames, lo: nat, m: nat, mid: nat, hi: nat, a: nat, ts: seq<nat>)
    requires lo <= a < hi && lo <= mid <= hi && Exactly(f, mid, hi, ts)
    requires m == mid || (m == a && mid == a + 1)
    ensures Only(f, lo, hi, ts + [f(a)]) && Covers(f, m, hi, ts + [f(a)])
  {
    hide NewTable;
    forall x | x in ts + [f(a)] ensures NewTable(f, lo, hi, x) {
      TableInRange(f, lo, hi, a);
      OnlyWiden(f, mid, hi, lo, hi, ts);
    }
    forall n: nat | m <= n < hi ensures f(n) in ts + [f(a)] {
      assert n < mid ==> n == a;
    }
  }

  lemma TableInRange(f: Frames, lo: nat, hi: nat, n: nat)
    requires lo <= n < hi
    ensures NewTable(f, lo, hi, f(n))
  {
  }

  lemma ExtendsUsed(d: Layout, e: Layout)
    requires Extends(d, e)
    ensures d.used <= e.used
  {
  }

  lemma HugeRoom(d: Layout, r: nat)
    requires r < HUGES && r !in d.huge
    ensures Room(d.(huge := d.huge + {r}, used := d.used + 1)) < Room(d)
  {
    RoomShrinks(d, d.(huge := d.huge + {r}, used := d.used + 1));
  }

  lemma PtesRoom(d: Layout, e: Layout, q: nat)
    requires Extends(d, e) && q < LARGES && q !in d.large
    ensures var l := WithPtes(e, q);
      && Room(l) < Room(d) && d.used <= l.large[q] < l.used
      && (e.used == l.used || (e.used == l.large[q] && l.used == l.large[q] + 1))
  {
    var l := WithPtes(e, q);
    ExtendsTrans(d, e, l);
    RoomShrinks(d, l);
    hide Room;
  }

  lemma UpperExactly(f: Frames, d: Layout, p: nat)
    requires p < PAGES
    ensures var (e, ts) := TablesUpper(f, d, p); Exactly(f, d.used, e.used, ts)
    decreases Room(d), 0
  {
    hide TablesFor, Extends, Room, Only, Covers;
    if p / 512 / 512 in d.huge {
      NoTables(f, d.used);
    } else {
      var e := d.(huge := d.huge + {p / 512 / 512}, used := d.used + 1);
      HugeRoom(d, p / 512 / 512);
      PageExactly(f, e, f(d.used));
      var (k, ts) := TablesFor(f, e, f(d.used));
      ExtendsUsed(e, k);
      OneMore(f, d.used, d.used, d.used + 1, k.used, d.used, ts);
    }
  }

  lemma LowerExactly(f: Frames, d: Layout, e: Layout, p: nat)
    requires p < PAGES && Extends(d, e) && p / 512 !in d.large
    ensures var (k, us) := TablesLower(f, d, e, p);
      Only(f, d.used, k.used, us) && Covers(f, e.used, k.used, us)
    decreases Room(d), 0
  {
    hide TablesFor, Extends, WithPtes, Room, Only, Covers;
    var l := WithPtes(e, p / 512);
    PtesRoom(d, e, p / 512);
    var a := l.large[p / 512];
    PageExactly(f, l, f(a));
    var (k, us) := TablesFor(f, l, f(a));
    ExtendsUsed(d, e);
    ExtendsUsed(e, l);
    ExtendsUsed(l, k);
    OneMore(f, d.used, e.used, l.used, k.used, a, us);
  }

  lemma PageExactly(f: Frames, d: Layout, p: nat)
    requires p < PAGES
    ensures var (e, ts) := TablesFor(f, d, p); Exactly(f, d.used, e.used, ts)
    decreases Room(d), 1
  {
    hide TablesUpper, TablesLower, Only, Covers, Extends, Room;
    UpperExactly(f, d, p);
    var (e, ts) := TablesUpper(f, d, p);
    if p / 512 !in d.large {
      LowerExactly(f, d, e, p);
      var (k, us) := TablesLower(f, d, e, p);
      ExtendsUsed(d, e);
      ExtendsUsed(e, k);
      ExactlyConcat(f, d.used, e.used, k.used, ts, us);
    }
  }

  /** A reassignment hands over the pages of just the tables it makes. */
  lemma {:induction false} TablesExactly(f: Frames, d: Layout, hpas: seq<nat>, n: nat)
    requires n <= |hpas| && PagesOk(hpas)
    ensures var (e, ts) := Tables(f, d, hpas, n); Exactly(f, d.used, e.used, ts)
  {
    hide TablesFor, Only, Covers, Extends;
    if n == 0 {
      NoTables(f, d.used);
    } else {
      TablesExactly(f, d, hpas, n - 1);
      var (e, ts) := Tables(f, d, hpas, n - 1);
      PageExactly(f, e, hpas[n - 1]);
      var (k, us) := TablesFor(f, e, hpas[n - 1]);
      ExtendsUsed(d, e);
      ExtendsUsed(e, k);
      OnlyWiden(f, e.used, k.used, d.used, k.used, us);
      ExactlyConcat(f, d.used, e.used, k.used, ts, us);
    }
  }

  lemma NoTables(f: Frames, lo: nat)
    ensures Exactly(f, lo, lo, [])
  {
  }

  // ---- When it succeeds, and what it leaves ----

  /** The pages of the tables that a request makes, in the order NoirVisor is to get them. */
  ghost function NewTables(f: Frames, h: Host, q: Request): (ts: seq<nat>)
    requires RequestOk(q)
  {
    Tables(f, LayoutOf(h.slat), q.hpas, |q.hpas|).1
  }

  /** A reassignment succeeds exactly when every listed page may be reassigned and the pages of the
      tables it makes are all different, not listed, and may be given to NoirVisor. */
  lemma ReassignSucceedsIff(f: Frames, h: Host, q: Request)
    requires Inv(h.slat) && RequestOk(q)
    ensures var ts := NewTables(f, h, q);
      Reassign(f, h, q).1 <==>
        AllAllowed(h.rmt, q) && NoRepeat(ts) && forall t :: t in ts ==> Takeable(h.rmt, t) && t !in q.hpas
  {
    hide Linked, Pristine, View, Above, TabsOk, DescribePages, Reassign, Assigned, Tables, Handed, NoRepeat;
    ReassignSteps(f, h, q);
    PagesOutcome(f, h, q.hpas, |q.hpas|);
    var ts := NewTables(f, h, q);
    TakenAllIff(h.rmt, ts);
    var (g, ok) := DescribePages(f, h, q.hpas, |q.hpas|);
    if ok {
      assert ts[..|ts|] == ts;
      HandedRmt(h, g, ts);
      AllowedAfter(h.rmt, ts, q);
    }
  }

  lemma AllowedAfter(rmt: map<nat, Rme>, ts: seq<nat>, q: Request)
    requires forall t :: t in ts ==> Takeable(rmt, t)
    ensures AllAllowed(Given(rmt, ts), q) <==> AllAllowed(rmt, q) && forall t :: t in ts ==> t !in q.hpas
  {
    forall i | 0 <= i < |q.hpas|
      ensures Allowed(Given(rmt, ts), q.hpas[i], q.shared, q.owner) <==>
        Allowed(rmt, q.hpas[i], q.shared, q.owner) && q.hpas[i] !in ts
    {
    }
    if AllAllowed(Given(rmt, ts), q) {
      assert forall i :: 0 <= i < |q.hpas| ==> Allowed(Given(rmt, ts), q.hpas[i], q.shared, q.owner);
    }
    if AllAllowed(rmt, q) && forall t :: t in ts ==> t !in q.hpas {
      assert forall i :: 0 <= i < |q.hpas| ==> q.hpas[i] !in ts;
    }
  }

  /** Listed pages have entries as requested, the pages in ts are NoirVisor's, no other changed. */
  ghost predicate SettledEntries(was: map<nat, Rme>, rmt: map<nat, Rme>, q: Request, ts: seq<nat>)
    requires RequestOk(q)
  {
    && rmt.Keys == was.Keys
    && forall p :: p in was ==>
         if p in q.hpas then Entered(rmt[p], q, p, |q.hpas|)
         else rmt[p] == if p in ts then Rme(0, true, NoirVisor, p) else was[p]
  }

  lemma ConfiguredSettles(was: map<nat, Rme>, q: Request, ts: seq<nat>)
    requires RequestOk(q) && AllAllowed(Given(was, ts), q)
    ensures SettledEntries(was, Configured(Given(was, ts), q, |q.hpas|), q, ts)
  {
    hide Configured, Entered;
    var given := Given(was, ts);
    ConfiguredFacts(given, q);
    var rmt := Configured(given, q, |q.hpas|);
    forall p ensures p in rmt <==> p in was {
      if p in q.hpas {
        var i :| 0 <= i < |q.hpas| && q.hpas[i] == p;
        assert Allowed(given, q.hpas[i], q.shared, q.owner);
      }
    }
  }

  lemma ConfiguredOwner(rmt: map<nat, Rme>, q: Request)
    requires RequestOk(q) && AllAllowed(rmt, q)
    ensures var t := Configured(rmt, q, |q.hpas|); forall p :: p in q.hpas ==> p in t && t[p].owner == q.owner
  {
    hide Configured;
    ConfiguredFacts(rmt, q);
  }

  /** g is h after a request went through with tables on the pages in ts: the reverse mapping and
      the rights of the listed pages are as requested, those of the tables' pages are
      NoirVisor's, and nothing else changed. */
  ghost predicate Settled(h: Host, g: Host, q: Request, ts: seq<nat>)
    requires Inv(h.slat) && RequestOk(q)
  {
    && Inv(g.slat) && SameAbove(h.slat, g.slat) && SettledEntries(h.rmt, g.rmt, q, ts)
    && forall p :: 0 <= p < PAGES ==>
         View(g.slat, p) == if p in q.hpas then Ruled(h.slat, p, q.owner)
                            else if p in ts then Ruled(h.slat, p, NoirVisor) else View(h.slat, p)
  }

  lemma AssignedSettles(h: Host, g: Host, q: Request, ts: seq<nat>)
    requires Inv(h.slat) && RequestOk(q) && Handed(h, g, ts) && Inv(g.slat)
    requires Described(g.slat, q.hpas, |q.hpas|) && AllAllowed(g.rmt, q)
    ensures Settled(h, Assigned(g, q), q, ts)
  {
    hide Linked, Pristine, View, Above, TabsOk, Remapped, Ruled, Configured, Described, AllAllowed, Entered;
    var k := Assigned(g, q);
    ConfiguredFacts(g.rmt, q);
    ConfiguredSettles(h.rmt, q, ts);
    assert forall p :: p in q.hpas ==> k.rmt[p].owner == q.owner by { ConfiguredOwner(g.rmt, q); }
    assert q.hpas[..|q.hpas|] == q.hpas;
    RemappedView(g.slat, k.rmt, q.hpas, |q.hpas|);
    hide SettledEntries;
    forall p | 0 <= p < PAGES
      ensures View(k.slat, p) == if p in q.hpas then Ruled(h.slat, p, q.owner)
                                 else if p in ts then Ruled(h.slat, p, NoirVisor) else View(h.slat, p)
    {
      RuledAgain(h.slat, g.slat, p, NoirVisor, q.owner);
    }
  }

  /** What a reassignment leaves. When it succeeds, just what was asked for; when it fails, the
      pages handed over before the first refusal stay NoirVisor's and no other page changed. */
  lemma ReassignEffect(f: Frames, h: Host, q: Request)
    requires Inv(h.slat) && RequestOk(q)
    ensures var (g, ok) := Reassign(f, h, q);
      var ts := NewTables(f, h, q);
      if ok then Settled(h, g, q, ts) else Handed(h, g, ts[..Taken(h.rmt, ts)])
  {
    hide Linked, Pristine, View, Above, TabsOk, DescribePages, Reassign, Assigned, Tables, Handed, Settled, Exactly,
      AllAllowed;
    ReassignSteps(f, h, q);
    PagesOutcome(f, h, q.hpas, |q.hpas|);
    var ts := NewTables(f, h, q);
    var (g, ok) := DescribePages(f, h, q.hpas, |q.hpas|);
    HandedRmt(h, g, ts[..Taken(h.rmt, ts)]);
    if ok && AllAllowed(g.rmt, q) {
      assert ts[..|ts|] == ts;
      AssignedSettles(h, g, q, ts);
    }
  }

  /** A reassignment that succeeds has handed over the pages of just the tables it made. */
  lemma ReassignTables(f: Frames, h: Host, q: Request)
    requires Inv(h.slat) && RequestOk(q) && Reassign(f, h, q).1
    ensures Exactly(f, h.slat.used, Reassign(f, h, q).0.slat.used, NewTables(f, h, q))
  {
    hide Linked, Pristine, TabsOk, DescribePages, Reassign, Tables, Handed, Exactly, AllAllowed, Configured;
    ReassignSteps(f, h, q);
    PagesOutcome(f, h, q.hpas, |q.hpas|);
    TablesExactly(f, LayoutOf(h.slat), q.hpas, |q.hpas|);
  }

  /** A page that follows its ownership before still does afterwards, success or not, and every
      page that gets a new owner does. */
  lemma ReassignKeepsGoverned(f: Frames, h: Host, q: Request, p: nat)
    requires Inv(h.slat) && RequestOk(q) && p < PAGES && p in h.rmt
    ensures var (g, ok) := Reassign(f, h, q);
      && Inv(g.slat) && p in g.rmt
      && (Governed(h, p) || (ok && p in q.hpas) || g.rmt[p] != h.rmt[p] ==> Governed(g, p))
  {
    hide Linked, Pristine, View, Above, TabsOk, Reassign, Tables, Ruled;
    ReassignEffect(f, h, q);
  }

  /** A page of NoirVisor's is out of reach: a request that lists it fails, and no request changes
      its entry or what it means. */
  lemma NoirVisorRefused(f: Frames, h: Host, q: Request, p: nat)
    requires Inv(h.slat) && RequestOk(q) && p < PAGES && p in h.rmt && h.rmt[p].owner == NoirVisor
    ensures var (g, ok) := Reassign(f, h, q);
      && (p in q.hpas ==> !ok)
      && Inv(g.slat) && p in g.rmt && g.rmt[p] == h.rmt[p] && View(g.slat, p) == View(h.slat, p)
  {
    hide Linked, Pristine, View, Above, TabsOk, Reassign, Tables, Ruled;
    ReassignEffect(f, h, q);
    ReassignSucceedsIff(f, h, q);
    var ts := NewTables(f, h, q);
    var n := Taken(h.rmt, ts);
    TakenPrefix(h.rmt, ts);
    TakenAllIff(h.rmt, ts[..n]);
    if p in q.hpas {
      assert !Allowed(h.rmt, p, q.shared, q.owner);
    }
  }

  lemma {:induction false} TakenPrefix(rmt: map<nat, Rme>, ts: seq<nat>)
    ensures Taken(rmt, ts[..Taken(rmt, ts)]) == Taken(rmt, ts)
  {
    var n := Taken(rmt, ts);
    if n < |ts| {
      TakenPrefix(rmt, ts[..|ts| - 1]);
      assert ts[..|ts| - 1][..n] == ts[..n];
    } else {
      assert ts[..n] == ts;
    }
  }

  // ---- The stale lookup ----

  lemma RepeatInPart(ts: seq<nat>, us: seq<nat>)
    requires NoRepeat(ts + us)
    ensures NoRepeat(ts) && NoRepeat(us)
  {
    var all := ts + us;
    assert forall i :: 0 <= i < |ts| ==> all[i] == ts[i];
    forall i, j | 0 <= i < j < |us| ensures us[i] != us[j] {
      assert all[|ts| + i] == us[i] && all[|ts| + j] == us[j];
    }
  }

  lemma RepeatInStep(f: Frames, d: Layout, hpas: seq<nat>, n: nat)
    requires 0 < n <= |hpas| && PagesOk(hpas) && NoRepeat(Tables(f, d, hpas, n).1)
    ensures NoRepeat(Tables(f, d, hpas, n - 1).1) && NoRepeat(TablesFor(f, Tables(f, d, hpas, n - 1).0, hpas[n - 1]).1)
  {
    hide TablesFor, Extends, NoRepeat;
    var (e, ts) := Tables(f, d, hpas, n - 1);
    RepeatInPart(ts, TablesFor(f, e, hpas[n - 1]).1);
  }

  lemma {:induction false} RepeatOnTheWay(f: Frames, d: Layout, hpas: seq<nat>, i: nat, n: nat)
    requires i < n <= |hpas| && PagesOk(hpas) && NoRepeat(Tables(f, d, hpas, n).1)
    ensures NoRepeat(TablesFor(f, Tables(f, d, hpas, i).0, hpas[i]).1)
    decreases n
  {
    hide Tables, TablesFor, Extends, NoRepeat;
    RepeatInStep(f, d, hpas, n);
    if i < n - 1 { RepeatOnTheWay(f, d, hpas, i, n - 1); }
  }

  lemma StaleRepeats(f: Frames, d: Layout, p: nat)
    requires p < PAGES && p / 512 !in d.large && p / 512 in TablesUpper(f, d, p).0.large
    ensures !NoRepeat(TablesFor(f, d, p).1)
  {
    hide Extends, TablesUpper, NewTable;
    var (e, ts) := TablesUpper(f, d, p);
    var (k, us) := TablesLower(f, d, e, p);
    UpperExactly(f, d, p);
    StaleTable(d, e, p / 512);
    assert us[|us| - 1] == f(e.large[p / 512]) && f(e.large[p / 512]) in ts;
    var i :| 0 <= i < |ts| && ts[i] == us[|us| - 1];
    assert (ts + us)[i] == (ts + us)[|ts| + |us| - 1];
  }

  lemma StaleTable(d: Layout, e: Layout, q: nat)
    requires Extends(d, e) && q in e.large && q !in d.large
    ensures d.used <= e.large[q] < e.used && WithPtes(e, q) == e
  {
  }

  /** A request fails, however allowed it is, when making the PDE table of some listed page and
      giving it away already makes the PTE table of that page: the lookup from before is then
      stale, and the PTE table is handed over a second time. */
  lemma StaleLookupFails(f: Frames, h: Host, q: Request, i: nat)
    requires Inv(h.slat) && RequestOk(q) && i < |q.hpas|
    requires var d := Tables(f, LayoutOf(h.slat), q.hpas, i).0;
      q.hpas[i] / 512 !in d.large && q.hpas[i] / 512 in TablesUpper(f, d, q.hpas[i]).0.large
    ensures !Reassign(f, h, q).1
  {
    hide Linked, Pristine, View, Above, TabsOk, Reassign, Tables, TablesFor, TablesUpper, Extends, AllAllowed;
    hide NoRepeat, LayoutOf;
    ReassignSucceedsIff(f, h, q);
    if Reassign(f, h, q).1 {
      StaleRepeats(f, Tables(f, LayoutOf(h.slat), q.hpas, i).0, q.hpas[i]);
      RepeatOnTheWay(f, LayoutOf(h.slat), q.hpas, i, |q.hpas|);
    }
  }

  /** A machine as built, all of whose pages the host owns. */
  ghost function AllHost(): (h: Host)
    ensures h.slat == Fresh(0) && forall p :: p in h.rmt <==> 0 <= p < PAGES
    ensures forall p :: p in h.rmt ==> h.rmt[p] == Rme(1, true, SubvertedHost, p)
  {
    Host(Fresh(0), map p: nat | p < PAGES :: Rme(1, true, SubvertedHost, p))
  }

  /** The tables made for page p when its PTE table lands in p's own 2 MiB region. */
  lemma TablesForNear(f: Frames, d: Layout, p: nat)
    requires p < PAGES && p / 512 / 512 in d.huge && p / 512 !in d.large && f(d.used) / 512 == p / 512
    ensures TablesFor(f, d, p) == (WithPtes(d, p / 512), [f(d.used)])
  {
    DescribedAlready(f, WithPtes(d, p / 512), f(d.used));
    assert [] + [f(d.used)] == [f(d.used)];
  }

  lemma DescribedAlready(f: Frames, d: Layout, p: nat)
    requires p < PAGES && p / 512 / 512 in d.huge && p / 512 in d.large
    ensures TablesFor(f, d, p) == (d, [])
  {
  }

  /** The tables made for page 0 of a fresh machine whose first two tables are on pages of the same
      2 MiB region, and whose third, if it is needed, is too. */
  lemma TablesForZero(f: Frames)
    requires f(0) / 512 == f(1) / 512 < 512 && (f(0) / 512 != 0 ==> f(2) / 512 == f(0) / 512)
    ensures TablesFor(f, Layout({}, map[], 0), 0).1 == [f(1), f(0), if f(0) / 512 == 0 then f(1) else f(2)]
  {
    hide TablesFor, TablesUpper, TablesLower, Extends;
    var d, e := Layout({}, map[], 0), Layout({0}, map[], 1);
    TablesForNear(f, e, f(0));
    var k := WithPtes(e, f(0) / 512);
    assert d.(huge := d.huge + {0 / 512 / 512}, used := d.used + 1) == e;
    UpperMade(f, d, 0);
    assert TablesUpper(f, d, 0) == (k, [f(1)] + [f(0)]);
    var l := WithPtes(k, 0);
    DescribedAlready(f, l, f(l.large[0]));
    BothMade(f, d, 0);
  }

  lemma UpperMade(f: Frames, d: Layout, p: nat)
    requires p < PAGES && p / 512 / 512 !in d.huge
    ensures var (k, ts) := TablesFor(f, d.(huge := d.huge + {p / 512 / 512}, used := d.used + 1), f(d.used));
      TablesUpper(f, d, p) == (k, ts + [f(d.used)])
  {
    hide TablesFor;
  }

  lemma BothMade(f: Frames, d: Layout, p: nat)
    requires p < PAGES && p / 512 !in d.large
    ensures var (e, ts) := TablesUpper(f, d, p);
      var k := WithPtes(e, p / 512);
      var us := TablesFor(f, k, f(k.large[p / 512])).1;
      TablesFor(f, d, p).1 == ts + (us + [f(k.large[p / 512])])
  {
    hide TablesUpper, Extends;
  }

  /** With the first two tables on pages 1 and 2, reassigning page 0 fails although the page may be
      reassigned and both pages given to NoirVisor: page 2 would be handed over twice. */
  lemma SpuriousFailure(f: Frames, q: Request)
    requires f(0) == 1 && f(1) == 2 && q == Request([0], [0], 2, false, InsecureGuest)
    ensures var h := AllHost();
      && Inv(h.slat) && AllAllowed(h.rmt, q) && NewTables(f, h, q) == [2, 1, 2]
      && (forall t :: t in NewTables(f, h, q) ==> Takeable(h.rmt, t) && t !in q.hpas)
      && !Reassign(f, h, q).1
  {
    hide AllHost, Inv, TablesFor, Tables, LayoutOf, Reassign, Extends;
    TablesForZero(f);
    ExampleTables(f, q);
    var ts := NewTables(f, AllHost(), q);
    assert ts[0] == ts[2] == 2;
  }

  /** With them in the next 2 MiB it succeeds. */
  lemma Success(f: Frames, q: Request)
    requires f(0) == 512 && f(1) == 513 && f(2) == 514 && q == Request([0], [0], 2, false, InsecureGuest)
    ensures Inv(AllHost().slat) && NewTables(f, AllHost(), q) == [513, 512, 514] && Reassign(f, AllHost(), q).1
  {
    hide AllHost, Inv, TablesFor, Tables, LayoutOf, Reassign, Extends;
    TablesForZero(f);
    ExampleTables(f, q);
  }

  lemma ExampleTables(f: Frames, q: Request)
    requires q == Request([0], [0], 2, false, InsecureGuest)
    ensures Inv(AllHost().slat) && AllAllowed(AllHost().rmt, q)
    ensures var ts := NewTables(f, AllHost(), q);
      && ts == TablesFor(f, Layout({}, map[], 0), 0).1
      && (Reassign(f, AllHost(), q).1 <==>
            NoRepeat(ts) && forall t :: t in ts ==> Takeable(AllHost().rmt, t) && t !in q.hpas)
  {
    hide AllHost, Inv, Fresh, LayoutOf, Reassign, TablesFor, Extends, Takeable, NoRepeat;
    FreshLayout();
    assert q.hpas[0] == 0;
    ReassignSucceedsIff(f, AllHost(), q);
  }

  lemma FreshLayout()
    ensures Inv(Fresh(0)) && LayoutOf(Fresh(0)) == Layout({}, map[], 0)
  {
    hide Inv;
    FreshMeaning(0);
  }
}
