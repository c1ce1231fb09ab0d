/**
  Page ownership on AMD: the reverse-mapping table, and the self-recursive reassignment that
  splits the host map until every listed page has its own entry, gives each new table to
  NoirVisor on the way, and then sets each page's rights by its new owner.
*/
module Ownership {
  import opened Descriptors
  import opened IdentityMap

  datatype Owner = SubvertedHost | NoirVisor | InsecureGuest | SecureGuest

  /** A reverse-mapping entry. */
  datatype Rme = Rme(asid: nat, shared: bool, owner: Owner, gpa: nat)

  /** The host map and the reverse mapping of physical pages. */
  datatype Host = Host(slat: Slat, rmt: map<nat, Rme>)

  /** What is asked for: each page of `hpas` becomes the guest page beside it. */
  datatype Request = Request(hpas: seq<nat>, gpas: seq<nat>, asid: nat, shared: bool, owner: Owner)

  predicate RequestOk(q: Request) {
    |q.hpas| > 0 && |q.gpas| == |q.hpas| && PagesOk(q.hpas)
  }

  predicate PagesOk(hpas: seq<nat>) {
    forall i :: 0 <= i < |hpas| ==> hpas[i] < PAGES
  }

  /** A table's own page, handed to NoirVisor. */
  function TableRequest(page: nat): (q: Request) {
    Request([page], [page], 0, true, NoirVisor)
  }

  // ---- The reverse mapping ----

  /** NoirVisor's pages are never reassigned, secure pages never between guests, and secure pages
      are never shared. */
  predicate Allowed(rmt: map<nat, Rme>, page: nat, shared: bool, owner: Owner) {
    && page in rmt
    && rmt[page].owner != NoirVisor
    && !(rmt[page].owner == SecureGuest && owner == SecureGuest)
    && !(owner == SecureGuest && shared)
  }

  predicate AllAllowed(rmt: map<nat, Rme>, q: Request) {
    forall i :: 0 <= i < |q.hpas| ==> Allowed(rmt, q.hpas[i], q.shared, q.owner)
  }

  /** The entry a request makes for page p, with one of the guest pages listed beside it. */
  predicate Entered(e: Rme, q: Request, p: nat, n: nat)
    requires n <= |q.hpas| == |q.gpas|
  {
    exists j :: 0 <= j < n && q.hpas[j] == p && e == Rme(q.asid, q.shared, q.owner, q.gpas[j])
  }

  /** The table after the first n pages of a request took their new entries. */
  function Configured(rmt: map<nat, Rme>, q: Request, n: nat): (t: map<nat, Rme>)
    requires n <= |q.hpas| == |q.gpas|
    ensures rmt.Keys <= t.Keys
    ensures forall p :: p in t && p !in q.hpas[..n] ==> p in rmt && t[p] == rmt[p]
    ensures forall i :: 0 <= i < n && q.hpas[i] in rmt ==> Entered(t[q.hpas[i]], q, q.hpas[i], n)
  {
    if n == 0 then rmt else
    assert forall p :: p in q.hpas[..n - 1] ==> p in q.hpas[..n];
    var t := Configured(rmt, q, n - 1);
    if q.hpas[n - 1] in t then t[q.hpas[n - 1] := Rme(q.asid, q.shared, q.owner, q.gpas[n - 1])] else t
  }

  // ---- Rights by ownership ----

  /** The first n pages are described at both levels. */
  ghost predicate Described(s: Slat, hpas: seq<nat>, n: nat)
    requires n <= |hpas|
  {
    forall i :: 0 <= i < n ==> hpas[i] / 512 / 512 in s.pde && hpas[i] / 512 in s.pte
  }

  /** NoirVisor's pages may be read, a secure guest's may not be touched, others are free. */
  function Owned(a: Attr, o: Owner): (b: Attr) {
    a.(read := o != SecureGuest, write := o != SecureGuest && o != NoirVisor, user := o != SecureGuest, execute := true)
  }

  /** What an owner lets the host do with a page, as far as the levels above the page allow. */
  predicate Dictates(o: Owner, above: Attr, a: Attr) {
    && a.execute == above.execute
    && match o
       case NoirVisor => a.read == above.read && !a.write && a.user == above.user
       case SecureGuest => !a.read && !a.write && !a.user
       case _ => a.read == above.read && a.write == above.write && a.user == above.user
  }

  ghost function RemapPage(s: Slat, h: nat, o: Owner): (t: Slat)
    requires Shape(s) && h < PAGES && h / 512 in s.pte
    ensures Shape(t) && t.pte.Keys == s.pte.Keys && t.pde.Keys == s.pde.Keys && t.used == s.used
  {
    var d := SplitPde(SplitPdpte(s, h / 512 / 512, true, false), h / 512, true, false);
    SetPte(d, h, Pte(At(d.pte, h).frame, Owned(At(d.pte, h).attr, o)))
  }

  /** The first n pages remapped. */
  ghost function Remapped(s: Slat, rmt: map<nat, Rme>, hpas: seq<nat>, n: nat): (t: Slat)
    requires Shape(s) && n <= |hpas| && PagesOk(hpas)
    requires Described(s, hpas, |hpas|) && forall i :: 0 <= i < |hpas| ==> hpas[i] in rmt
    ensures Shape(t) && t.pte.Keys == s.pte.Keys && t.pde.Keys == s.pde.Keys && t.used == s.used
  {
    if n == 0 then s else
    RemapPage(Remapped(s, rmt, hpas, n - 1), hpas[n - 1], rmt[hpas[n - 1]].owner)
  }

  // ---- Termination ----

  ghost function Missing(n: nat, keys: set<nat>): (m: set<nat>) {
    set x: nat | x < n && x !in keys
  }

  /** How many 1 GiB and 2 MiB regions are in neither set. */
  ghost function Gap(huge: set<nat>, large: set<nat>): (n: nat) {
    |Missing(HUGES, huge)| + |Missing(LARGES, large)|
  }

  /** How many regions have no descriptor yet. */
  ghost function Undescribed(s: Slat): (n: nat) {
    Gap(s.pde.Keys, s.pte.Keys)
  }

  ghost predicate Grows(s: Slat, t: Slat) {
    s.pde.Keys <= t.pde.Keys && s.pte.Keys <= t.pte.Keys && s.used <= t.used
  }

  lemma SubsetSize(a: set<nat>, b: set<nat>)
    requires a <= b
    ensures |a| <= |b| && (a != b ==> |a| < |b|)
  {
    var c := b - a;
    assert b == a + c && a !! c;
    if a != b {
      var x :| x in c;
    }
  }

  lemma GapShrinks(huge: set<nat>, large: set<nat>, huge': set<nat>, large': set<nat>)
    requires huge <= huge' && large <= large'
    ensures Gap(huge', large') <= Gap(huge, large)
    ensures forall r :: r < HUGES && r in huge' && r !in huge ==> Gap(huge', large') < Gap(huge, large)
    ensures forall q :: q < LARGES && q in large' && q !in large ==> Gap(huge', large') < Gap(huge, large)
  {
    SubsetSize(Missing(HUGES, huge'), Missing(HUGES, huge));
    SubsetSize(Missing(LARGES, large'), Missing(LARGES, large));
    forall r | r < HUGES && r in huge' && r !in huge ensures Gap(huge', large') < Gap(huge, large) {
      assert r in Missing(HUGES, huge) && r !in Missing(HUGES, huge');
    }
    forall q | q < LARGES && q in large' && q !in large ensures Gap(huge', large') < Gap(huge, large) {
      assert q in Missing(LARGES, large) && q !in Missing(LARGES, large');
    }
  }

  /** Describing can only lower the count, and lowers it when a region is new. */
  lemma UndescribedShrinks(s: Slat, t: Slat)
    requires Grows(s, t)
    ensures Undescribed(t) <= Undescribed(s)
    ensures forall r: nat :: r < HUGES && r in t.pde && r !in s.pde ==> Undescribed(t) < Undescribed(s)
    ensures forall q: nat :: q < LARGES && q in t.pte && q !in s.pte ==> Undescribed(t) < Undescribed(s)
  {
    GapShrinks(s.pde.Keys, s.pte.Keys, t.pde.Keys, t.pte.Keys);
    hide Gap;
  }

  lemma DescribedGrows(s: Slat, t: Slat, hpas: seq<nat>, n: nat)
    requires 0 < n <= |hpas| && Described(s, hpas, n - 1) && Grows(s, t)
    ensures hpas[n - 1] / 512 / 512 in t.pde && hpas[n - 1] / 512 in t.pte ==> Described(t, hpas, n)
  {
  }

  // ---- The reassignment ----

  /** Which physical page each allocated table occupies. */
  type Frames = f: nat -> nat | forall n :: f(n) < PAGES witness n => 0

  lemma HugeGrows(s: Slat, r: nat)
    requires Shape(s) && r < HUGES
    ensures Grows(s, SplitPdpte(s, r, false, true)) && r in SplitPdpte(s, r, false, true).pde
  {
  }

  lemma LargeGrows(s: Slat, q: nat)
    requires Shape(s) && q < LARGES
    ensures Grows(s, SplitPde(s, q, false, true)) && q in SplitPde(s, q, false, true).pte
  {
  }

  /** Stage I for one page, upper level: a missing PDE table is made and given to NoirVisor. */
  ghost function DescribeUpper(f: Frames, h: Host, p: nat): (r: (Host, bool))
    requires Shape(h.slat) && p < PAGES
    ensures Shape(r.0.slat) && Grows(h.slat, r.0.slat)
    ensures r.1 ==> p / 512 / 512 in r.0.slat.pde
    decreases Undescribed(h.slat), 0
  {
    if p / 512 / 512 in h.slat.pde then (h, true) else
    var s := SplitPdpte(h.slat, p / 512 / 512, false, true);
    HugeGrows(h.slat, p / 512 / 512);
    UndescribedShrinks(h.slat, s);
    Reassign(f, h.(slat := s), TableRequest(f(s.pde[p / 512 / 512].phys)))
  }

  /** Lower level: the PTE table that was missing when h was looked at is made and given to
      NoirVisor; g is the state by now. */
  ghost function DescribeLower(f: Frames, h: Host, g: Host, p: nat): (r: (Host, bool))
    requires Shape(h.slat) && Shape(g.slat) && Grows(h.slat, g.slat) && p < PAGES && p / 512 !in h.slat.pte
    ensures Shape(r.0.slat) && Grows(g.slat, r.0.slat)
    ensures r.1 ==> p / 512 in r.0.slat.pte
    decreases Undescribed(h.slat), 0
  {
    var t := SplitPde(g.slat, p / 512, false, true);
    LargeGrows(g.slat, p / 512);
    UndescribedShrinks(h.slat, t);
    Reassign(f, g.(slat := t), TableRequest(f(t.pte[p / 512].phys)))
  }

  /** Both levels are looked up first, so the lower lookup can be out of date once a new PDE
      table has been reassigned. */
  ghost function DescribePage(f: Frames, h: Host, p: nat): (r: (Host, bool))
    requires Shape(h.slat) && p < PAGES
    ensures Shape(r.0.slat) && Grows(h.slat, r.0.slat)
    ensures r.1 ==> p / 512 / 512 in r.0.slat.pde && p / 512 in r.0.slat.pte
    decreases Undescribed(h.slat), 1
  {
    var (g, ok) := DescribeUpper(f, h, p);
    if !ok || p / 512 in h.slat.pte then (g, ok) else DescribeLower(f, h, g, p)
  }

  /** Stage I for the first n pages. */
  ghost function DescribePages(f: Frames, h: Host, hpas: seq<nat>, n: nat): (r: (Host, bool))
    requires Shape(h.slat) && n <= |hpas| && PagesOk(hpas)
    ensures Shape(r.0.slat) && Grows(h.slat, r.0.slat)
    ensures r.1 ==> Described(r.0.slat, hpas, n)
    decreases Undescribed(h.slat), 2, n
  {
    if n == 0 then (h, true) else
    var (g, ok) := DescribePages(f, h, hpas, n - 1);
    UndescribedShrinks(h.slat, g.slat);
    if !ok then (g, false) else
    var (k, done) := DescribePage(f, g, hpas[n - 1]);
    DescribedGrows(g.slat, k.slat, hpas, n);
    (k, done)
  }

  /** The whole reassignment. It terminates because every recursive call starts with fewer
      undescribed regions, and its remap stage never meets a missing descriptor or entry. */
  ghost function Reassign(f: Frames, h: Host, q: Request): (r: (Host, bool))
    requires Shape(h.slat) && RequestOk(q)
    ensures Shape(r.0.slat) && Grows(h.slat, r.0.slat)
    ensures r.1 ==> Described(r.0.slat, q.hpas, |q.hpas|)
    decreases Undescribed(h.slat), 3
  {
    var (g, ok) := DescribePages(f, h, q.hpas, |q.hpas|);
    if !ok then (g, false) else
    if !AllAllowed(g.rmt, q) then (g, false) else
    var rmt := Configured(g.rmt, q, |q.hpas|);
    (Host(Remapped(g.slat, rmt, q.hpas, |q.hpas|), rmt), true)
  }

  // ---- The reassignment step by step ----

  ghost function Assigned(h: Host, q: Request): (g: Host)
    requires Shape(h.slat) && RequestOk(q) && Described(h.slat, q.hpas, |q.hpas|) && AllAllowed(h.rmt, q)
    ensures Shape(g.slat) && g.rmt == Configured(h.rmt, q, |q.hpas|)
  {
    var rmt := Configured(h.rmt, q, |q.hpas|);
    Host(Remapped(h.slat, rmt, q.hpas, |q.hpas|), rmt)
  }

  lemma ConfiguredFacts(rmt: map<nat, Rme>, q: Request)
    requires RequestOk(q) && AllAllowed(rmt, q)
    ensures var t := Configured(rmt, q, |q.hpas|);
      && (forall i :: 0 <= i < |q.hpas| ==> q.hpas[i] in t && Entered(t[q.hpas[i]], q, q.hpas[i], |q.hpas|))
      && (forall p :: p !in q.hpas ==> (p in t <==> p in rmt) && (p in rmt ==> t[p] == rmt[p]))
  {
    assert q.hpas[..|q.hpas|] == q.hpas;
  }

  lemma ReassignSteps(f: Frames, h: Host, q: Request)
    requires Shape(h.slat) && RequestOk(q)
    ensures var (g, ok) := DescribePages(f, h, q.hpas, |q.hpas|);
      Reassign(f, h, q) == if !ok || !AllAllowed(g.rmt, q) then (g, false) else (Assigned(g, q), true)
  {
    hide DescribePages, Remapped, Configured, AllAllowed, TabsOk;
  }

  lemma DescribeSteps(f: Frames, h: Host, hpas: seq<nat>, n: nat)
    requires Shape(h.slat) && n <= |hpas| && PagesOk(hpas)
    ensures DescribePages(f, h, hpas, n) ==
      if n == 0 then (h, true) else
      var (g, ok) := DescribePages(f, h, hpas, n - 1);
      if ok then DescribePage(f, g, hpas[n - 1]) else (g, false)
  {
    hide DescribePage, TabsOk, Grows;
  }

  lemma PageSteps(f: Frames, h: Host, p: nat)
    requires Shape(h.slat) && p < PAGES
    ensures Grows(h.slat, h.slat)
    ensures p / 512 / 512 in h.slat.pde ==> DescribeUpper(f, h, p) == (h, true)
    ensures var (g, ok) := DescribeUpper(f, h, p);
      DescribePage(f, h, p) == if !ok || p / 512 in h.slat.pte then (g, ok) else DescribeLower(f, h, g, p)
  {
  }

  lemma {:induction false} FailureStays(f: Frames, h: Host, hpas: seq<nat>, m: nat, n: nat)
    requires Shape(h.slat) && PagesOk(hpas) && m <= n <= |hpas| && !DescribePages(f, h, hpas, m).1
    ensures DescribePages(f, h, hpas, n) == DescribePages(f, h, hpas, m)
    decreases n
  {
    hide DescribePages, DescribePage;
    if m < n {
      FailureStays(f, h, hpas, m, n - 1);
      DescribeSteps(f, h, hpas, n);
    }
  }

  // ---- What the remap stage does to the meaning of every page ----

  /** Page p with the rights owner o leaves the host. */
  ghost function Ruled(s: Slat, p: nat, o: Owner): (x: Xlat)
    requires Inv(s) && p < PAGES
    ensures x.host == View(s, p).host && Dictates(o, Above(s, p), x.attr)
    ensures x.attr.memType == View(s, p).attr.memType && x.attr.covered == View(s, p).attr.covered
  {
    Xlat(View(s, p).host, And(Above(s, p), Owned(View(s, p).attr, o)))
  }

  lemma RemapPageView(s: Slat, h: nat, o: Owner)
    requires Inv(s) && h < PAGES && h / 512 in s.pte
    ensures var t := RemapPage(s, h, o);
      && Inv(t) && SameAbove(s, t) && View(t, h) == Ruled(s, h, o)
      && (forall y :: 0 <= y < PAGES && y != h ==> View(t, y) == View(s, y))
  {
    hide Linked, Pristine, Above, At, Put, SplitPde, SplitPdpte, SetPte;
    var c := SplitPdpte(s, h / 512 / 512, true, false);
    var d := SplitPde(c, h / 512, true, false);
    SplitPdpteKeeps(s, h / 512 / 512, true, false);
    SplitPdeKeeps(c, h / 512, true, false);
    SplitPdpteAbove(s, h / 512 / 512, true, false);
    SplitPdeAbove(c, h / 512, true, false);
    ResolvedView(d, h);
    SetPteView(d, h, Pte(At(d.pte, h).frame, Owned(At(d.pte, h).attr, o)));
  }

  /** t is s with the rights of the pages in ps set by their owners. */
  ghost predicate RightsSet(s: Slat, t: Slat, rmt: map<nat, Rme>, ps: seq<nat>)
    requires Inv(s) && forall p :: p in ps ==> p in rmt
  {
    && Inv(t) && SameAbove(s, t)
    && forall p :: 0 <= p < PAGES ==> View(t, p) == if p in ps then Ruled(s, p, rmt[p].owner) else View(s, p)
  }

  /** Later rights replace earlier ones. */
  lemma RuledAgain(s: Slat, t: Slat, p: nat, o: Owner, o': Owner)
    requires Inv(s) && Inv(t) && SameAbove(s, t) && p < PAGES
    requires View(t, p) == View(s, p) || View(t, p) == Ruled(s, p, o)
    ensures Ruled(t, p, o') == Ruled(s, p, o')
  {
    hide View, Above, Inv;
  }

  lemma RightsSetStep(s: Slat, d: Slat, rmt: map<nat, Rme>, ps: seq<nat>, h: nat)
    requires Inv(s) && (forall p :: p in ps ==> p in rmt) && RightsSet(s, d, rmt, ps)
    requires h in rmt && h < PAGES && h / 512 in d.pte
    ensures RightsSet(s, RemapPage(d, h, rmt[h].owner), rmt, ps + [h])
  {
    hide Linked, Pristine, Above, View, TabsOk, RemapPage, Ruled;
    RemapPageView(d, h, rmt[h].owner);
    RuledAgain(s, d, h, rmt[h].owner, rmt[h].owner);
  }

  /** The remap stage sets the rights of the listed pages by their owners, and nothing else. */
  lemma {:induction false} RemappedView(s: Slat, rmt: map<nat, Rme>, hpas: seq<nat>, n: nat)
    requires Inv(s) && n <= |hpas| && PagesOk(hpas)
    requires Described(s, hpas, |hpas|) && forall i :: 0 <= i < |hpas| ==> hpas[i] in rmt
    ensures RightsSet(s, Remapped(s, rmt, hpas, n), rmt, hpas[..n])
  {
    hide Linked, Pristine, Above, View, TabsOk, RemapPage, Ruled;
    if n != 0 {
      hide RightsSet;
      RemappedView(s, rmt, hpas, n - 1);
      RightsSetStep(s, Remapped(s, rmt, hpas, n - 1), rmt, hpas[..n - 1], hpas[n - 1]);
      assert hpas[..n] == hpas[..n - 1] + [hpas[n - 1]];
    }
  }

  /** The rights of page p are those its owner gives it. */
  ghost predicate Governed(g: Host, p: nat)
    requires Inv(g.slat) && p < PAGES
  {
    p in g.rmt && Dictates(g.rmt[p].owner, Above(g.slat, p), View(g.slat, p).attr)
  }

  /** The levels above a page leave it whatever its owner grants. */
  predicate Suffices(o: Owner, above: Attr) {
    && above.execute
    && (o != SecureGuest ==> above.read && above.user)
    && (o != SecureGuest && o != NoirVisor ==> above.write)
  }

  /** A page that follows its ownership has exactly the rights its owner grants if and only if
      the levels above it suffice for that. */
  lemma ExactRightsIff(g: Host, p: nat)
    requires Inv(g.slat) && p < PAGES && Governed(g, p)
    ensures Dictates(g.rmt[p].owner, Full(0, false), View(g.slat, p).attr)
      <==> Suffices(g.rmt[p].owner, Above(g.slat, p))
  {
    hide View, Above, Inv;
  }

  /** Write-protecting the 2 MiB region that holds NoirVisor's own page-directory pointers, as is
      done before ownership is set up, closes that region's entry but still suffices for any page
      of NoirVisor's there, and for any owner elsewhere. */
  lemma ProtectionSuffices(s: Slat, q: nat)
    requires Inv(s) && Open(s) && q < LARGES && q !in s.pte
    ensures var t := UpdateLarge(s, q, q, true, false, true);
      && Inv(t) && !Open(t)
      && forall p, o :: 0 <= p < PAGES && (p / 512 != q || o == NoirVisor) ==> Suffices(o, Above(t, p))
  {
    hide Linked, Pristine, View, UpdateLarge, Above, Open, TabsOk;
    UpdateLargeView(s, q, true, false, true);
    var t := UpdateLarge(s, q, q, true, false, true);
    forall p, o | 0 <= p < PAGES && (p / 512 != q || o == NoirVisor) ensures Suffices(o, Above(t, p)) {
      OpenAbove(s, p);
      OpenRights(s, p);
    }
  }

  lemma OpenRights(s: Slat, p: nat)
    requires Inv(s) && Open(s) && p < PAGES
    ensures Grants(s.pdpt[p / 512 / 512].attr)
    ensures p / 512 !in s.pte ==> View(s, p).attr.user
  {
    hide At, Pristine, TabsOk;
  }
}
