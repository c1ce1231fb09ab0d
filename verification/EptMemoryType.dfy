/**
  MTRR emulation in the extended page table: what each memory-type update does to the meaning
  of every page, and what a whole run of variable-range steps leaves behind.
*/
module EptMemoryType {
  import opened Descriptors
  import opened IdentityMap

  /** Lower types win unless the new type takes precedence outright. */
  function Merge(old': MemType, new': MemType, force: bool): (t: MemType) {
    if force then new' else if old' < new' then old' else new'
  }

  function Touch(a: Attr, t: MemType): (b: Attr) {
    a.(memType := if a.covered then Merge(a.memType, t, false) else t, covered := true)
  }

  function TouchView(x: Xlat, t: MemType): (y: Xlat) {
    x.(attr := Touch(x.attr, t))
  }

  /** Whatever is described is linked, but for PTE tables of regions in `pending`. */
  ghost predicate LinkedBut(s: Slat, pending: set<nat>)
    requires Shape(s)
  {
    && (forall r :: r in s.pde ==> s.pdpt[r].Table?)
    && (forall q :: q in s.pte ==> q in pending || At(s.pde, q).Table?)
  }

  /** The EPT is only ever split in host mode. */
  ghost predicate Tight(s: Slat) {
    Inv(s) && LinkedBut(s, {})
  }

  // ---- The three updaters ----

  ghost function TouchPage(s: Slat, p: nat, t: MemType): (u: Slat)
    requires Shape(s) && p < PAGES
    ensures Shape(u)
  {
    var d := SplitPde(s, p / 512, true, true);
    SetPte(d, p, At(d.pte, p).(attr := Touch(At(d.pte, p).attr, t)))
  }

  ghost function TouchPages(s: Slat, p: nat, n: nat, t: MemType): (u: Slat)
    requires Shape(s) && p + n <= PAGES
    ensures Shape(u)
    decreases n
  {
    if n == 0 then s else TouchPages(TouchPage(s, p, t), p + 1, n - 1, t)
  }

  ghost function SetLarge(s: Slat, q: nat, e: Entry): (u: Slat)
    requires Shape(s) && q / 512 in s.pde
    ensures Shape(u) && u.pde.Keys == s.pde.Keys && u.pte == s.pte && u.pdpt == s.pdpt
  {
    PutAt(s.pde, q, e, HUGES, s.used);
    s.(pde := Put(s.pde, q, e))
  }

  /** The flag is what the routine returns: false after a split PDE, although all its pages
      were updated. */
  ghost function TouchLarge(s: Slat, q: nat, t: MemType): (u: (Slat, bool))
    requires Shape(s) && q < LARGES
    ensures Shape(u.0)
  {
    var d := SplitPdpte(s, q / 512, true, true);
    var e := At(d.pde, q);
    if e.Leaf? then (SetLarge(d, q, Leaf(e.frame, Touch(e.attr, t))), true)
    else (TouchPages(d, q * 512, 512, t), false)
  }

  ghost function TouchLarges(s: Slat, q: nat, n: nat, t: MemType): (u: Slat)
    requires Shape(s) && q + n <= LARGES
    ensures Shape(u)
    decreases n
  {
    if n == 0 then s else
    var (d, ok) := TouchLarge(s, q, t);
    if ok then TouchLarges(d, q + 1, n - 1, t) else d
  }

  ghost function TouchHuge(s: Slat, r: nat, t: MemType): (u: Slat)
    requires Shape(s) && r < HUGES
    ensures Shape(u)
  {
    if s.pdpt[r].Leaf? then s.(pdpt := s.pdpt[r := Leaf(s.pdpt[r].frame, Touch(s.pdpt[r].attr, t))])
    else TouchLarges(s, r * 512, 512, t)
  }

  // ---- What they mean ----

  lemma SplitPdpteLinks(s: Slat, r: nat, pending: set<nat>)
    requires Shape(s) && r < HUGES && LinkedBut(s, pending)
    ensures LinkedBut(SplitPdpte(s, r, true, true), pending)
  {
    var t := SplitPdpte(s, r, true, true);
    assert forall x :: x in s.pde ==> t.pde[x] == s.pde[x];
  }

  lemma AddPtesLinks(s: Slat, q: nat, t: Tab<Pte>)
    requires Shape(s) && LinkedBut(s, {}) && Shape(s.(pte := s.pte[q := t]))
    ensures LinkedBut(s.(pte := s.pte[q := t]), {q})
  {
  }

  lemma DescribeLargeLinks(s: Slat, q: nat)
    requires Shape(s) && q < LARGES && LinkedBut(s, {})
    ensures LinkedBut(DescribeLarge(s, q, true), {q})
  {
    hide SplitPdpte, LinkedBut, DescribeLarge, At;
    var u := s.(used := s.used + 1);
    SpareLinks(s, q);
    if q !in s.pte {
      DescribeLargeSteps(s, q, true);
      SplitPdpteLinks(u, q / 512, {});
      var d := SplitPdpte(u, q / 512, true, true);
      AddPtesLinks(d, q, Tab(s.used, NewPtes(q, At(d.pde, q).attr)));
    } else {
      DescribedAlready(s, q);
    }
  }

  lemma DescribedAlready(s: Slat, q: nat)
    requires Shape(s) && q < LARGES && q in s.pte
    ensures DescribeLarge(s, q, true) == s
  {
  }

  lemma SpareLinks(s: Slat, q: nat)
    requires Shape(s) && LinkedBut(s, {})
    ensures LinkedBut(s.(used := s.used + 1), {}) && LinkedBut(s, {q})
  {
  }

  lemma LinkPdeLinks(s: Slat, q: nat)
    requires Shape(s) && q in s.pte && LinkedBut(s, {q})
    ensures LinkedBut(LinkPde(s, q), {})
  {
    PutAt(s.pde, q, Link(At(s.pde, q), s.pte[q].phys), HUGES, s.used);
    hide Put, At, TabsOk;
  }

  lemma HostSplitTight(s: Slat, q: nat)
    requires Tight(s) && q < LARGES
    ensures Tight(SplitPde(s, q, true, true)) && SameMeaning(s, SplitPde(s, q, true, true))
  {
    hide Linked, Pristine, View, Open, LinkedBut, DescribeLarge, SplitPdpte, LinkPde;
    SplitPdeKeeps(s, q, true, true);
    DescribeLargeLinks(s, q);
    SplitPdpteLinks(DescribeLarge(s, q, true), q / 512, {q});
    LinkPdeLinks(SplitPdpte(DescribeLarge(s, q, true), q / 512, true, true), q);
  }

  /** u is s with exactly the pages of [lo, hi) touched by type t. */
  ghost predicate Effect(s: Slat, u: Slat, lo: int, hi: int, t: MemType)
    requires Tight(s)
  {
    && Tight(u) && (Open(s) ==> Open(u))
    && forall y :: 0 <= y < PAGES ==> View(u, y) == if lo <= y < hi then TouchView(View(s, y), t) else View(s, y)
  }

  lemma EffectTrans(s: Slat, d: Slat, u: Slat, lo: int, mid: int, hi: int, t: MemType)
    requires Tight(s) && Effect(s, d, lo, mid, t) && Effect(d, u, mid, hi, t) && lo <= mid <= hi
    ensures Effect(s, u, lo, hi, t)
  {
    hide Tight, View, Open, TouchView;
  }

  lemma EffectTight(s: Slat, u: Slat, lo: int, hi: int, t: MemType)
    requires Tight(s) && Effect(s, u, lo, hi, t)
    ensures Tight(u)
  {
  }

  lemma NoEffect(s: Slat, p: nat, t: MemType)
    requires Tight(s)
    ensures Effect(s, s, p, p, t)
  {
  }

  lemma TouchPageEffect(s: Slat, p: nat, t: MemType)
    requires Tight(s) && p < PAGES
    ensures var u := TouchPage(s, p, t); Effect(s, u, p, p + 1, t) && u.pte.Keys == s.pte.Keys + {p / 512}
  {
    hide Linked, Pristine, At, SetPte, SplitPde, Open;
    HostSplitTight(s, p / 512);
    var d := SplitPde(s, p / 512, true, true);
    var e := At(d.pte, p).(attr := Touch(At(d.pte, p).attr, t));
    SetPteView(d, p, e);
    assert View(d, p) == Xlat(e.frame,
      And(d.pdpt[p / 512 / 512].attr, And(At(d.pde, p / 512).attr, At(d.pte, p).attr)));
  }

  /** Touching pages of one described 2 MiB region. */
  lemma {:induction false} TouchPagesEffect(s: Slat, q: nat, p: nat, n: nat, t: MemType)
    requires Tight(s) && q in s.pte && q * 512 <= p && p + n <= (q + 1) * 512 <= PAGES
    ensures var u := TouchPages(s, p, n, t); Effect(s, u, p, p + n, t) && u.pte.Keys == s.pte.Keys
    decreases n
  {
    hide Linked, Pristine, LinkedBut, TouchPage, View, Open, Effect, TabsOk;
    if n == 0 {
      NoEffect(s, p, t);
    } else {
      var d := TouchPage(s, p, t);
      assert p / 512 == q;
      TouchPageEffect(s, p, t);
      assert d.pte.Keys == s.pte.Keys;
      EffectTight(s, d, p, p + 1, t);
      TouchPagesEffect(d, q, p + 1, n - 1, t);
      EffectTrans(s, d, TouchPages(d, p + 1, n - 1, t), p, p + 1, p + n, t);
    }
  }

  lemma HostSplitHugeTight(s: Slat, r: nat)
    requires Tight(s) && r < HUGES
    ensures Tight(SplitPdpte(s, r, true, true)) && SameMeaning(s, SplitPdpte(s, r, true, true))
  {
    hide Linked, Pristine, View, Open, LinkedBut, SplitPdpte;
    SplitPdpteKeeps(s, r, true, true);
    SplitPdpteLinks(s, r, {});
  }

  lemma SetLargeEffect(s: Slat, q: nat, t: MemType)
    requires Tight(s) && q / 512 in s.pde && At(s.pde, q).Leaf?
    ensures Effect(s, SetLarge(s, q, Leaf(At(s.pde, q).frame, Touch(At(s.pde, q).attr, t))), q * 512, (q + 1) * 512, t)
  {
    var e := Leaf(At(s.pde, q).frame, Touch(At(s.pde, q).attr, t));
    PutAt(s.pde, q, e, HUGES, s.used);
    hide At, Put, TabsOk;
    assert forall y: nat :: y / 512 == q <==> q * 512 <= y < (q + 1) * 512;
    assert q !in s.pte;
  }

  /** A 2 MiB update touches its 512 pages whatever its PDE; it reports failure exactly when
      the PDE was split. */
  lemma TouchLargeEffect(s: Slat, q: nat, t: MemType)
    requires Tight(s) && q < LARGES
    ensures var (u, ok) := TouchLarge(s, q, t);
      Effect(s, u, q * 512, (q + 1) * 512, t) && u.pte.Keys == s.pte.Keys && (ok <==> q !in s.pte)
  {
    hide Linked, Pristine, LinkedBut, SplitPdpte, SetLarge, View, Open, TouchPages, Effect, SameMeaning, Touch;
    HostSplitHugeTight(s, q / 512);
    var d := SplitPdpte(s, q / 512, true, true);
    LeafIffNoTable(d, q);
    if At(d.pde, q).Leaf? {
      SetLargeEffect(d, q, t);
    } else {
      TouchPagesEffect(d, q, q * 512, 512, t);
    }
    EffectAfterSplit(s, d, TouchLarge(s, q, t).0, q * 512, (q + 1) * 512, t);
  }

  lemma LeafIffNoTable(s: Slat, q: nat)
    requires Tight(s) && q / 512 in s.pde
    ensures At(s.pde, q).Leaf? <==> q !in s.pte
  {
  }

  lemma EffectAfterSplit(s: Slat, d: Slat, u: Slat, lo: int, hi: int, t: MemType)
    requires Tight(s) && Tight(d) && SameMeaning(s, d) && Effect(d, u, lo, hi, t)
    ensures Effect(s, u, lo, hi, t)
  {
    hide Linked, Pristine, LinkedBut, View, Open, TouchView;
  }

  /** Where a loop over n PDEs from q stops: after the first split one. */
  ghost function Stop(split: set<nat>, q: nat, n: nat): (e: nat)
    ensures q <= e <= q + n
    ensures forall x :: q <= x < e - 1 ==> x !in split
    ensures e < q + n ==> q < e && e - 1 in split
    decreases n
  {
    if n == 0 then q else if q in split then q + 1 else Stop(split, q + 1, n - 1)
  }

  lemma {:induction false} TouchLargesEffect(s: Slat, q: nat, n: nat, t: MemType)
    requires Tight(s) && q + n <= LARGES
    ensures var u := TouchLarges(s, q, n, t);
      Effect(s, u, q * 512, Stop(s.pte.Keys, q, n) * 512, t) && u.pte.Keys == s.pte.Keys
    decreases n
  {
    hide Linked, Pristine, LinkedBut, TouchLarge, View, Open, TouchView;
    if n != 0 {
      TouchLargeEffect(s, q, t);
      var (d, ok) := TouchLarge(s, q, t);
      if ok {
        TouchLargesEffect(d, q + 1, n - 1, t);
        EffectTrans(s, d, TouchLarges(s, q, n, t), q * 512, (q + 1) * 512, Stop(s.pte.Keys, q, n) * 512, t);
      }
    }
  }

  lemma SetHugeEffect(s: Slat, r: nat, t: MemType)
    requires Tight(s) && r < HUGES && s.pdpt[r].Leaf?
    ensures Effect(s, TouchHuge(s, r, t), r * HUGES, (r + 1) * HUGES, t)
  {
    hide At;
    assert forall y: nat :: y / 512 / 512 == r <==> r * HUGES <= y < (r + 1) * HUGES;
    assert r !in s.pde;
  }

  /** A 1 GiB update touches its region from the start up to and including the first split
      2 MiB page, and nothing beyond: a split page ends it early. */
  lemma TouchHugeEffect(s: Slat, r: nat, t: MemType)
    requires Tight(s) && r < HUGES
    ensures var u := TouchHuge(s, r, t);
      Effect(s, u, r * HUGES, Stop(s.pte.Keys, r * 512, 512) * 512, t) && u.pte.Keys == s.pte.Keys
  {
    hide Linked, Pristine, View, Open, LinkedBut, Stop, Effect, TouchLarges;
    if s.pdpt[r].Leaf? {
      SetHugeEffect(s, r, t);
      forall q | r * 512 <= q < r * 512 + 512 ensures q !in s.pte { UndescribedRegion(s, r, q); }
      assert Stop(s.pte.Keys, r * 512, 512) == r * 512 + 512;
    } else {
      TouchLargesEffect(s, r * 512, 512, t);
    }
  }

  lemma UndescribedRegion(s: Slat, r: nat, q: nat)
    requires Tight(s) && r < HUGES && s.pdpt[r].Leaf? && q / 512 == r
    ensures q !in s.pte
  {
  }
}
