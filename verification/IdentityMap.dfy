/**
  The host identity maps as values: NoirVisor's nested page table on AMD and extended page
  table on Intel. Both are a flat array of 2^18 PDPTEs, refined on demand by described PDE
  and PTE tables.

  One entry type serves both. `read` is the AMD present bit and `execute` the negation of the
  AMD no-execute bit; an AMD map keeps memory type 0 and never sets `covered`, an Intel map
  keeps `user` set. Pages are numbered (byte address / 4096); page p lies in 2 MiB region
  p / 512 and 1 GiB region p / 512 / 512.
*/
module IdentityMap {
  import opened Descriptors

  const HUGES: nat := 262144          // 1 GiB regions in 256 TiB
  const LARGES: nat := 134217728      // 2 MiB regions
  const PAGES: nat := 68719476736     // 4 KiB pages

  type MemType = t: nat | t < 8

  datatype Attr = Attr(read: bool, write: bool, execute: bool, user: bool, memType: MemType, covered: bool)
  datatype Entry = Leaf(frame: nat, attr: Attr) | Table(phys: nat, attr: Attr)
  datatype Pte = Pte(frame: nat, attr: Attr)

  datatype Slat = Slat(pdpt: seq<Entry>, pde: map<nat, Tab<Entry>>, pte: map<nat, Tab<Pte>>, used: nat)

  /** What a guest page means: its host page, effective rights, memory type and MTRR flag. */
  datatype Xlat = Xlat(host: nat, attr: Attr)
  datatype Option<+T> = None | Some(value: T)

  function Full(t: MemType, covered: bool): (a: Attr) {
    Attr(true, true, true, true, t, covered)
  }

  /** What splitting gives a child: all rights, and its parent's type and flag. */
  function Child(a: Attr): (c: Attr) {
    Full(a.memType, a.covered)
  }

  /** Rights accumulate along the walk; type and flag come from the last level. */
  function And(a: Attr, b: Attr): (c: Attr) {
    Attr(a.read && b.read, a.write && b.write, a.execute && b.execute, a.user && b.user, b.memType, b.covered)
  }

  predicate Grants(a: Attr) {
    a.read && a.write && a.execute && a.user
  }

  // ---- The walk the processor makes, table by physical page ----

  ghost function TableAt<E>(m: map<nat, Tab<E>>, phys: nat): (t: Option<seq<E>>) {
    if r :| r in m && m[r].phys == phys then Some(m[r].entries) else None
  }

  ghost function Walk(s: Slat, p: nat): (x: Option<Xlat>)
    requires Shape(s) && p < PAGES
  {
    match s.pdpt[p / 512 / 512]
    case Leaf(f, a) => Some(Xlat(f * HUGES + p % HUGES, a))
    case Table(t, a) =>
      var pd := TableAt(s.pde, t);
      if pd.None? then None else
      match pd.value[p / 512 % 512]
      case Leaf(f, b) => Some(Xlat(f * 512 + p % 512, And(a, b)))
      case Table(u, b) =>
        var pt := TableAt(s.pte, u);
        if pt.None? then None else
        Some(Xlat(pt.value[p % 512].frame, And(a, And(b, pt.value[p % 512].attr))))
  }

  // ---- Structure ----

  /** Full-size tables on distinct physical pages. */
  ghost predicate TabsOk<E>(m: map<nat, Tab<E>>, regions: nat, used: nat) {
    && (forall r :: r in m ==> r < regions && |m[r].entries| == ENTRIES && m[r].phys < used)
    && (forall r, x :: r in m && x in m && m[r].phys == m[x].phys ==> r == x)
  }

  ghost predicate Shape(s: Slat) {
    && |s.pdpt| == HUGES
    && TabsOk(s.pde, HUGES, s.used)
    && TabsOk(s.pte, LARGES, s.used)
    && forall q :: q in s.pte ==> q / 512 in s.pde
  }

  /** The entry for index q of the next level down: a PDE for a 2 MiB region, a PTE for a page. */
  function At<E>(m: map<nat, Tab<E>>, q: nat): (e: E)
    requires q / 512 in m && |m[q / 512].entries| == ENTRIES
  {
    m[q / 512].entries[q % 512]
  }

  /** The tables after one entry is overwritten. */
  function Put<E>(m: map<nat, Tab<E>>, q: nat, e: E): (n: map<nat, Tab<E>>)
    requires q / 512 in m && |m[q / 512].entries| == ENTRIES
  {
    m[q / 512 := m[q / 512].(entries := m[q / 512].entries[q % 512 := e])]
  }

  lemma PutAt<E>(m: map<nat, Tab<E>>, q: nat, e: E, regions: nat, used: nat)
    requires TabsOk(m, regions, used) && q / 512 in m
    ensures var n := Put(m, q, e);
      && TabsOk(n, regions, used) && n.Keys == m.Keys
      && (forall r :: r in m ==> n[r].phys == m[r].phys)
      && (forall x: nat :: x / 512 in m ==> At(n, x) == if x == q then e else At(m, x))
  {
  }

  lemma AddTab<E>(m: map<nat, Tab<E>>, regions: nat, used: nat, r: nat, t: Tab<E>)
    requires TabsOk(m, regions, used) && r !in m && r < regions
    requires |t.entries| == ENTRIES && t.phys < used && forall x :: x in m ==> m[x].phys != t.phys
    ensures TabsOk(m[r := t], regions, used)
  {
  }

  lemma MapTabsOk<E>(m: map<nat, Tab<E>>, regions: nat, used: nat, f: E -> E)
    requires TabsOk(m, regions, used)
    ensures TabsOk(MapTabs(m, f), regions, used)
  {
  }

  lemma TableAtOwn<E>(m: map<nat, Tab<E>>, regions: nat, used: nat, r: nat)
    requires TabsOk(m, regions, used) && r in m
    ensures TableAt(m, m[r].phys) == Some(m[r].entries)
  {
  }

  ghost predicate Owns<E>(m: map<nat, Tab<E>>, region: nat, phys: nat) {
    region in m && m[region].phys == phys
  }

  /** Every linked parent entry points at its own region's table. */
  ghost predicate Linked(s: Slat)
    requires Shape(s)
  {
    && (forall r :: 0 <= r < HUGES && s.pdpt[r].Table? ==> Owns(s.pde, r, s.pdpt[r].phys))
    && (forall q: nat :: q / 512 in s.pde && At(s.pde, q).Table? ==> Owns(s.pte, q, At(s.pde, q).phys))
  }

  /** Huge and large leaves are identity, and a table nobody links yet says what its parent says. */
  ghost predicate Pristine(s: Slat)
    requires Shape(s)
  {
    && (forall r :: 0 <= r < HUGES && s.pdpt[r].Leaf? ==> s.pdpt[r].frame == r)
    && (forall q: nat :: q / 512 in s.pde && At(s.pde, q).Leaf? ==> At(s.pde, q).frame == q)
    && (forall q: nat :: q / 512 in s.pde && s.pdpt[q / 512].Leaf? ==>
          At(s.pde, q) == Leaf(q, Child(s.pdpt[q / 512].attr)))
    && (forall p: nat :: p / 512 in s.pte && At(s.pde, p / 512).Leaf? ==>
          At(s.pte, p) == Pte(p, Child(At(s.pde, p / 512).attr)))
  }

  ghost predicate Inv(s: Slat) {
    Shape(s) && Linked(s) && Pristine(s)
  }

  /** The walk for region q goes down to its PTE table. */
  ghost predicate Resolved(s: Slat, q: nat)
    requires Shape(s)
  {
    q / 512 < HUGES && q in s.pte && s.pdpt[q / 512].Table? && At(s.pde, q).Table?
  }

  /** No upper-level entry restricts anything. */
  ghost predicate Open(s: Slat)
    requires Shape(s)
  {
    && (forall r :: 0 <= r < HUGES ==> Grants(s.pdpt[r].attr))
    && (forall q: nat :: q / 512 in s.pde ==> Grants(At(s.pde, q).attr))
  }

  /** The rights that the levels above the last one leave to a page. */
  ghost function Above(s: Slat, p: nat): (a: Attr)
    requires Shape(s) && p < PAGES
  {
    var a := And(s.pdpt[p / 512 / 512].attr, Full(0, false));
    if p / 512 / 512 in s.pde then And(a, And(At(s.pde, p / 512).attr, Full(0, false))) else a
  }

  lemma OpenAbove(s: Slat, p: nat)
    requires Shape(s) && Open(s) && p < PAGES
    ensures Above(s, p) == Full(0, false)
  {
  }

  /** The meaning of a page, read off the tables region by region; leaves above the last
      level are identity. */
  ghost function View(s: Slat, p: nat): (x: Xlat)
    requires Inv(s) && p < PAGES
  {
    var a := s.pdpt[p / 512 / 512];
    if a.Leaf? then Xlat(p, a.attr) else
    var b := At(s.pde, p / 512);
    if b.Leaf? then Xlat(p, And(a.attr, b.attr)) else
    var c := At(s.pte, p);
    Xlat(c.frame, And(a.attr, And(b.attr, c.attr)))
  }

  /** Under the invariant the processor's walk never meets a missing table and is the view. */
  lemma WalkIsView(s: Slat, p: nat)
    requires Inv(s) && p < PAGES
    ensures Walk(s, p) == Some(View(s, p))
  {
    if s.pdpt[p / 512 / 512].Table? {
      TableAtOwn(s.pde, HUGES, s.used, p / 512 / 512);
      if At(s.pde, p / 512).Table? {
        TableAtOwn(s.pte, LARGES, s.used, p / 512);
      }
    }
  }

  /** Right by right: a page may be read, written, executed and reached from user mode exactly if the
      entries of all levels on the way say so, and its type is the last one's. */
  lemma WalkRights(s: Slat, p: nat)
    requires Inv(s) && p < PAGES
    ensures var w, a := Walk(s, p), s.pdpt[p / 512 / 512];
      && w.Some?
      && var x, b, c := w.value.attr,
           (if a.Leaf? then a.attr else At(s.pde, p / 512).attr),
           (if a.Leaf? then a.attr else if At(s.pde, p / 512).Leaf? then At(s.pde, p / 512).attr
            else At(s.pte, p).attr);
         && (x.read <==> a.attr.read && b.read && c.read) && (x.write <==> a.attr.write && b.write && c.write)
         && (x.execute <==> a.attr.execute && b.execute && c.execute)
         && (x.user <==> a.attr.user && b.user && c.user) && x.memType == c.memType && x.covered == c.covered
  {
    WalkIsView(s, p);
    hide Walk, Pristine, TabsOk;
  }

  // ---- Splitting ----

  function NewPdes(r: nat, a: Attr): (es: seq<Entry>) {
    seq(ENTRIES, j requires 0 <= j => Leaf(r * 512 + j, Child(a)))
  }

  function NewPtes(q: nat, a: Attr): (es: seq<Pte>) {
    seq(ENTRIES, j requires 0 <= j => Pte(q * 512 + j, Child(a)))
  }

  /** Pointing an entry at a table clears its type bits and keeps its rights. */
  function Link(e: Entry, phys: nat): (f: Entry) {
    Table(phys, e.attr.(memType := 0))
  }

  ghost function LinkPdpt(s: Slat, r: nat): (t: Slat)
    requires Shape(s) && r in s.pde
  {
    s.(pdpt := s.pdpt[r := Link(s.pdpt[r], s.pde[r].phys)])
  }

  ghost function LinkPde(s: Slat, q: nat): (t: Slat)
    requires Shape(s) && q in s.pte
    ensures Shape(t) && t.pde.Keys == s.pde.Keys && t.pdpt == s.pdpt && At(t.pde, q).Table?
  {
    PutAt(s.pde, q, Link(At(s.pde, q), s.pte[q].phys), HUGES, s.used);
    s.(pde := Put(s.pde, q, Link(At(s.pde, q), s.pte[q].phys)))
  }

  /** Describes 1 GiB region r unless it is described already. */
  ghost function DescribeHuge(s: Slat, r: nat): (t: Slat)
    requires Shape(s) && r < HUGES
    ensures Shape(t) && r in t.pde && t.pdpt == s.pdpt && t.pte == s.pte
  {
    if r in s.pde then s else
    s.(pde := s.pde[r := Tab(s.used, NewPdes(r, s.pdpt[r].attr))], used := s.used + 1)
  }

  /** Splits a 1 GiB page: describe it when allowed, and link it in host mode. */
  ghost function SplitPdpte(s: Slat, r: nat, host: bool, alloc: bool): (t: Slat)
    requires Shape(s) && r < HUGES && (host ==> alloc || r in s.pde)
    ensures Shape(t) && t.pte == s.pte && t.used >= s.used
    ensures t.pde.Keys == if alloc then s.pde.Keys + {r} else s.pde.Keys
    ensures host ==> t.pdpt[r].Table?
  {
    var d := if alloc then DescribeHuge(s, r) else s;
    if host then LinkPdpt(d, r) else d
  }

  /** Describes 2 MiB region q. The PTE page is allocated before the PDE page it may need. */
  ghost function DescribeLarge(s: Slat, q: nat, host: bool): (t: Slat)
    requires Shape(s) && q < LARGES
    ensures Shape(t) && t.pte.Keys == s.pte.Keys + {q}
  {
    if q in s.pte then s else
    var d := SplitPdpte(s.(used := s.used + 1), q / 512, host, true);
    AddTab(d.pte, LARGES, d.used, q, Tab(s.used, NewPtes(q, At(d.pde, q).attr)));
    d.(pte := d.pte[q := Tab(s.used, NewPtes(q, At(d.pde, q).attr))])
  }

  lemma DescribeLargeSteps(s: Slat, q: nat, host: bool)
    requires Shape(s) && q < LARGES && q !in s.pte
    ensures var d := SplitPdpte(s.(used := s.used + 1), q / 512, host, true);
      DescribeLarge(s, q, host) == d.(pte := s.pte[q := Tab(s.used, NewPtes(q, At(d.pde, q).attr))])
  {
    hide TabsOk;
  }

  /** Splits a 2 MiB page: describe it when allowed, and link both levels in host mode. */
  ghost function SplitPde(s: Slat, q: nat, host: bool, alloc: bool): (t: Slat)
    requires Shape(s) && q < LARGES && (host ==> alloc || q in s.pte)
    ensures Shape(t) && t.pte.Keys == if alloc then s.pte.Keys + {q} else s.pte.Keys
    ensures host ==> Resolved(t, q)
  {
    var d := if alloc then DescribeLarge(s, q, host) else s;
    if host then LinkPde(SplitPdpte(d, q / 512, true, alloc), q) else d
  }

  /** Same meaning for every page, and everything described stays described. */
  ghost predicate SameMeaning(s: Slat, t: Slat)
    requires Inv(s)
  {
    && Inv(t)
    && (forall p :: 0 <= p < PAGES ==> View(t, p) == View(s, p))
    && s.pde.Keys <= t.pde.Keys && s.pte.Keys <= t.pte.Keys
    && (forall q :: q in s.pte && Resolved(s, q) ==> Resolved(t, q))
    && (Open(s) ==> Open(t))
  }

  lemma SameMeaningTrans(s: Slat, t: Slat, u: Slat)
    requires Inv(s) && SameMeaning(s, t) && SameMeaning(t, u)
    ensures SameMeaning(s, u)
  {
    hide Inv, View, Open;
  }

  lemma AllocKeeps(s: Slat)
    requires Inv(s)
    ensures SameMeaning(s, s.(used := s.used + 1))
  {
    hide At;
  }

  lemma LinkPdptKeeps(s: Slat, r: nat)
    requires Inv(s) && r in s.pde
    ensures SameMeaning(s, LinkPdpt(s, r))
  {
    hide At;
    var t := LinkPdpt(s, r);
  }

  lemma LinkPdeInv(s: Slat, q: nat)
    requires Inv(s) && q in s.pte && s.pdpt[q / 512].Table?
    ensures Inv(LinkPde(s, q)) && (Open(s) ==> Open(LinkPde(s, q)))
  {
    PutAt(s.pde, q, Link(At(s.pde, q), s.pte[q].phys), HUGES, s.used);
    hide At, Put;
    var t := LinkPde(s, q);
  }

  lemma LinkPdeKeeps(s: Slat, q: nat)
    requires Inv(s) && q in s.pte && s.pdpt[q / 512].Table?
    ensures SameMeaning(s, LinkPde(s, q))
  {
    LinkPdeInv(s, q);
    var t := LinkPde(s, q);
    PutAt(s.pde, q, Link(At(s.pde, q), s.pte[q].phys), HUGES, s.used);
    hide At, Put, Linked, Open, TabsOk;
    forall p | 0 <= p < PAGES ensures View(t, p) == View(s, p) {
      if p / 512 == q && At(s.pde, q).Leaf? {
        assert At(s.pte, p) == Pte(p, Child(At(s.pde, q).attr));
      }
    }
  }

  lemma DescribeHugeKeeps(s: Slat, r: nat)
    requires Inv(s) && r < HUGES
    ensures SameMeaning(s, DescribeHuge(s, r))
  {
    hide At, TabsOk;
    if r !in s.pde { NewPdesAt(s, r); }
  }

  lemma NewPdesAt(s: Slat, r: nat)
    requires Shape(s) && r < HUGES && r !in s.pde
    ensures var t := DescribeHuge(s, r);
      && t.pde.Keys == s.pde.Keys + {r} && (forall x :: x in s.pde ==> t.pde[x].phys == s.pde[x].phys)
      && forall q: nat :: q / 512 in t.pde ==>
           At(t.pde, q) == if q / 512 == r then Leaf(q, Child(s.pdpt[r].attr)) else At(s.pde, q)
  {
    var t := DescribeHuge(s, r);
    forall q: nat | q / 512 in t.pde
      ensures At(t.pde, q) == if q / 512 == r then Leaf(q, Child(s.pdpt[r].attr)) else At(s.pde, q)
    {
      assert q / 512 * 512 + q % 512 == q;
    }
  }

  lemma SplitPdpteKeeps(s: Slat, r: nat, host: bool, alloc: bool)
    requires Inv(s) && r < HUGES && (host ==> alloc || r in s.pde)
    ensures SameMeaning(s, SplitPdpte(s, r, host, alloc))
  {
    hide Linked, Pristine, Open, View, DescribeHuge, LinkPdpt;
    var d := if alloc then DescribeHuge(s, r) else s;
    if alloc { DescribeHugeKeeps(s, r); }
    if host {
      LinkPdptKeeps(d, r);
      SameMeaningTrans(s, d, LinkPdpt(d, r));
    }
  }

  lemma UnusedPage(s: Slat)
    requires Shape(s)
    ensures forall x :: x in s.pte ==> s.pte[x].phys != s.used
  {
  }

  lemma AddPtesKeeps(s: Slat, q: nat, phys: nat)
    requires Inv(s) && q !in s.pte && q / 512 in s.pde
    requires phys < s.used && forall x :: x in s.pte ==> s.pte[x].phys != phys
    ensures SameMeaning(s, s.(pte := s.pte[q := Tab(phys, NewPtes(q, At(s.pde, q).attr))]))
  {
    hide At, TabsOk;
    AddedPtesAt(s, q, phys);
  }

  lemma AddedPtesAt(s: Slat, q: nat, phys: nat)
    requires Shape(s) && q !in s.pte && q / 512 in s.pde
    requires phys < s.used && forall x :: x in s.pte ==> s.pte[x].phys != phys
    ensures var t := s.(pte := s.pte[q := Tab(phys, NewPtes(q, At(s.pde, q).attr))]);
      && Shape(t) && q < LARGES
      && forall p: nat :: p / 512 in t.pte ==>
           At(t.pte, p) == if p / 512 == q then Pte(p, Child(At(s.pde, q).attr)) else At(s.pte, p)
  {
    var t := s.(pte := s.pte[q := Tab(phys, NewPtes(q, At(s.pde, q).attr))]);
    AddTab(s.pte, LARGES, s.used, q, t.pte[q]);
    forall p: nat | p / 512 in t.pte
      ensures At(t.pte, p) == if p / 512 == q then Pte(p, Child(At(s.pde, q).attr)) else At(s.pte, p)
    {
      assert p / 512 * 512 + p % 512 == p;
    }
  }

  lemma DescribeLargeKeeps(s: Slat, q: nat, host: bool)
    requires Inv(s) && q < LARGES
    ensures SameMeaning(s, DescribeLarge(s, q, host))
  {
    hide Linked, Pristine, Open, View, At, TabsOk;
    if q !in s.pte {
      var u := s.(used := s.used + 1);
      UnusedPage(s);
      AllocKeeps(s);
      SplitPdpteKeeps(u, q / 512, host, true);
      var d := SplitPdpte(u, q / 512, host, true);
      AddPtesKeeps(d, q, s.used);
      SameMeaningTrans(s, u, d);
      SameMeaningTrans(s, d, DescribeLarge(s, q, host));
    }
  }

  lemma SplitPdeKeeps(s: Slat, q: nat, host: bool, alloc: bool)
    requires Inv(s) && q < LARGES && (host ==> alloc || q in s.pte)
    ensures SameMeaning(s, SplitPde(s, q, host, alloc))
  {
    hide Linked, Pristine, Open, View, At, DescribeLarge, SplitPdpte, LinkPde;
    var d := if alloc then DescribeLarge(s, q, host) else s;
    if alloc { DescribeLargeKeeps(s, q, host); }
    if host {
      var e := SplitPdpte(d, q / 512, true, alloc);
      SplitPdpteKeeps(d, q / 512, true, alloc);
      LinkPdeKeeps(e, q);
      SameMeaningTrans(s, d, e);
      SameMeaningTrans(s, e, LinkPde(e, q));
    }
  }

  lemma SplitHugeWalk(s: Slat, r: nat, p: nat)
    requires Shape(s) && r < HUGES && s.pdpt[r].Leaf? && r !in s.pde
    requires p < PAGES && p / 512 / 512 == r
    ensures Walk(s, p) == Some(Xlat(s.pdpt[r].frame * HUGES + p % HUGES, s.pdpt[r].attr))
    ensures Walk(SplitPdpte(s, r, true, true), p) == Some(Xlat(p, s.pdpt[r].attr))
  {
    var t := SplitPdpte(s, r, true, true);
    TableAtOwn(t.pde, HUGES, t.used, r);
    assert t.pde[r].entries[p / 512 % 512] == Leaf(p / 512, Child(s.pdpt[r].attr));
    hide TableAt, TabsOk, Shape;
  }

  /** Splitting resets the children to identity, so for an arbitrary huge leaf the translations
      survive exactly when the leaf was identity. */
  lemma SplitKeepsHostIffIdentity(s: Slat, r: nat)
    requires Shape(s) && r < HUGES && s.pdpt[r].Leaf? && r !in s.pde
    ensures var t := SplitPdpte(s, r, true, true);
      (forall p :: 0 <= p < PAGES && p / 512 / 512 == r ==> Walk(t, p) == Walk(s, p)) <==> s.pdpt[r].frame == r
  {
    var t, f := SplitPdpte(s, r, true, true), s.pdpt[r].frame;
    hide Walk, SplitPdpte, Shape;
    if f == r {
      forall p | 0 <= p < PAGES && p / 512 / 512 == r ensures Walk(t, p) == Walk(s, p) {
        SplitHugeWalk(s, r, p);
      }
    } else {
      SplitHugeWalk(s, r, r * HUGES);
    }
  }

  // ---- Splitting and the rights above a page ----

  ghost predicate SameAbove(s: Slat, t: Slat)
    requires Shape(s) && Shape(t)
  {
    forall p :: 0 <= p < PAGES ==> Above(t, p) == Above(s, p)
  }

  lemma LinkPdptAbove(s: Slat, r: nat)
    requires Shape(s) && r in s.pde
    ensures SameAbove(s, LinkPdpt(s, r))
  {
  }

  lemma DescribeHugeAbove(s: Slat, r: nat)
    requires Shape(s) && r < HUGES
    ensures SameAbove(s, DescribeHuge(s, r))
  {
    var t := DescribeHuge(s, r);
    forall p | 0 <= p < PAGES ensures Above(t, p) == Above(s, p) {
      if p / 512 / 512 == r && r !in s.pde {
        assert At(t.pde, p / 512) == Leaf(r * 512 + p / 512 % 512, Child(s.pdpt[r].attr));
      }
    }
  }

  lemma LinkPdeAbove(s: Slat, q: nat)
    requires Shape(s) && q in s.pte
    ensures SameAbove(s, LinkPde(s, q))
  {
    PutAt(s.pde, q, Link(At(s.pde, q), s.pte[q].phys), HUGES, s.used);
    hide At, Put;
  }

  lemma SplitPdpteAbove(s: Slat, r: nat, host: bool, alloc: bool)
    requires Shape(s) && r < HUGES && (host ==> alloc || r in s.pde)
    ensures SameAbove(s, SplitPdpte(s, r, host, alloc))
  {
    hide Above, DescribeHuge, LinkPdpt;
    if alloc { DescribeHugeAbove(s, r); }
    if host { LinkPdptAbove(if alloc then DescribeHuge(s, r) else s, r); }
  }

  lemma DescribeLargeAbove(s: Slat, q: nat, host: bool)
    requires Shape(s) && q < LARGES
    ensures SameAbove(s, DescribeLarge(s, q, host))
  {
    hide TabsOk, SplitPdpte, At;
    if q !in s.pte {
      var u := s.(used := s.used + 1);
      assert Shape(u) by { MoreUsed(s); }
      DescribeLargeSteps(s, q, host);
      SplitPdpteAbove(u, q / 512, host, true);
      var d, t := SplitPdpte(u, q / 512, host, true), DescribeLarge(s, q, host);
      assert t.pdpt == d.pdpt && t.pde == d.pde;
      forall p | 0 <= p < PAGES ensures Above(t, p) == Above(s, p) {
        assert Above(t, p) == Above(d, p) == Above(u, p);
      }
    }
  }

  lemma MoreUsed(s: Slat)
    requires Shape(s)
    ensures Shape(s.(used := s.used + 1))
  {
  }

  /** Splitting leaves alone what the levels above the last one grant. */
  lemma SplitPdeAbove(s: Slat, q: nat, host: bool, alloc: bool)
    requires Shape(s) && q < LARGES && (host ==> alloc || q in s.pte)
    ensures SameAbove(s, SplitPde(s, q, host, alloc))
  {
    hide Above, DescribeLarge, SplitPdpte, LinkPde;
    if alloc { DescribeLargeAbove(s, q, host); }
    if host {
      var d := if alloc then DescribeLarge(s, q, host) else s;
      SplitPdpteAbove(d, q / 512, true, alloc);
      LinkPdeAbove(SplitPdpte(d, q / 512, true, alloc), q);
    }
  }

  // ---- Updating one page ----

  /** Overwrites the host page, rights and, when given, the memory type of page p. */
  ghost function UpdatePte(s: Slat, hpa: nat, p: nat, r: bool, w: bool, x: bool, mt: Option<MemType>): (t: Slat)
    requires Shape(s) && p < PAGES
    ensures Shape(t)
  {
    var d := SplitPde(s, p / 512, true, true);
    var old' := At(d.pte, p);
    var e := Pte(hpa, Attr(r, w, x, old'.attr.user, if mt.Some? then mt.value
      else old'.attr.memType, old'.attr.covered));
    SetPte(d, p, e)
  }

  ghost function SetPte(s: Slat, p: nat, e: Pte): (t: Slat)
    requires Shape(s) && p / 512 in s.pte
    ensures Shape(t) && t.pte.Keys == s.pte.Keys && t.pde == s.pde && t.pdpt == s.pdpt
  {
    PutAt(s.pte, p, e, LARGES, s.used);
    s.(pte := Put(s.pte, p, e))
  }

  /** Writing the entry of a page whose walk goes down to its table changes that page alone. */
  lemma SetPteView(s: Slat, p: nat, e: Pte)
    requires Inv(s) && p < PAGES && Resolved(s, p / 512)
    ensures var t := SetPte(s, p, e);
      && Inv(t) && (Open(s) ==> Open(t)) && SameAbove(s, t)
      && View(t, p) == Xlat(e.frame, And(s.pdpt[p / 512 / 512].attr, And(At(s.pde, p / 512).attr, e.attr)))
      && View(t, p) == Xlat(e.frame, And(Above(s, p), e.attr))
      && (forall y :: 0 <= y < PAGES && y != p ==> View(t, y) == View(s, y))
  {
    PutAt(s.pte, p, e, LARGES, s.used);
    hide At, Put;
  }

  /** What updating page p makes of its meaning, under what the levels above it grant. */
  function Updated(x: Xlat, above: Attr, hpa: nat, r: bool, w: bool, ex: bool, mt: Option<MemType>): (y: Xlat) {
    Xlat(hpa, And(above, Attr(r, w, ex, x.attr.user, if mt.Some? then mt.value else x.attr.memType, x.attr.covered)))
  }

  lemma UpdatePteView(s: Slat, hpa: nat, p: nat, r: bool, w: bool, x: bool, mt: Option<MemType>)
    requires Inv(s) && p < PAGES
    ensures var t := UpdatePte(s, hpa, p, r, w, x, mt);
      && Inv(t) && (Open(s) ==> Open(t)) && SameAbove(s, t) && Resolved(t, p / 512)
      && View(t, p) == Updated(View(s, p), Above(s, p), hpa, r, w, x, mt)
      && (forall y :: 0 <= y < PAGES && y != p ==> View(t, y) == View(s, y))
      && s.pde.Keys <= t.pde.Keys && s.pte.Keys <= t.pte.Keys
      && (forall q :: q in s.pte && Resolved(s, q) ==> Resolved(t, q))
  {
    hide Linked, Pristine, Open, At, Put, SplitPde, SetPte, Above;
    SplitPdeKeeps(s, p / 512, true, true);
    SplitPdeAbove(s, p / 512, true, true);
    var d := SplitPde(s, p / 512, true, true);
    var old' := At(d.pte, p);
    var e := Pte(hpa, Attr(r, w, x, old'.attr.user, if mt.Some? then mt.value
      else old'.attr.memType, old'.attr.covered));
    SetPteView(d, p, e);
    ResolvedView(d, p);
    assert UpdatePte(s, hpa, p, r, w, x, mt) == SetPte(d, p, e);
  }

  lemma ResolvedView(s: Slat, p: nat)
    requires Inv(s) && p < PAGES && Resolved(s, p / 512)
    ensures View(s, p) == Xlat(At(s.pte, p).frame, And(Above(s, p), At(s.pte, p).attr))
  {
    hide At, Linked, Pristine, TabsOk;
  }

  datatype Update = Update(hpa: nat, page: nat, read: bool, write: bool, execute: bool, memType: Option<MemType>)

  ghost function UpdateAll(s: Slat, us: seq<Update>): (t: Slat)
    requires Shape(s) && forall u :: u in us ==> u.page < PAGES
    ensures Shape(t)
  {
    if us == [] then s else
    var u, v := us[|us| - 1], UpdateAll(s, us[..|us| - 1]);
    UpdatePte(v, u.hpa, u.page, u.read, u.write, u.execute, u.memType)
  }

  /** The map-level effect on page p: each update of p in turn, nothing else. */
  function MeaningAfter(x: Xlat, above: Attr, us: seq<Update>, p: nat): (y: Xlat) {
    if us == [] then x else
    var u, y := us[|us| - 1], MeaningAfter(x, above, us[..|us| - 1], p);
    if u.page == p then Updated(y, above, u.hpa, u.read, u.write, u.execute, u.memType) else y
  }

  /** Any sequence of updates refines the same sequence of updates of a page map, whatever the
      levels above the last one restrict. */
  lemma {:induction false} UpdatesRefineMap(s: Slat, us: seq<Update>)
    requires Inv(s) && forall u :: u in us ==> u.page < PAGES
    ensures var t := UpdateAll(s, us);
      && Inv(t) && (Open(s) ==> Open(t)) && SameAbove(s, t) && s.pte.Keys <= t.pte.Keys
      && (forall u :: u in us ==> Resolved(t, u.page / 512))
      && (forall p :: 0 <= p < PAGES ==>
            View(t, p) == MeaningAfter(View(s, p), Above(s, p), us, p) && Walk(t, p) == Some(View(t, p)))
  {
    hide Linked, Pristine, Open, View, Above, UpdatePte, Updated, Walk;
    if us != [] {
      UpdatesRefineMap(s, us[..|us| - 1]);
      var u, v := us[|us| - 1], UpdateAll(s, us[..|us| - 1]);
      UpdatePteView(v, u.hpa, u.page, u.read, u.write, u.execute, u.memType);
    }
    forall p | 0 <= p < PAGES ensures Walk(UpdateAll(s, us), p) == Some(View(UpdateAll(s, us), p)) {
      WalkIsView(UpdateAll(s, us), p);
    }
  }

  // ---- Updating a large page ----

  /** Makes 2 MiB region q one large page on host region hq with the given rights. */
  ghost function UpdateLarge(s: Slat, hq: nat, q: nat, r: bool, w: bool, x: bool): (t: Slat)
    requires Shape(s) && q < LARGES
    ensures Shape(t) && t.pte == s.pte
  {
    var d := SplitPdpte(s, q / 512, true, true);
    var a := At(d.pde, q).attr;
    PutAt(d.pde, q, Leaf(hq, Attr(r, w, x, a.user, a.memType, a.covered)), HUGES, d.used);
    d.(pde := Put(d.pde, q, Leaf(hq, Attr(r, w, x, a.user, a.memType, a.covered))))
  }

  lemma SetLargeView(s: Slat, q: nat, a: Attr)
    requires Inv(s) && q < LARGES && q / 512 in s.pde && q !in s.pte && s.pdpt[q / 512].Table?
    ensures var t := s.(pde := Put(s.pde, q, Leaf(q, a)));
      && Inv(t) && At(s.pde, q).Leaf? && (!Grants(a) ==> !Open(t))
      && (forall y :: 0 <= y < PAGES && y / 512 != q ==> View(t, y) == View(s, y) && Above(t, y) == Above(s, y))
      && (forall y :: 0 <= y < PAGES && y / 512 == q ==>
            && View(t, y) == Xlat(y, And(s.pdpt[q / 512].attr, a))
            && Above(t, y) == And(And(s.pdpt[q / 512].attr, Full(0, false)), And(a, Full(0, false))))
  {
    PutAt(s.pde, q, Leaf(q, a), HUGES, s.used);
    hide At, Put;
  }

  /** For an identity region without a PTE table this changes the rights of that region alone. */
  lemma UpdateLargeView(s: Slat, q: nat, r: bool, w: bool, x: bool)
    requires Inv(s) && q < LARGES && q !in s.pte
    ensures var t, a := UpdateLarge(s, q, q, r, w, x), s.pdpt[q / 512].attr;
      && Inv(t) && (!(r && w && x) ==> !Open(t))
      && (forall y :: 0 <= y < PAGES && y / 512 != q ==> View(t, y) == View(s, y) && Above(t, y) == Above(s, y))
      && (forall y :: 0 <= y < PAGES && y / 512 == q ==>
            && View(t, y) == Updated(View(s, y), a, y, r, w, x, None)
            && Above(t, y) == And(View(t, y).attr, Full(0, false)))
  {
    hide SplitPdpte, Linked, Pristine, Open, Above, At, Put, View;
    SplitPdpteKeeps(s, q / 512, true, true);
    SplitPdpteAbove(s, q / 512, true, true);
    var d := SplitPdpte(s, q / 512, true, true);
    LargeLeafView(d, q);
    var a := At(d.pde, q).attr;
    var t := d.(pde := Put(d.pde, q, Leaf(q, Attr(r, w, x, a.user, a.memType, a.covered))));
    SetLargeView(d, q, Attr(r, w, x, a.user, a.memType, a.covered));
    SplitHugeRights(s, q / 512);
    assert UpdateLarge(s, q, q, r, w, x) == t;
    hide UpdateLarge, Inv, And, Updated, Full;
    forall y | 0 <= y < PAGES && y / 512 == q
      ensures View(t, y) == Updated(View(s, y), s.pdpt[q / 512].attr, y, r, w, x, None)
      ensures Above(t, y) == And(View(t, y).attr, Full(0, false))
    {
      LargeRights(View(s, y), s.pdpt[q / 512].attr, a, y, r, w, x);
    }
  }

  lemma LargeRights(v: Xlat, up: Attr, a: Attr, y: nat, r: bool, w: bool, x: bool)
    requires v == Xlat(y, And(up.(memType := 0), a))
    ensures var e, low := Attr(r, w, x, a.user, a.memType, a.covered), up.(memType := 0);
      && Xlat(y, And(low, e)) == Updated(v, up, y, r, w, x, None)
      && And(And(low, Full(0, false)), And(e, Full(0, false))) == And(And(low, e), Full(0, false))
  {
  }

  lemma LargeLeafView(s: Slat, q: nat)
    requires Inv(s) && q < LARGES && q / 512 in s.pde && q !in s.pte && s.pdpt[q / 512].Table?
    ensures forall y :: 0 <= y < PAGES && y / 512 == q ==>
      View(s, y) == Xlat(y, And(s.pdpt[q / 512].attr, At(s.pde, q).attr))
  {
    hide At;
  }

  lemma SplitHugeRights(s: Slat, r: nat)
    requires Shape(s) && r < HUGES
    ensures var a, b := s.pdpt[r].attr, SplitPdpte(s, r, true, true).pdpt[r].attr;
      b == a.(memType := 0)
  {
    hide TabsOk;
  }

  // ---- The map as built ----

  ghost function Fresh(t: MemType): (s: Slat) {
    Slat(seq(HUGES, k requires 0 <= k => Leaf(k, Full(t, false))), map[], map[], 0)
  }

  lemma FreshMeaning(t: MemType)
    ensures Inv(Fresh(t)) && Open(Fresh(t))
    ensures forall p :: 0 <= p < PAGES ==> View(Fresh(t), p) == Xlat(p, Full(t, false))
  {
    var s := Fresh(t);
    assert forall r :: 0 <= r < HUGES ==> s.pdpt[r] == Leaf(r, Full(t, false));
    forall r | 0 <= r < HUGES ensures Grants(s.pdpt[r].attr) {
      assert s.pdpt[r] == Leaf(r, Full(t, false));
    }
    forall p | 0 <= p < PAGES ensures View(s, p) == Xlat(p, Full(t, false)) {
      assert s.pdpt[p / 512 / 512] == Leaf(p / 512 / 512, Full(t, false));
    }
  }
}
