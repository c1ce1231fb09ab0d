/**
  The two nested page tables behind stealthy inline hooks on AMD: in the primary view a hooked
  page cannot be executed, in the secondary view nothing else can.
*/
module HookViews {
  import opened Descriptors
  import opened IdentityMap
  import opened EptMemoryType

  /** A hooked page and the page that holds its patched copy. */
  datatype Hook = Hook(orig: nat, copy: nat)

  predicate HooksOk(hooks: seq<Hook>) {
    forall i :: 0 <= i < |hooks| ==> hooks[i].orig < PAGES
  }

  predicate Hooked(hooks: seq<Hook>, p: nat) {
    exists i :: 0 <= i < |hooks| && hooks[i].orig == p
  }

  // ---- The first step: one PTE update for each hook ----

  /** What a view does with a hook: the host page it maps and the rights it gives. */
  datatype Rule = Rule(useCopy: bool, read: bool, write: bool, execute: bool)

  function HookUpdate(h: Hook, rule: Rule): (u: Update) {
    Update(if rule.useCopy then h.copy else h.orig, h.orig, rule.read, rule.write, rule.execute, None)
  }

  function HookUpdates(hooks: seq<Hook>, rule: Rule): (us: seq<Update>)
    requires HooksOk(hooks)
    ensures |us| == |hooks| && forall i :: 0 <= i < |us| ==> us[i] == HookUpdate(hooks[i], rule)
    ensures forall u :: u in us ==> u.page < PAGES
  {
    seq(|hooks|, i requires 0 <= i < |hooks| => HookUpdate(hooks[i], rule))
  }

  /** What the hook does to its page's meaning. */
  function Ruled(x: Xlat, h: Hook, rule: Rule): (y: Xlat) {
    Updated(x, Full(0, false), if rule.useCopy then h.copy else h.orig, rule.read, rule.write, rule.execute, None)
  }

  /** One of the hooks for page p, if it has any, decides what becomes of the page. */
  lemma {:induction false} HookMeaning(x: Xlat, hooks: seq<Hook>, rule: Rule, p: nat)
    requires HooksOk(hooks)
    ensures var y := MeaningAfter(x, Full(0, false), HookUpdates(hooks, rule), p);
      if Hooked(hooks, p) then exists i :: 0 <= i < |hooks| && hooks[i].orig == p && y == Ruled(x, hooks[i], rule)
      else y == x
  {
    if hooks != [] {
      var n := |hooks| - 1;
      HookMeaning(x, hooks[..n], rule, p);
      assert HookUpdates(hooks, rule)[..n] == HookUpdates(hooks[..n], rule);
      assert forall i :: 0 <= i < n ==> hooks[..n][i] == hooks[i];
      assert Hooked(hooks, p) <==> Hooked(hooks[..n], p) || hooks[n].orig == p;
    }
  }

  lemma UpdateTight(s: Slat, u: Update)
    requires Tight(s) && u.page < PAGES
    ensures Tight(UpdatePte(s, u.hpa, u.page, u.read, u.write, u.execute, u.memType))
  {
    hide Linked, Pristine, View, Open, At, Put, SetPte, SplitPde;
    HostSplitTight(s, u.page / 512);
    var d := SplitPde(s, u.page / 512, true, true);
    var a := At(d.pte, u.page).attr;
    SetPteView(d, u.page, Pte(u.hpa,
      Attr(u.read, u.write, u.execute, a.user, if u.memType.Some? then u.memType.value else a.memType, a.covered)));
  }

  lemma {:induction false} UpdateAllTight(s: Slat, us: seq<Update>)
    requires Tight(s) && forall u :: u in us ==> u.page < PAGES
    ensures Tight(UpdateAll(s, us))
  {
    hide Linked, Pristine, LinkedBut, UpdatePte;
    if us != [] {
      UpdateAllTight(s, us[..|us| - 1]);
      UpdateTight(UpdateAll(s, us[..|us| - 1]), us[|us| - 1]);
    }
  }

  // ---- The second step: veil the secondary view ----

  function Nx(a: Attr, x: bool): (b: Attr) {
    a.(execute := x)
  }

  function EntryNx(e: Entry, x: bool): (f: Entry) {
    e.(attr := Nx(e.attr, x))
  }

  function NxEntry(e: Entry): (f: Entry) {
    EntryNx(e, false)
  }

  /** Only huge leaves lose execution at the top level. */
  function NxHuge(e: Entry): (f: Entry) {
    if e.Leaf? then NxEntry(e) else e
  }

  function NxPte(e: Pte): (f: Pte) {
    e.(attr := Nx(e.attr, false))
  }

  ghost function Veil(s: Slat): (u: Slat)
    requires Shape(s)
    ensures Shape(u) && u.pte.Keys == s.pte.Keys
  {
    Slat(MapSeq(s.pdpt, NxHuge), MapTabs(s.pde, NxEntry), MapTabs(s.pte, NxPte), s.used)
  }

  /** A table entry up to its type bits, which the walk ignores. */
  function Norm(e: Entry): (f: Entry) {
    if e.Table? then Table(e.phys, e.attr.(memType := 0, covered := false)) else e
  }

  predicate Near(pages: set<nat>, q: nat) {
    exists h :: h in pages && h / 512 == q
  }

  ghost predicate VeiledPdptes(s: Slat, u: Slat)
    requires Shape(s) && Shape(u)
  {
    forall r :: 0 <= r < HUGES ==> Norm(u.pdpt[r]) == if s.pdpt[r].Leaf? then NxEntry(s.pdpt[r]) else Norm(s.pdpt[r])
  }

  ghost predicate VeiledPdes(s: Slat, u: Slat, pages: set<nat>)
    requires Shape(s) && Shape(u) && u.pde.Keys == s.pde.Keys
  {
    forall q: nat :: q / 512 in s.pde ==> Norm(At(u.pde, q)) == Norm(EntryNx(At(s.pde, q), Near(pages, q)))
  }

  ghost predicate VeiledPtes(s: Slat, u: Slat, pages: set<nat>)
    requires Shape(s) && Shape(u) && u.pte.Keys == s.pte.Keys
  {
    forall p: nat :: p / 512 in s.pte ==> At(u.pte, p) == Pte(At(s.pte, p).frame, Nx(At(s.pte, p).attr, p in pages))
  }

  /** u is s with execution left on the pages given, on their PDEs, and on linked PDPTEs. */
  ghost predicate Veiled(s: Slat, u: Slat, pages: set<nat>)
    requires Shape(s)
  {
    && Tight(u) && u.pde.Keys == s.pde.Keys && u.pte.Keys == s.pte.Keys
    && VeiledPdptes(s, u) && VeiledPdes(s, u, pages) && VeiledPtes(s, u, pages)
  }

  lemma VeilTight(s: Slat)
    requires Tight(s)
    ensures Tight(Veil(s))
  {
    hide At, Veil, View, Linked;
    VeilEntries(s);
    VeilLinked(s);
  }

  lemma VeilLinked(s: Slat)
    requires Tight(s)
    ensures Linked(Veil(s)) && LinkedBut(Veil(s), {})
  {
    hide At, Veil, Pristine;
    VeilEntries(s);
  }

  lemma VeilVeils(s: Slat)
    requires Tight(s)
    ensures Veiled(s, Veil(s), {})
  {
    VeilTight(s);
    VeilEntries(s);
    hide At, Veil, Tight, TabsOk;
  }

  lemma VeilEntries(s: Slat)
    requires Shape(s)
    ensures var u := Veil(s);
      && u.pde.Keys == s.pde.Keys && u.pte.Keys == s.pte.Keys
      && (forall r :: 0 <= r < HUGES ==> u.pdpt[r] == NxHuge(s.pdpt[r]))
      && (forall r :: r in s.pde ==> u.pde[r].phys == s.pde[r].phys)
      && (forall q :: q in s.pte ==> u.pte[q].phys == s.pte[q].phys)
      && (forall q: nat :: q / 512 in s.pde ==> At(u.pde, q) == NxEntry(At(s.pde, q)))
      && (forall p: nat :: p / 512 in s.pte ==> At(u.pte, p) == NxPte(At(s.pte, p)))
  {
  }

  // ---- The third step: admit the hooked pages one by one ----

  function Rights(a: Attr, r: bool, w: bool, x: bool): (b: Attr) {
    a.(read := r, write := w, execute := x)
  }

  function WithRights(e: Entry, r: bool, w: bool, x: bool): (f: Entry) {
    e.(attr := Rights(e.attr, r, w, x))
  }

  /** Points the PDPTE of region r at its table, with the rights given. */
  ghost function SetPdpteTable(s: Slat, r: nat, rd: bool, wr: bool, ex: bool): (t: Slat)
    requires Shape(s) && r < HUGES
    ensures Shape(t) && t.pte == s.pte && t.pde.Keys == s.pde.Keys + {r}
  {
    var d := SplitPdpte(s, r, true, true);
    d.(pdpt := d.pdpt[r := Table(d.pde[r].phys, Rights(d.pdpt[r].attr, rd, wr, ex))])
  }

  /** Points the PDE of region q at its table, with the rights given. */
  ghost function SetPdeTable(s: Slat, q: nat, rd: bool, wr: bool, ex: bool): (t: Slat)
    requires Shape(s) && q < LARGES
    ensures Shape(t) && t.pte.Keys == s.pte.Keys + {q}
  {
    var d := SplitPde(SplitPdpte(s, q / 512, true, true), q, true, true);
    SetLarge(d, q, Table(d.pte[q].phys, Rights(At(d.pde, q).attr, rd, wr, ex)))
  }

  ghost function Admit(u: Slat, h: nat): (v: Slat)
    requires Shape(u) && h < PAGES && h / 512 in u.pte
    ensures Shape(v) && h / 512 in v.pte
  {
    var d := SetPdeTable(u, h / 512, true, true, true);
    var e := SetPte(d, h, Pte(At(d.pte, h).frame, Nx(At(d.pte, h).attr, true)));
    var f := SetPdpteTable(e, h / 512 / 512, true, true, true);
    SetLarge(f, h / 512, EntryNx(At(f.pde, h / 512), true))
  }

  /** Entries by level: PDPTEs by 1 GiB region, PDEs by 2 MiB region, PTEs by page. */
  datatype Diff = Diff(pdptes: set<nat>, pdes: set<nat>, ptes: set<nat>) {
    predicate Within(d: Diff) {
      pdptes <= d.pdptes && pdes <= d.pdes && ptes <= d.ptes
    }
  }

  const NONE := Diff({}, {}, {})

  /** The same tables, and the same entries but for those in d. */
  ghost predicate Agree(u: Slat, v: Slat, d: Diff)
    requires Shape(u)
  {
    && Tight(v) && u.pde.Keys == v.pde.Keys && u.pte.Keys == v.pte.Keys
    && (forall x :: x in u.pde ==> v.pde[x].phys == u.pde[x].phys)
    && (forall x :: x in u.pte ==> v.pte[x].phys == u.pte[x].phys)
    && (forall x :: 0 <= x < HUGES && x !in d.pdptes ==> Norm(v.pdpt[x]) == Norm(u.pdpt[x]))
    && (forall x: nat :: x / 512 in u.pde && x !in d.pdes ==> Norm(At(v.pde, x)) == Norm(At(u.pde, x)))
    && (forall x: nat :: x / 512 in u.pte && x !in d.ptes ==> At(v.pte, x) == At(u.pte, x))
  }

  lemma RelinkPdpte(u: Slat, r: nat)
    requires Tight(u) && r in u.pde
    ensures var d := SplitPdpte(u, r, true, true);
      Agree(u, d, NONE) && d.pde == u.pde && d == LinkPdpt(u, r) && d.pdpt[r].Table? && d.pdpt[r].phys == d.pde[r].phys
  {
    hide At;
    HostSplitHugeTight(u, r);
  }

  lemma AgreeKeys(u: Slat, v: Slat, d: Diff)
    requires Shape(u) && Agree(u, v, d)
    ensures Tight(v) && u.pde.Keys == v.pde.Keys && u.pte.Keys == v.pte.Keys
  {
  }

  lemma AgreePdpt(u: Slat, v: Slat, d: Diff, x: nat)
    requires Shape(u) && Agree(u, v, d) && x < HUGES && x !in d.pdptes
    ensures Norm(v.pdpt[x]) == Norm(u.pdpt[x])
  {
  }

  lemma AgreePde(u: Slat, v: Slat, d: Diff, x: nat)
    requires Shape(u) && Agree(u, v, d) && x / 512 in u.pde && x !in d.pdes
    ensures Norm(At(v.pde, x)) == Norm(At(u.pde, x))
  {
  }

  lemma AgreePte(u: Slat, v: Slat, d: Diff, x: nat)
    requires Shape(u) && Agree(u, v, d) && x / 512 in u.pte && x !in d.ptes
    ensures At(v.pte, x) == At(u.pte, x)
  {
  }

  lemma NormRights(e: Entry, f: Entry, r: bool, w: bool, x: bool)
    requires Norm(e) == Norm(f)
    ensures Norm(WithRights(e, r, w, x)) == Norm(WithRights(f, r, w, x))
    ensures Norm(EntryNx(e, x)) == Norm(EntryNx(f, x)) && EntryNx(WithRights(e, r, w, x), x) == WithRights(e, r, w, x)
  {
  }

  lemma AgreeTrans(u: Slat, v: Slat, w: Slat, a: Diff, b: Diff, c: Diff)
    requires Shape(u) && Agree(u, v, a) && Agree(v, w, b) && a.Within(c) && b.Within(c)
    ensures Agree(u, w, c)
  {
    hide Tight, At, TabsOk;
  }

  lemma SplitDescribed(u: Slat, q: nat)
    requires Shape(u) && q in u.pte
    ensures SplitPde(u, q, true, true) == LinkPde(SplitPdpte(u, q / 512, true, true), q)
  {
    hide LinkPde, SplitPdpte;
  }

  lemma TightTable(u: Slat, q: nat)
    requires Tight(u) && q in u.pte
    ensures At(u.pde, q).Table? && At(u.pde, q).phys == u.pte[q].phys
  {
  }

  lemma RelinkPde(u: Slat, q: nat)
    requires Tight(u) && q in u.pte
    ensures var d := SplitPde(u, q, true, true);
      Agree(u, d, NONE) && At(d.pde, q).Table? && At(d.pde, q).phys == d.pte[q].phys
  {
    hide Linked, Pristine, LinkedBut, View, Open, SplitPdpte, LinkPde, SplitPde, At, Norm;
    var e := SplitPdpte(u, q / 512, true, true);
    HostSplitTight(u, q);
    RelinkPdpte(u, q / 512);
    SplitDescribed(u, q);
    TightTable(e, q);
    RelinkPdeEntries(e, q);
    TightTable(LinkPde(e, q), q);
    AgreeTrans(u, e, LinkPde(e, q), NONE, NONE, NONE);
  }

  lemma RelinkPdeEntries(u: Slat, q: nat)
    requires Tight(u) && q in u.pte
    ensures var d := LinkPde(u, q);
      && d.pte == u.pte && d.pdpt == u.pdpt && d.pde.Keys == u.pde.Keys
        && At(d.pde, q) == Link(At(u.pde, q), u.pte[q].phys)
      && (forall x :: x in u.pde ==> d.pde[x].phys == u.pde[x].phys)
      && (forall x: nat :: x / 512 in u.pde ==> Norm(At(d.pde, x)) == Norm(At(u.pde, x)))
  {
    PutAt(u.pde, q, Link(At(u.pde, q), u.pte[q].phys), HUGES, u.used);
    hide At, Put;
  }

  lemma SetLargeTight(u: Slat, q: nat, e: Entry)
    requires Tight(u) && q in u.pte && e.Table? && e.phys == u.pte[q].phys
    ensures Agree(u, SetLarge(u, q, e), Diff({}, {q}, {})) && At(SetLarge(u, q, e).pde, q) == e
  {
    PutAt(u.pde, q, e, HUGES, u.used);
    hide At, Put;
    var v := SetLarge(u, q, e);
    assert Linked(v);
  }

  lemma SetPdeTableAgree(u: Slat, q: nat, rd: bool, wr: bool, ex: bool)
    requires Tight(u) && q in u.pte
    ensures var v := SetPdeTable(u, q, rd, wr, ex);
      Agree(u, v, Diff({}, {q}, {})) && Norm(At(v.pde, q)) == Norm(WithRights(At(u.pde, q), rd, wr, ex))
  {
    hide Linked, Pristine, LinkedBut, SplitPdpte, SplitPde, SetLarge, At, Agree, Norm;
    var c := SplitPdpte(u, q / 512, true, true);
    RelinkPdpte(u, q / 512);
    AgreeKeys(u, c, NONE);
    var d := SplitPde(c, q, true, true);
    RelinkPde(c, q);
    AgreeTrans(u, c, d, NONE, NONE, NONE);
    AgreeKeys(u, d, NONE);
    AgreePde(u, d, NONE, q);
    SetLargeTight(d, q, WithRights(At(d.pde, q), rd, wr, ex));
    AgreeTrans(u, d, SetLarge(d, q, WithRights(At(d.pde, q), rd, wr, ex)), NONE, Diff({}, {q}, {}), Diff({}, {q}, {}));
    NormRights(At(u.pde, q), At(d.pde, q), rd, wr, ex);
  }

  lemma SetPteAgree(u: Slat, p: nat, e: Pte)
    requires Tight(u) && p < PAGES && p / 512 in u.pte
    ensures Agree(u, SetPte(u, p, e), Diff({}, {}, {p})) && At(SetPte(u, p, e).pte, p) == e
  {
    TightTable(u, p / 512);
    PutAt(u.pte, p, e, LARGES, u.used);
    hide At, Put;
    var v := SetPte(u, p, e);
    assert Linked(v);
  }

  lemma SetPdpteTableAgree(u: Slat, r: nat, rd: bool, wr: bool, ex: bool)
    requires Tight(u) && r in u.pde
    ensures var v := SetPdpteTable(u, r, rd, wr, ex);
      Agree(u, v, Diff({r}, {}, {})) && Norm(v.pdpt[r]) == Norm(WithRights(u.pdpt[r], rd, wr, ex))
  {
    hide At, SplitPdpte;
    RelinkPdpte(u, r);
    var d := SplitPdpte(u, r, true, true);
    SetTopTight(d, r, WithRights(d.pdpt[r], rd, wr, ex));
    hide Linked, Pristine, LinkedBut;
  }

  lemma SetTopTight(u: Slat, r: nat, e: Entry)
    requires Tight(u) && r in u.pde && e.Table? && e.phys == u.pde[r].phys
    ensures Agree(u, u.(pdpt := u.pdpt[r := e]), Diff({r}, {}, {}))
  {
    hide At;
    assert Linked(u.(pdpt := u.pdpt[r := e]));
  }

  lemma AdmitLower(u: Slat, h: nat)
    requires Tight(u) && h < PAGES && h / 512 in u.pte
    ensures var d := SetPdeTable(u, h / 512, true, true, true);
      var e := SetPte(d, h, Pte(At(d.pte, h).frame, Nx(At(d.pte, h).attr, true)));
      && Agree(u, e, Diff({}, {h / 512}, {h}))
      && Norm(At(e.pde, h / 512)) == Norm(WithRights(At(u.pde, h / 512), true, true, true))
      && At(e.pte, h) == Pte(At(u.pte, h).frame, Nx(At(u.pte, h).attr, true))
  {
    hide Linked, Pristine, LinkedBut, SetPdeTable, SetPte, At, Agree, Norm;
    var q := h / 512;
    var d := SetPdeTable(u, q, true, true, true);
    SetPdeTableAgree(u, q, true, true, true);
    AgreeKeys(u, d, Diff({}, {q}, {}));
    AgreePte(u, d, Diff({}, {q}, {}), h);
    var t := Pte(At(d.pte, h).frame, Nx(At(d.pte, h).attr, true));
    SetPteAgree(d, h, t);
    AgreePde(d, SetPte(d, h, t), Diff({}, {}, {h}), q);
    AgreeTrans(u, d, SetPte(d, h, t), Diff({}, {q}, {}), Diff({}, {}, {h}), Diff({}, {q}, {h}));
  }

  lemma AdmitUpper(e: Slat, h: nat)
    requires Tight(e) && h < PAGES && h / 512 in e.pte
    ensures var f := SetPdpteTable(e, h / 512 / 512, true, true, true);
      var g := SetLarge(f, h / 512, EntryNx(At(f.pde, h / 512), true));
      && Agree(e, g, Diff({h / 512 / 512}, {h / 512}, {}))
      && Norm(g.pdpt[h / 512 / 512]) == Norm(WithRights(e.pdpt[h / 512 / 512], true, true, true))
      && Norm(At(g.pde, h / 512)) == Norm(EntryNx(At(e.pde, h / 512), true))
  {
    hide Linked, Pristine, LinkedBut, SetPdpteTable, SetLarge, At, Agree, Norm, WithRights;
    var r, q := h / 512 / 512, h / 512;
    var f := SetPdpteTable(e, r, true, true, true);
    SetPdpteTableAgree(e, r, true, true, true);
    AgreeKeys(e, f, Diff({r}, {}, {}));
    AgreePde(e, f, Diff({r}, {}, {}), q);
    TightTable(f, q);
    var g := SetLarge(f, q, EntryNx(At(f.pde, q), true));
    SetLargeTight(f, q, EntryNx(At(f.pde, q), true));
    AgreePdpt(f, g, Diff({}, {q}, {}), r);
    AgreeTrans(e, f, g, Diff({r}, {}, {}), Diff({}, {q}, {}), Diff({r}, {q}, {}));
    NormRights(At(e.pde, q), At(f.pde, q), true, true, true);
  }

  lemma Sized(s: Slat, h: nat)
    requires Shape(s) && h / 512 in s.pte
    ensures |s.pte[h / 512].entries| == ENTRIES && h / 512 / 512 in s.pde && |s.pde[h / 512 / 512].entries| == ENTRIES
  {
  }

  /** Admitting page h rewrites the rights of its PDPTE, its PDE and its PTE and nothing else. */
  lemma AdmitAgree(u: Slat, h: nat)
    requires Tight(u) && h < PAGES && h / 512 in u.pte
    ensures var v := Admit(u, h);
      && Agree(u, v, Diff({h / 512 / 512}, {h / 512}, {h}))
      && Norm(v.pdpt[h / 512 / 512]) == Norm(WithRights(u.pdpt[h / 512 / 512], true, true, true))
      && Norm(At(v.pde, h / 512)) == Norm(WithRights(At(u.pde, h / 512), true, true, true))
      && At(v.pte, h) == Pte(At(u.pte, h).frame, Nx(At(u.pte, h).attr, true))
  {
    hide Linked, Pristine, LinkedBut, TabsOk, SetPdeTable, SetPte, SetPdpteTable, SetLarge, At, Agree, Norm;
    var r, q := h / 512 / 512, h / 512;
    var d := SetPdeTable(u, q, true, true, true);
    Sized(u, h);
    Sized(d, h);
    var e := SetPte(d, h, Pte(At(d.pte, h).frame, Nx(At(d.pte, h).attr, true)));
    Sized(e, h);
    AdmitLower(u, h);
    AgreeKeys(u, e, Diff({}, {q}, {h}));
    AgreePdpt(u, e, Diff({}, {q}, {h}), r);
    NormRights(e.pdpt[r], u.pdpt[r], true, true, true);
    AdmitUpper(e, h);
    AgreePte(e, Admit(u, h), Diff({r}, {q}, {}), h);
    NormRights(At(e.pde, q), WithRights(At(u.pde, q), true, true, true), true, true, true);
    NormRights(At(u.pde, q), At(u.pde, q), true, true, true);
    AgreeTrans(u, e, Admit(u, h), Diff({}, {q}, {h}), Diff({r}, {q}, {}), Diff({r}, {q}, {h}));
  }

  lemma AdmitVeils(s: Slat, u: Slat, pages: set<nat>, h: nat)
    requires Tight(s) && Open(s) && Veiled(s, u, pages) && h < PAGES && h / 512 in s.pte
    ensures Veiled(s, Admit(u, h), pages + {h})
  {
    hide Linked, Pristine, LinkedBut, TabsOk, Admit, At, Open, VeiledPdptes, VeiledPdes, VeiledPtes, Norm, Agree;
    var v := Admit(u, h);
    var d := Diff({h / 512 / 512}, {h / 512}, {h});
    AdmitAgree(u, h);
    AgreeKeys(u, v, d);
    AdmitPdptes(s, u, v, pages, h, d);
    AdmitPdes(s, u, v, pages, h, d);
    AdmitPtes(s, u, v, pages, h, d);
  }

  lemma AdmitPdptes(s: Slat, u: Slat, v: Slat, pages: set<nat>, h: nat, d: Diff)
    requires Tight(s) && Open(s) && Veiled(s, u, pages) && h < PAGES && h / 512 in s.pte && d.pdptes == {h / 512 / 512}
    requires Agree(u, v, d) && Norm(v.pdpt[h / 512 / 512]) == Norm(WithRights(u.pdpt[h / 512 / 512], true, true, true))
    ensures VeiledPdptes(s, v)
  {
    AdmitPdpte(s, u, v, pages, h);
    hide Linked, Pristine, LinkedBut, At, TabsOk, Open;
  }

  lemma AdmitPdes(s: Slat, u: Slat, v: Slat, pages: set<nat>, h: nat, d: Diff)
    requires Tight(s) && Open(s) && Veiled(s, u, pages) && h < PAGES && h / 512 in s.pte && d.pdes == {h / 512}
    requires Agree(u, v, d) && Norm(At(v.pde, h / 512)) == Norm(WithRights(At(u.pde, h / 512), true, true, true))
    ensures VeiledPdes(s, v, pages + {h})
  {
    hide Linked, Pristine, LinkedBut, At, Near, Open, Norm, Agree, View, VeiledPdptes, VeiledPtes;
    AgreeKeys(u, v, d);
    NearGrows(pages, h);
    AdmitPde(s, u, v, pages, h);
    forall q: nat | q / 512 in s.pde ensures Norm(At(v.pde, q)) == Norm(EntryNx(At(s.pde, q), Near(pages + {h}, q))) {
      if q != h / 512 { AgreePde(u, v, d, q); }
    }
  }

  lemma AdmitPtes(s: Slat, u: Slat, v: Slat, pages: set<nat>, h: nat, d: Diff)
    requires Tight(s) && Veiled(s, u, pages) && h / 512 in s.pte && d.ptes == {h}
    requires Agree(u, v, d) && At(v.pte, h) == Pte(At(u.pte, h).frame, Nx(At(u.pte, h).attr, true))
    ensures VeiledPtes(s, v, pages + {h})
  {
    hide Linked, Pristine, LinkedBut, At;
  }

  lemma NearGrows(pages: set<nat>, h: nat)
    ensures forall q :: Near(pages + {h}, q) <==> Near(pages, q) || q == h / 512
  {
    forall q ensures Near(pages + {h}, q) <==> Near(pages, q) || q == h / 512 {
      if Near(pages, q) {
        var x :| x in pages && x / 512 == q;
        assert x in pages + {h};
      }
      if q == h / 512 { assert h in pages + {h}; }
    }
  }

  lemma AdmitPdpte(s: Slat, u: Slat, v: Slat, pages: set<nat>, h: nat)
    requires Tight(s) && Open(s) && Veiled(s, u, pages) && h < PAGES && h / 512 in s.pte && Shape(v)
    requires Norm(v.pdpt[h / 512 / 512]) == Norm(WithRights(u.pdpt[h / 512 / 512], true, true, true))
    ensures Norm(v.pdpt[h / 512 / 512]) == Norm(s.pdpt[h / 512 / 512]) && s.pdpt[h / 512 / 512].Table?
  {
    assert Grants(s.pdpt[h / 512 / 512].attr);
    NormRights(s.pdpt[h / 512 / 512], u.pdpt[h / 512 / 512], true, true, true);
    hide Linked, Pristine;
  }

  lemma AdmitPde(s: Slat, u: Slat, v: Slat, pages: set<nat>, h: nat)
    requires Tight(s) && Open(s) && Veiled(s, u, pages) && h < PAGES && h / 512 in s.pte && Shape(v)
      && h / 512 / 512 in v.pde
    requires Norm(At(v.pde, h / 512)) == Norm(WithRights(At(u.pde, h / 512), true, true, true))
    ensures Norm(At(v.pde, h / 512)) == Norm(EntryNx(At(s.pde, h / 512), true))
  {
    var e := At(s.pde, h / 512);
    assert Grants(e.attr);
    NormRights(EntryNx(e, Near(pages, h / 512)), At(u.pde, h / 512), true, true, true);
    hide Linked, Pristine, LinkedBut;
  }

  // ---- The two views ----

  ghost predicate Described(u: Slat, hooks: seq<Hook>) {
    forall i :: 0 <= i < |hooks| ==> hooks[i].orig / 512 in u.pte
  }

  ghost function AdmitAll(u: Slat, hooks: seq<Hook>): (v: Slat)
    requires Shape(u) && HooksOk(hooks) && Described(u, hooks)
    ensures Shape(v) && u.pte.Keys <= v.pte.Keys
  {
    if hooks == [] then u else
    Admit(AdmitAll(u, hooks[..|hooks| - 1]), hooks[|hooks| - 1].orig)
  }

  function Pages(hooks: seq<Hook>): (ps: set<nat>)
    ensures forall p: nat :: p in ps <==> Hooked(hooks, p)
  {
    set i | 0 <= i < |hooks| :: hooks[i].orig
  }

  lemma {:induction false} AdmitAllVeils(s: Slat, hooks: seq<Hook>)
    requires Tight(s) && Open(s) && HooksOk(hooks) && Described(s, hooks)
    ensures Veiled(s, AdmitAll(Veil(s), hooks), Pages(hooks))
  {
    hide Linked, Pristine, LinkedBut, TabsOk, Open, Veil, Veiled, Admit;
    if hooks == [] {
      VeilVeils(s);
      assert Pages(hooks) == {};
    } else {
      var n := |hooks| - 1;
      AdmitAllVeils(s, hooks[..n]);
      AdmitVeils(s, AdmitAll(Veil(s), hooks[..n]), Pages(hooks[..n]), hooks[n].orig);
      assert Pages(hooks) == Pages(hooks[..n]) + {hooks[n].orig};
    }
  }

  /** Veiled but for pages that go down to their own PTE, a map keeps every translation and
      grants execution to exactly those pages. */
  lemma VeiledMeaning(s: Slat, u: Slat, pages: set<nat>, p: nat)
    requires Tight(s) && Open(s) && Veiled(s, u, pages) && p < PAGES
    requires forall h :: h in pages ==> 0 <= h / 512 && h / 512 in s.pte && At(s.pte, h).attr.execute
    ensures View(u, p) == Xlat(View(s, p).host, Nx(View(s, p).attr, p in pages))
  {
    var r, q := p / 512 / 512, p / 512;
    assert Grants(s.pdpt[r].attr);
    if s.pdpt[r].Leaf? {
      assert r !in s.pde;
    } else {
      assert r in s.pde && Grants(At(s.pde, q).attr);
      if At(s.pde, q).Leaf? {
        assert q !in s.pte;
      } else {
        assert q in s.pte;
      }
    }
    hide Linked, Pristine, LinkedBut, TabsOk, At;
  }

  const PRIMARY := Rule(false, true, true, false)
  const SECONDARY := Rule(true, true, true, true)

  lemma UpdateDescribes(s: Slat, u: Update)
    requires Shape(s) && u.page < PAGES
    ensures UpdatePte(s, u.hpa, u.page, u.read, u.write, u.execute, u.memType).pte.Keys == s.pte.Keys + {u.page / 512}
  {
    hide TabsOk, SplitPde, SetPte;
  }

  lemma {:induction false} UpdatesDescribe(s: Slat, hooks: seq<Hook>, rule: Rule)
    requires Shape(s) && HooksOk(hooks)
    ensures Described(UpdateAll(s, HookUpdates(hooks, rule)), hooks)
    ensures s.pte.Keys <= UpdateAll(s, HookUpdates(hooks, rule)).pte.Keys
  {
    hide Shape, UpdatePte;
    if hooks != [] {
      var n := |hooks| - 1;
      UpdatesDescribe(s, hooks[..n], rule);
      UpdateDescribes(UpdateAll(s, HookUpdates(hooks[..n], rule)), HookUpdate(hooks[n], rule));
      assert HookUpdates(hooks, rule)[..n] == HookUpdates(hooks[..n], rule);
      assert forall i :: 0 <= i < n ==> hooks[..n][i] == hooks[i];
    }
  }

  ghost function PrimaryMap(s: Slat, hooks: seq<Hook>): (t: Slat)
    requires Shape(s) && HooksOk(hooks)
    ensures Shape(t)
  {
    UpdateAll(s, HookUpdates(hooks, PRIMARY))
  }

  ghost function SecondaryMap(s: Slat, hooks: seq<Hook>): (t: Slat)
    requires Shape(s) && HooksOk(hooks)
    ensures Shape(t)
  {
    UpdatesDescribe(s, hooks, SECONDARY);
    AdmitAll(Veil(UpdateAll(s, HookUpdates(hooks, SECONDARY))), hooks)
  }

  lemma PrimaryMeaning(s: Slat, hooks: seq<Hook>, p: nat)
    requires Inv(s) && Open(s) && HooksOk(hooks) && p < PAGES && View(s, p) == Xlat(p, Full(0, false))
    ensures var t := PrimaryMap(s, hooks);
      Inv(t) && View(t, p) == Xlat(p, Nx(Full(0, false), !Hooked(hooks, p)))
  {
    hide Linked, Pristine, Open, View, Above, MeaningAfter;
    UpdatesRefineMap(s, HookUpdates(hooks, PRIMARY));
    OpenAbove(s, p);
    HookMeaning(View(s, p), hooks, PRIMARY, p);
  }

  /** The host page the secondary view may give page p: a hooked copy, or itself. */
  predicate SecondHost(hooks: seq<Hook>, p: nat, host: nat) {
    if Hooked(hooks, p) then exists i :: 0 <= i < |hooks| && hooks[i] == Hook(p, host) else host == p
  }

  /** The secondary map before it is veiled. */
  lemma SecondaryBase(s: Slat, hooks: seq<Hook>, p: nat)
    requires Tight(s) && Open(s) && HooksOk(hooks) && p < PAGES && View(s, p) == Xlat(p, Full(0, false))
    ensures var d := UpdateAll(s, HookUpdates(hooks, SECONDARY));
      && Tight(d) && Open(d) && View(d, p).attr == Full(0, false) && SecondHost(hooks, p, View(d, p).host)
      && (Hooked(hooks, p) ==> p / 512 in d.pte && At(d.pte, p).attr.execute)
  {
    hide Linked, Pristine, LinkedBut, Open, View, Above, MeaningAfter, TabsOk, UpdateAll;
    var us := HookUpdates(hooks, SECONDARY);
    UpdatesRefineMap(s, us);
    OpenAbove(s, p);
    UpdateAllTight(s, us);
    HookMeaning(View(s, p), hooks, SECONDARY, p);
    if Hooked(hooks, p) {
      var i :| 0 <= i < |hooks| && hooks[i].orig == p;
      assert us[i] in us && us[i].page == p;
      ExecutablePte(UpdateAll(s, us), p);
    }
  }

  lemma SecondaryMeaning(s: Slat, hooks: seq<Hook>, p: nat)
    requires Tight(s) && Open(s) && HooksOk(hooks) && p < PAGES
    requires forall y :: 0 <= y < PAGES ==> View(s, y) == Xlat(y, Full(0, false))
    ensures var t := SecondaryMap(s, hooks);
      Inv(t) && View(t, p).attr == Nx(Full(0, false), Hooked(hooks, p)) && SecondHost(hooks, p, View(t, p).host)
  {
    hide Linked, Pristine, LinkedBut, Open, View, Veil, VeiledPdptes, VeiledPdes, VeiledPtes, TabsOk, UpdateAll,
      SecondHost, AdmitAll, HookUpdates;
    var d := UpdateAll(s, HookUpdates(hooks, SECONDARY));
    UpdatesDescribe(s, hooks, SECONDARY);
    SecondaryBase(s, hooks, p);
    AdmitAllVeils(d, hooks);
    HookedExecutable(s, hooks);
    VeiledMeaning(d, SecondaryMap(s, hooks), Pages(hooks), p);
  }

  lemma HookedExecutable(s: Slat, hooks: seq<Hook>)
    requires Tight(s) && Open(s) && HooksOk(hooks)
    requires forall y :: 0 <= y < PAGES ==> View(s, y) == Xlat(y, Full(0, false))
    ensures var d := UpdateAll(s, HookUpdates(hooks, SECONDARY));
      forall h :: h in Pages(hooks) ==> 0 <= h / 512 && h / 512 in d.pte && At(d.pte, h).attr.execute
  {
    hide Linked, Pristine, LinkedBut, Open, View, UpdateAll, SecondHost;
    var d := UpdateAll(s, HookUpdates(hooks, SECONDARY));
    forall h | h in Pages(hooks) ensures 0 <= h / 512 && h / 512 in d.pte && At(d.pte, h).attr.execute {
      SecondaryBase(s, hooks, h);
    }
  }

  lemma ExecutablePte(s: Slat, p: nat)
    requires Inv(s) && p < PAGES && Resolved(s, p / 512) && View(s, p).attr.execute
    ensures At(s.pte, p).attr.execute
  {
  }

  // ---- What a guest sees ----

  datatype Which = Primary | Secondary

  /** The page-fault handler's answer to a failed fetch. */
  function Flip(v: Which): (w: Which) {
    if v == Primary then Secondary else Primary
  }

  ghost function ViewOf(hooks: seq<Hook>, v: Which): (s: Slat)
    requires HooksOk(hooks)
    ensures Shape(s)
  {
    if v == Primary then PrimaryMap(Fresh(0), hooks) else SecondaryMap(Fresh(0), hooks)
  }

  /** The two views by the processor's walk: everything stays readable and writable; a page is
      executable in exactly one view, the secondary one exactly when it is hooked; the primary
      view is the identity and the secondary view shows the patched copy of hooked pages only. */
  lemma TwoViews(hooks: seq<Hook>, p: nat)
    requires HooksOk(hooks) && p < PAGES
    ensures Walk(ViewOf(hooks, Primary), p) == Some(Xlat(p, Attr(true, true, !Hooked(hooks, p), true, 0, false)))
    ensures var x := Walk(ViewOf(hooks, Secondary), p);
      && x.Some? && x.value.attr == Attr(true, true, Hooked(hooks, p), true, 0, false)
      && if Hooked(hooks, p) then exists i :: 0 <= i < |hooks| && hooks[i] == Hook(p, x.value.host)
         else x.value.host == p
  {
    hide Linked, Pristine, LinkedBut, Open, View, Walk, PrimaryMap, SecondaryMap;
    FreshMeaning(0);
    assert Tight(Fresh(0)) by { FreshUnlinked(); }
    PrimaryMeaning(Fresh(0), hooks, p);
    SecondaryMeaning(Fresh(0), hooks, p);
    WalkIsView(PrimaryMap(Fresh(0), hooks), p);
    WalkIsView(SecondaryMap(Fresh(0), hooks), p);
  }

  lemma FreshUnlinked()
    ensures Tight(Fresh(0))
  {
    FreshMeaning(0);
  }

  ghost predicate Executes(hooks: seq<Hook>, v: Which, p: nat)
    requires HooksOk(hooks) && p < PAGES
  {
    var x := Walk(ViewOf(hooks, v), p);
    x.Some? && x.value.attr.execute
  }

  /** A failed fetch succeeds after one flip and would fail again after two: the handler always
      lands in the one view where the page executes. */
  lemma FlipLands(hooks: seq<Hook>, v: Which, p: nat)
    requires HooksOk(hooks) && p < PAGES
    ensures Executes(hooks, Flip(v), p) <==> !Executes(hooks, v, p)
    ensures Executes(hooks, v, p) <==> (v == Secondary <==> Hooked(hooks, p))
  {
    hide Walk, ViewOf;
    TwoViews(hooks, p);
  }
}
