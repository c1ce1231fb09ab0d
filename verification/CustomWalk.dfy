/**
  The nested page table of a customizable guest as the processor reads it, and what its leaves hold
  after any run of mapping calls, queries and guest accesses.
*/
module CustomWalk {
  import opened Descriptors
  import opened IdentityMap
  import opened CustomMap

  // ---- The processor's walk ----

  /** A translation: the host page and its cache attribute. */
  datatype Host = Host(page: nat, cache: nat)

  /** What an entry of any level lets through (section 15.25.5 of the AMD64 Architecture Programmer's
      Manual, Volume 2): every access of a guest is a user access to the nested table. */
  predicate Lets(e: PageEntry, a: Ask) {
    e.present && e.user && (a.write ==> e.write) && (a.execute ==> !e.nx)
  }

  /** The walk through physical memory. A large entry ends it, except at the root, where it faults. */
  function Translate(mem: Memory, pt: nat, level: nat, p: nat, a: Ask): (h: Option<Host>)
    requires 1 <= level <= 4
    decreases level
  {
    var e := mem(pt)[p / Reach(level) % 512];
    if !Lets(e, a) then None
    else if level == 1 then Some(Host(e.base, e.cache))
    else if !e.large then Translate(mem, e.base, level - 1, p, a)
    else if level == 4 then None
    else Some(Host(e.base / Reach(level) * Reach(level) + p % Reach(level), e.cache))
  }

  /** What the leaf of a page lets through. */
  function Leads(e: PageEntry, a: Ask): (h: Option<Host>) {
    if Lets(e, a) then Some(Host(e.base, e.cache)) else None
  }

  /** The leaf of a page; a page without a table has none, and a zeroed one is as good. */
  ghost function LeafAt(s: Custom, p: nat): (e: PageEntry)
    requires Tables(s)
  {
    if p / 512 in s.pte then At(s.pte, p) else ZERO
  }

  /** An entry whose content is a link passes every access on; one that is zeroed none. */
  lemma LinksPass(e: PageEntry, a: Ask)
    ensures Plain(e).present && Plain(e).user && Plain(e).write && !Plain(e).nx ==> Lets(e, a)
    ensures Plain(e) == ZERO ==> !Lets(e, a)
    ensures Plain(e).base == e.base && Plain(e).large == e.large
  {
  }

  lemma FromPte(mem: Memory, s: Custom, p: nat, a: Ask)
    requires Sparse(s) && Holds(mem, s.pte) && p / 512 in s.pte
    ensures Translate(mem, s.pte[p / 512].phys, 1, p, a) == Leads(At(s.pte, p), a)
  {
    assert p / 1 == p;
    assert mem(s.pte[p / 512].phys)[p % 512] == At(s.pte, p);
    hide TabsOk, At, Sparse;
  }

  lemma FromPde(mem: Memory, s: Custom, p: nat, a: Ask)
    requires Sparse(s) && Holds(mem, s.pde) && p / 512 / 512 in s.pde
    ensures Translate(mem, s.pde[p / 512 / 512].phys, 2, p, a) ==
      if p / 512 in s.pte then Translate(mem, s.pte[p / 512].phys, 1, p, a) else None
  {
    LinksPass(At(s.pde, p / 512), a);
    assert mem(s.pde[p / 512 / 512].phys)[p / 512 % 512] == At(s.pde, p / 512);
    hide TabsOk, At, Lets;
  }

  lemma FromPdpte(mem: Memory, s: Custom, p: nat, a: Ask)
    requires Sparse(s) && Holds(mem, s.pdpte) && p / 512 / 512 / 512 in s.pdpte
    ensures Translate(mem, s.pdpte[p / 512 / 512 / 512].phys, 3, p, a) ==
      if p / 512 / 512 in s.pde then Translate(mem, s.pde[p / 512 / 512].phys, 2, p, a) else None
  {
    LinksPass(At(s.pdpte, p / 512 / 512), a);
    assert p / 262144 == p / 512 / 512;
    assert mem(s.pdpte[p / 512 / 512 / 512].phys)[p / 512 / 512 % 512] == At(s.pdpte, p / 512 / 512);
    hide TabsOk, At, Lets;
  }

  lemma FromRoot(mem: Memory, root: nat, s: Custom, p: nat, a: Ask)
    requires Sparse(s) && mem(root) == s.pml4 && p < PAGES
    ensures var g := p / 512 / 512 / 512;
      Translate(mem, root, 4, p, a) == if g in s.pdpte then Translate(mem, s.pdpte[g].phys, 3, p, a) else None
  {
    hide Sparse, TabsOk, Lets, Plain;
    var g := p / 512 / 512 / 512;
    SparseTables(s);
    RootEntry(s, g);
    LinksPass(s.pml4[g], a);
    assert p / 134217728 == g && g < 512 && p / 134217728 % 512 == g;
    assert mem(root)[p / Reach(4) % 512] == s.pml4[g];
  }

  /** Through the tables that mapping calls build, the processor gets to a page just as its own leaf
      says: no upper level holds any access back. */
  lemma ProcessorFollowsLeaf(mem: Memory, root: nat, s: Custom, p: nat, a: Ask)
    requires Sparse(s) && InMemory(mem, root, s) && p < PAGES
    ensures Tables(s) && Translate(mem, root, 4, p, a) == Leads(LeafAt(s, p), a)
  {
    hide Translate, At, TabsOk, Holds;
    FromRoot(mem, root, s, p, a);
    if p / 512 / 512 / 512 in s.pdpte { FromPdpte(mem, s, p, a); }
    if p / 512 / 512 in s.pde { FromPde(mem, s, p, a); }
    if p / 512 in s.pte { FromPte(mem, s, p, a); }
  }

  // ---- The leaves over whole runs ----

  lemma SetPageLeaf(s: Custom, p: nat, hpa: nat, m: MapAttr, y: nat)
    requires Sparse(s) && p < PAGES
    ensures var t := SetPage(s, p, hpa, m);
      Sparse(t) && LeafAt(t, y) == if y == p then PteFor(hpa, m) else LeafAt(s, y)
  {
    hide At, TabsOk, SetPage, Plain;
    SetPageSparse(s, p, hpa, m);
  }

  lemma {:induction false} SetPagesLeaf(s: Custom, p: nat, hpas: seq<nat>, n: nat, m: MapAttr, y: nat)
    requires Sparse(s) && n <= |hpas| && p + n <= PAGES
    ensures var t := SetPages(s, p, hpas, n, m);
      Sparse(t) && LeafAt(t, y) == if p <= y < p + n then PteFor(hpas[y - p], m) else LeafAt(s, y)
  {
    hide Sparse, SetPage, Tables, LeafAt, PteFor;
    SparseTables(s);
    if n != 0 {
      SetPagesLeaf(s, p, hpas, n - 1, m, y);
      SparseTables(SetPages(s, p, hpas, n - 1, m));
      SetPageLeaf(SetPages(s, p, hpas, n - 1, m), p + n - 1, hpas[n - 1], m, y);
    }
  }

  /** A query succeeds exactly on a present leaf, and clears both its bits and nothing else. */
  lemma ClearLeaf(s: Custom, p: nat, y: nat)
    requires Sparse(s) && p < PAGES
    ensures var (t, ok), e := ClearBits(s, p), LeafAt(s, y);
      && Sparse(t) && (ok <==> LeafAt(s, p).present)
      && LeafAt(t, y) == if y == p && e.present then e.(accessed := false, dirty := false) else e
  {
    hide At, TabsOk, ClearBits, CustomMap.SetPte, LevelSet, Lookup, Sparse;
    SparseTables(s);
    AllSized(s);
    ClearBitsResult(s, p);
    if p / 512 in s.pte && At(s.pte, p).present {
      ClearKeeps(s, p);
      var e := Plain(At(s.pte, p));
      SetPteSets(s, p, e);
      AllSized(CustomMap.SetPte(s, p, e));
      LevelSetAt(s.pte, CustomMap.SetPte(s, p, e).pte, p, e, y);
    }
  }

  lemma MarkLeaf(s: Custom, p: nat, write: bool, y: nat)
    requires Sparse(s) && p < PAGES
    ensures var t, e := MarkBits(s, p, write), LeafAt(s, y);
      && Sparse(t)
      && LeafAt(t, y) == if y == p && p / 512 in s.pte then e.(accessed := true, dirty := e.dirty || write) else e
  {
    hide At, TabsOk, Lookup, Put, Plain;
    MarkKeeps(s, p, write);
    AllSized(s);
    if p / 512 in s.pte {
      PutAt(s.pte, p, Mark(At(s.pte, p), write), LARGES, s.used);
    }
  }

  /** What the leaf of page y holds after a run. */
  function Leaf(ops: seq<Op>, y: nat): (e: PageEntry) {
    if ops == [] then ZERO else
    var op, rest := ops[|ops| - 1], ops[..|ops| - 1];
    var e := Leaf(rest, y);
    match op
    case Map(p, hpas, m) => if p <= y < p + |hpas| then PteFor(hpas[y - p], m) else e
    case Clear(p) => if p == y && e.present then e.(accessed := false, dirty := false) else e
    case Access(p, w) => if p == y && Touched(rest, y / 512) then e.(accessed := true, dirty := e.dirty || w) else e
  }

  lemma {:induction false} RunsSetLeaves(ops: seq<Op>, y: nat)
    requires (forall op :: op in ops ==> OpOk(op)) && y < PAGES
    ensures Sparse(After(ops)) && LeafAt(After(ops), y) == Leaf(ops, y)
  {
    hide Sparse, SetPages, ClearBits, MarkBits, LeafAt, Touched, PteFor;
    if ops == [] {
      EmptySparse();
      EmptyLeaf(y);
    } else {
      var n := |ops| - 1;
      RunsSetLeaves(ops[..n], y);
      var s := After(ops[..n]);
      RunsRefineMap(ops[..n], y, Ask(true, false, false));
      assert ops[n] in ops && OpOk(ops[n]);
      match ops[n]
      case Map(p, hpas, m) => SetPagesLeaf(s, p, hpas, |hpas|, m, y);
      case Clear(p) => ClearLeaf(s, p, y);
      case Access(p, w) => MarkLeaf(s, p, w, y);
    }
  }

  lemma EmptyLeaf(y: nat)
    ensures LeafAt(Empty(), y) == ZERO
  {
  }

  predicate EverMapped(ops: seq<Op>, y: nat) {
    exists k :: 0 <= k < |ops| && Maps(ops[k], y)
  }

  /** Up to the two bits, a leaf is as its last mapping call set it, attribute by attribute, and zeroed
      before the first. */
  lemma {:induction false} LeafIsLastMapping(ops: seq<Op>, y: nat)
    ensures var e := Leaf(ops, y);
      if EverMapped(ops, y) then
        var op := LastMapping(ops, y);
        && e.present == op.attr.present && e.write == op.attr.write && e.user == op.attr.user
        && e.nx == !op.attr.execute && e.cache == op.attr.cache && e.base == op.hpas[y - op.page] && !e.large
      else !e.present && !e.write && !e.user && !e.nx && e.cache == 0 && e.base == 0 && !e.large
  {
    hide Touched;
    if ops != [] {
      var n := |ops| - 1;
      LeafIsLastMapping(ops[..n], y);
      assert forall k :: 0 <= k < n ==> ops[..n][k] == ops[k];
    }
  }

  /** After any run, the processor's own walk gives each access of the guest the host page of the
      page's last mapping call, with the cache attribute of that call, exactly if its attributes say
      present and user, and grant what the access asks for; and no access before the first call. */
  lemma ProcessorSeesLastMapping(ops: seq<Op>, mem: Memory, root: nat, y: nat, a: Ask)
    requires (forall op :: op in ops ==> OpOk(op)) && InMemory(mem, root, After(ops)) && y < PAGES
    ensures Translate(mem, root, 4, y, a) ==
      if !EverMapped(ops, y) then None else
      var op := LastMapping(ops, y);
      if op.attr.present && op.attr.user && (a.write ==> op.attr.write) && (a.execute ==> op.attr.execute)
        then Some(Host(op.hpas[y - op.page], op.attr.cache))
      else None
  {
    hide InMemory, Translate, Sparse, LeafAt, Leaf, LastMapping, EverMapped, Tables;
    RunsSetLeaves(ops, y);
    ProcessorFollowsLeaf(mem, root, After(ops), y, a);
    LeafIsLastMapping(ops, y);
  }

  // ---- What the queries report ----

  /** Operation k leaves the two bits of page y fresh: it maps the page, or clears a present leaf. */
  predicate Resets(ops: seq<Op>, k: nat, y: nat)
    requires k < |ops|
  {
    Maps(ops[k], y) || (ops[k] == Clear(y) && Leaf(ops[..k], y).present)
  }

  /** Operation k is an access, a write if need be, that the page's table records. */
  predicate Records(ops: seq<Op>, k: nat, y: nat, write: bool)
    requires k < |ops|
  {
    ops[k].Access? && ops[k].page == y && (write ==> ops[k].write) && Touched(ops[..k], y / 512)
  }

  /** The page was accessed, or written, since it was last mapped or cleared. */
  ghost predicate Since(ops: seq<Op>, y: nat, write: bool) {
    exists k :: 0 <= k < |ops| && Records(ops, k, y, write) && forall j :: k < j < |ops| ==> !Resets(ops, j, y)
  }

  /** The bits that a query finds, and clears, say exactly whether the page was accessed and written
      since it was last mapped or cleared. */
  lemma {:induction false} BitsTellSince(ops: seq<Op>, y: nat)
    ensures Leaf(ops, y).accessed <==> Since(ops, y, false)
    ensures Leaf(ops, y).dirty <==> Since(ops, y, true)
  {
    hide Touched, Leaf, Since;
    if ops == [] {
      NothingSince(y);
    } else {
      BitsTellSince(ops[..|ops| - 1], y);
      LeafStep(ops, y);
      SinceStep(ops, y, false);
      SinceStep(ops, y, true);
    }
  }

  lemma NothingSince(y: nat)
    ensures !Since([], y, false) && !Since([], y, true) && !Leaf([], y).accessed && !Leaf([], y).dirty
  {
  }

  lemma LeafStep(ops: seq<Op>, y: nat)
    requires ops != []
    ensures var n := |ops| - 1; var e, f := Leaf(ops, y), Leaf(ops[..n], y);
      && (e.accessed <==> Records(ops, n, y, false) || (!Resets(ops, n, y) && f.accessed))
      && (e.dirty <==> Records(ops, n, y, true) || (!Resets(ops, n, y) && f.dirty))
  {
    hide Touched;
  }

  lemma SinceStep(ops: seq<Op>, y: nat, write: bool)
    requires ops != []
    ensures var n := |ops| - 1;
      Since(ops, y, write) <==> Records(ops, n, y, write) || (!Resets(ops, n, y) && Since(ops[..n], y, write))
  {
    hide Leaf, Touched;
    var n := |ops| - 1;
    var rest := ops[..n];
    forall k | 0 <= k < n
      ensures Records(rest, k, y, write) == Records(ops, k, y, write) && Resets(rest, k, y) == Resets(ops, k, y)
    {
      assert rest[k] == ops[k] && rest[..k] == ops[..k];
    }
    hide Records, Resets;
    if Since(rest, y, write) && !Resets(ops, n, y) {
      var k :| 0 <= k < n && Records(rest, k, y, write) && forall j :: k < j < n ==> !Resets(rest, j, y);
      assert Records(ops, k, y, write);
    }
    if Since(ops, y, write) && !Records(ops, n, y, write) {
      var k :| 0 <= k < |ops| && Records(ops, k, y, write) && forall j :: k < j < |ops| ==> !Resets(ops, j, y);
      assert Records(rest, k, y, write);
    }
  }
}
