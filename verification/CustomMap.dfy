/**
  The nested page table of a customizable guest: four levels, sparse, built from the bottom up,
  and read three ways: following physical pointers through descriptor lists, by descriptor
  range, and by a level-recursive walk of physical memory.
*/
module CustomMap {
  import opened Descriptors
  import opened IdentityMap

  const TOPS: nat := 512    // 512 GiB regions

  /** An entry of any level. `base` is the field above bit 12, in pages; for a large page at a
      higher level its low bits are not part of the address. */
  datatype PageEntry = PageEntry(present: bool, write: bool, user: bool, nx: bool, large: bool, base: nat, cache: nat,
                                 accessed: bool, dirty: bool)

  /** The attributes of a mapping call. */
  datatype MapAttr = MapAttr(present: bool, write: bool, execute: bool, user: bool, cache: nat)

  /** What an access asks for. */
  datatype Ask = Ask(read: bool, write: bool, execute: bool)

  datatype Custom = Custom(pml4: seq<PageEntry>, pdpte: map<nat, Tab<PageEntry>>, pde: map<nat, Tab<PageEntry>>,
                           pte: map<nat, Tab<PageEntry>>, used: nat)

  const ZERO := PageEntry(false, false, false, false, false, 0, 0, false, false)
  const NULL_MAP := MapAttr(false, false, false, false, 0)

  function Zeros(): (es: seq<PageEntry>) {
    seq(ENTRIES, _ => ZERO)
  }

  function PteFor(hpa: nat, m: MapAttr): (e: PageEntry) {
    PageEntry(m.present, m.write, m.user, !m.execute, false, hpa, m.cache, false, false)
  }

  /** What a mapping call promises an access: the host page, if the attributes grant the access. A
      mapping without execution is only good for accesses that ask to execute. */
  function Mapped(hpa: nat, m: MapAttr, a: Ask): (r: Option<nat>) {
    if (a.read ==> m.present) && (a.write ==> m.write) && (m.execute || a.execute) then Some(hpa) else None
  }

  /** How the walk sees a page that was never mapped but shares its PTE table with one that was: a
      zeroed entry denies reads and writes but passes an access that asks for neither. */
  const HOLE := MapAttr(false, false, true, false, 0)

  /** A higher-level entry grants everything. */
  function LinkTo(phys: nat): (e: PageEntry) {
    PageEntry(true, true, true, false, false, phys, 0, false, false)
  }

  /** The test both walkers make at every level: a no-execute entry passes only when execution
      is asked for. */
  predicate Passes(e: PageEntry, a: Ask) {
    (a.read ==> e.present) && (a.write ==> e.write) && (e.nx ==> a.execute)
  }

  // ---- Structure ----

  ghost predicate NonNull(m: map<nat, Tab<PageEntry>>) {
    forall r :: r in m ==> m[r].phys > 0
  }

  ghost predicate Tables(s: Custom) {
    && |s.pml4| == TOPS && s.used > 0
    && TabsOk(s.pdpte, TOPS, s.used) && TabsOk(s.pde, HUGES, s.used) && TabsOk(s.pte, LARGES, s.used)
    && NonNull(s.pdpte) && NonNull(s.pde) && NonNull(s.pte)
  }

  // ---- The pointer walk ----

  /** From a PTE table. */
  ghost function LookupPte(s: Custom, phys: nat, p: nat, a: Ask): (hpa: Option<nat>)
    requires Tables(s)
  {
    var t := TableAt(s.pte, phys);
    if t.None? then None else
    var e := t.value[p % 512];
    if Passes(e, a) then Some(e.base) else None
  }

  /** From a PDE table. */
  ghost function LookupPde(s: Custom, phys: nat, p: nat, a: Ask): (hpa: Option<nat>)
    requires Tables(s)
  {
    var t := TableAt(s.pde, phys);
    if t.None? then None else
    var e := t.value[p / 512 % 512];
    if !Passes(e, a) then None
    else if e.large then Some(e.base / 512 * 512 + p % 512)
    else LookupPte(s, e.base, p, a)
  }

  /** From a PDPTE table. */
  ghost function LookupPdpte(s: Custom, phys: nat, p: nat, a: Ask): (hpa: Option<nat>)
    requires Tables(s)
  {
    var t := TableAt(s.pdpte, phys);
    if t.None? then None else
    var e := t.value[p / 512 / 512 % 512];
    if !Passes(e, a) then None
    else if e.large then Some(e.base / HUGES * HUGES + p % HUGES)
    else LookupPde(s, e.base, p, a)
  }

  ghost function Lookup(s: Custom, p: nat, a: Ask): (hpa: Option<nat>)
    requires Tables(s) && p < PAGES
  {
    var e := s.pml4[p / 512 / 512 / 512];
    if Passes(e, a) then LookupPdpte(s, e.base, p, a) else None
  }

  // ---- The recursive walk ----

  /** Physical memory as tables: what the page with a given number holds. */
  type Memory = f: nat -> seq<PageEntry> | forall n :: |f(n)| == ENTRIES witness n => seq(ENTRIES, _ => ZERO)

  /** The number of pages that one entry of a level maps. */
  function Reach(level: nat): (n: nat)
    requires 1 <= level <= 4
    ensures n > 0
  {
    match level case 1 => 1 case 2 => 512 case 3 => 262144 case _ => 134217728
  }

  function Walk(mem: Memory, pt: nat, level: nat, p: nat, a: Ask): (hpa: Option<nat>)
    requires 1 <= level <= 4
    decreases level
  {
    var e := mem(pt)[p / Reach(level) % 512];
    if !Passes(e, a) then None
    else if level == 1 then Some(e.base)
    else if e.large then Some(e.base / Reach(level) * Reach(level) + p % Reach(level))
    else Walk(mem, e.base, level - 1, p, a)
  }

  ghost predicate Has(m: map<nat, Tab<PageEntry>>, phys: nat) {
    exists r :: r in m && m[r].phys == phys
  }

  /** Every present entry that is not a leaf points at a table of the next level. */
  ghost predicate PointsInto(m: map<nat, Tab<PageEntry>>, next: map<nat, Tab<PageEntry>>) {
    forall r, i :: r in m && 0 <= i < |m[r].entries| && m[r].entries[i].present && !m[r].entries[i].large ==>
      Has(next, m[r].entries[i].base)
  }

  ghost predicate WellFormed(s: Custom) {
    && Tables(s)
    && (forall g :: 0 <= g < TOPS ==> !s.pml4[g].large && (s.pml4[g].present ==> Has(s.pdpte, s.pml4[g].base)))
    && PointsInto(s.pdpte, s.pde) && PointsInto(s.pde, s.pte)
  }

  ghost predicate Holds(mem: Memory, m: map<nat, Tab<PageEntry>>) {
    forall r :: r in m ==> mem(m[r].phys) == m[r].entries
  }

  /** Memory holds the tables where their descriptors say, and the root at `root`. */
  ghost predicate InMemory(mem: Memory, root: nat, s: Custom) {
    mem(root) == s.pml4 && Holds(mem, s.pdpte) && Holds(mem, s.pde) && Holds(mem, s.pte)
  }

  lemma TableInMemory(mem: Memory, m: map<nat, Tab<PageEntry>>, regions: nat, used: nat, phys: nat)
    requires TabsOk(m, regions, used) && Holds(mem, m) && Has(m, phys)
    ensures TableAt(m, phys) == Some(mem(phys)) && exists r :: r in m && m[r].entries == mem(phys)
  {
    var r :| r in m && m[r].phys == phys;
    TableAtOwn(m, regions, used, r);
  }

  lemma PteAgrees(mem: Memory, s: Custom, phys: nat, p: nat, a: Ask)
    requires Tables(s) && Holds(mem, s.pte) && Has(s.pte, phys)
    ensures Walk(mem, phys, 1, p, a) == LookupPte(s, phys, p, a)
  {
    TableInMemory(mem, s.pte, LARGES, s.used, phys);
    hide TableAt, TabsOk;
  }

  lemma PdeAgrees(mem: Memory, s: Custom, phys: nat, p: nat, a: Ask)
    requires Tables(s) && PointsInto(s.pde, s.pte) && Holds(mem, s.pde) && Holds(mem, s.pte) && Has(s.pde, phys)
      && a.read
    ensures Walk(mem, phys, 2, p, a) == LookupPde(s, phys, p, a)
  {
    hide TableAt, TabsOk, LookupPte;
    TableInMemory(mem, s.pde, HUGES, s.used, phys);
    var e := mem(phys)[p / 512 % 512];
    if Passes(e, a) && !e.large {
      PteAgrees(mem, s, e.base, p, a);
    }
  }

  lemma PdpteAgrees(mem: Memory, s: Custom, phys: nat, p: nat, a: Ask)
    requires WellFormed(s) && Holds(mem, s.pdpte) && Holds(mem, s.pde) && Holds(mem, s.pte) && Has(s.pdpte, phys)
      && a.read
    ensures Walk(mem, phys, 3, p, a) == LookupPdpte(s, phys, p, a)
  {
    hide TableAt, TabsOk, LookupPde;
    TableInMemory(mem, s.pdpte, TOPS, s.used, phys);
    assert p / 262144 == p / 512 / 512;
    var e := mem(phys)[p / 262144 % 512];
    if Passes(e, a) && !e.large {
      PdeAgrees(mem, s, e.base, p, a);
    }
  }

  /** On every well-formed table, large pages included, and for every access that asks to read,
      the two walks agree on success and on the host page. */
  lemma WalkersAgree(mem: Memory, root: nat, s: Custom, p: nat, a: Ask)
    requires WellFormed(s) && InMemory(mem, root, s) && p < PAGES && a.read
    ensures Walk(mem, root, 4, p, a) == Lookup(s, p, a)
  {
    hide TableAt, TabsOk, LookupPdpte, PointsInto, Holds, Walk, Passes;
    RootStep(mem, root, s.pml4, p, a);
    if Passes(s.pml4[p / 512 / 512 / 512], a) {
      PassesPresent(s.pml4[p / 512 / 512 / 512], a);
      PdpteAgrees(mem, s, s.pml4[p / 512 / 512 / 512].base, p, a);
    }
  }

  lemma PassesPresent(e: PageEntry, a: Ask)
    requires Passes(e, a) && a.read
    ensures e.present
  {
  }

  lemma RootStep(mem: Memory, root: nat, pml4: seq<PageEntry>, p: nat, a: Ask)
    requires mem(root) == pml4 && |pml4| == TOPS && p < PAGES && !pml4[p / 512 / 512 / 512].large
    ensures var e := pml4[p / 512 / 512 / 512];
      Walk(mem, root, 4, p, a) == if Passes(e, a) then Walk(mem, e.base, 3, p, a) else None
  {
    var g := p / 512 / 512 / 512;
    assert p / 134217728 == g && g < 512 && p / 134217728 % 512 == g;
    assert mem(root)[p / Reach(4) % 512] == pml4[g];
  }

  /** Not present but writable. */
  const STRAY := PageEntry(false, true, true, false, false, 0, 0, false, false)

  /** A large leaf that permits everything. */
  const OPEN_LEAF := PageEntry(true, true, true, false, true, 0, 0, false, false)

  /** The walks agree on every well-formed table and whatever else memory holds. */
  ghost predicate AlwaysAgree(a: Ask) {
    forall mem: Memory, root, s, p :: WellFormed(s) && InMemory(mem, root, s) && 0 <= p < PAGES ==>
      Walk(mem, root, 4, p, a) == Lookup(s, p, a)
  }

  /** They do for exactly those accesses that ask to read. */
  lemma AlwaysAgreeIffReads(a: Ask)
    ensures AlwaysAgree(a) <==> a.read
  {
    hide InMemory, Lookup, Walk, TabsOk, PointsInto;
    if a.read {
      forall mem: Memory, root, s, p | WellFormed(s) && InMemory(mem, root, s) && 0 <= p < PAGES
        ensures Walk(mem, root, 4, p, a) == Lookup(s, p, a)
      {
        WalkersAgree(mem, root, s, p, a);
      }
    } else {
      var mem, s := WalkersDisagree(a);
    }
  }

  lemma WalkersDisagree(a: Ask) returns (mem: Memory, s: Custom)
    requires !a.read
    ensures WellFormed(s) && InMemory(mem, 1, s) && Walk(mem, 1, 4, 0, a) != Lookup(s, 0, a)
  {
    s := Custom(seq(TOPS, _ => STRAY), map[], map[], map[], 1);
    mem := n => if n == 1 then seq(ENTRIES, _ => STRAY) else seq(ENTRIES, _ => OPEN_LEAF);
    assert mem(1) == s.pml4;
    assert mem(1)[0] == STRAY && mem(0)[0] == OPEN_LEAF;
    assert Walk(mem, 0, 3, 0, a) == Some(0);
  }

  // ---- The tables that mapping calls build ----

  /** An entry without the bits the processor sets as it walks. */
  function Plain(e: PageEntry): (f: PageEntry) {
    e.(accessed := false, dirty := false)
  }

  /** Each level links exactly the described regions of the level below and nothing else. */
  ghost predicate Sparse(s: Custom) {
    && Tables(s)
    && (forall r :: r in s.pde ==> r / 512 in s.pdpte) && (forall q :: q in s.pte ==> q / 512 in s.pde)
    && (forall g :: 0 <= g < TOPS ==> Plain(s.pml4[g]) == if g in s.pdpte then LinkTo(s.pdpte[g].phys) else ZERO)
    && (forall r: nat :: r / 512 in s.pdpte ==>
          Plain(At(s.pdpte, r)) == if r in s.pde then LinkTo(s.pde[r].phys) else ZERO)
    && (forall q: nat :: q / 512 in s.pde ==> Plain(At(s.pde, q)) == if q in s.pte then LinkTo(s.pte[q].phys) else ZERO)
  }

  /** The whole meaning of such a table: a page has a translation only through its own PTE. */
  ghost function View(s: Custom, p: nat, a: Ask): (hpa: Option<nat>)
    requires Sparse(s)
  {
    if p / 512 in s.pte && Passes(At(s.pte, p), a) then Some(At(s.pte, p).base) else None
  }

  lemma NoTableAtNull(m: map<nat, Tab<PageEntry>>)
    requires NonNull(m)
    ensures TableAt(m, 0) == None
  {
  }

  lemma SparseTables(s: Custom)
    requires Sparse(s)
    ensures Tables(s)
  {
  }

  lemma PlainReads(e: PageEntry, a: Ask)
    ensures Passes(Plain(e), a) == Passes(e, a) && Plain(e).base == e.base && Plain(e).large == e.large
  {
  }

  lemma PlainReadsAll(a: Ask)
    ensures forall e :: Passes(Plain(e), a) == Passes(e, a) && Plain(e).base == e.base
  {
  }

  lemma PteView(s: Custom, p: nat, a: Ask)
    requires Sparse(s) && p / 512 / 512 in s.pde
    ensures var e := At(s.pde, p / 512);
      (if Passes(e, a) && !e.large then LookupPte(s, e.base, p, a) else None) == View(s, p, a) && !e.large
  {
    PlainReads(At(s.pde, p / 512), a);
    if p / 512 in s.pte {
      TableAtOwn(s.pte, LARGES, s.used, p / 512);
    } else {
      NoTableAtNull(s.pte);
    }
    hide TableAt, TabsOk;
  }

  lemma PdeView(s: Custom, p: nat, a: Ask)
    requires Sparse(s) && p / 512 / 512 / 512 in s.pdpte
    ensures var e := At(s.pdpte, p / 512 / 512);
      (if Passes(e, a) && !e.large then LookupPde(s, e.base, p, a) else None) == View(s, p, a) && !e.large
  {
    PlainReads(At(s.pdpte, p / 512 / 512), a);
    if p / 512 / 512 in s.pde {
      TableAtOwn(s.pde, HUGES, s.used, p / 512 / 512);
      PteView(s, p, a);
    } else {
      NoTableAtNull(s.pde);
    }
    hide TableAt, TabsOk, LookupPte;
  }

  /** The pointer walk of a sparse table is its meaning. */
  lemma LookupIsView(s: Custom, p: nat, a: Ask)
    requires Sparse(s) && p < PAGES
    ensures Lookup(s, p, a) == View(s, p, a)
  {
    var g := p / 512 / 512 / 512;
    PlainReads(s.pml4[g], a);
    if g in s.pdpte {
      TableAtOwn(s.pdpte, TOPS, s.used, g);
      PdeView(s, p, a);
    } else {
      NoTableAtNull(s.pdpte);
    }
    hide TableAt, TabsOk, LookupPde;
  }

  /** What an entry permits by the architecture: no fetches from a no-execute page. */
  predicate Permits(e: PageEntry, a: Ask) {
    (a.read ==> e.present) && (a.write ==> e.write) && (a.execute ==> !e.nx)
  }

  /** The walkers test no-execute the wrong way round: they answer as the architecture would
      exactly when the page is executable or already fails the other tests. */
  lemma RightAnswerIffExecutable(s: Custom, p: nat, a: Ask)
    requires Sparse(s) && p < PAGES && p / 512 in s.pte
    ensures var e := At(s.pte, p);
      (Lookup(s, p, a).Some? <==> Permits(e, a)) <==> !e.nx || (a.read && !e.present) || (a.write && !e.write)
  {
    LookupIsView(s, p, a);
    hide Lookup, At, TabsOk;
  }

  // ---- The two walks on such a table ----

  /** The level of the first missing table on the way to page p. */
  ghost function MissingLevel(s: Custom, p: nat): (level: nat)
    ensures 1 <= level <= 3
  {
    if p / 512 / 512 / 512 !in s.pdpte then 3 else if p / 512 / 512 !in s.pde then 2 else 1
  }

  /** Where the recursive walk goes from an entry that links `next` or is zeroed. */
  ghost function Onward(mem: Memory, next: Option<nat>, level: nat, p: nat, a: Ask): (hpa: Option<nat>)
    requires 1 <= level <= 3
  {
    if next.Some? then Walk(mem, next.value, level, p, a)
    else if a.read || a.write then None
    else Walk(mem, 0, level, p, a)
  }

  lemma WalkPte(mem: Memory, s: Custom, p: nat, a: Ask)
    requires Sparse(s) && Holds(mem, s.pte) && p / 512 in s.pte
    ensures Walk(mem, s.pte[p / 512].phys, 1, p, a) == View(s, p, a)
  {
    assert p / 1 == p;
    assert mem(s.pte[p / 512].phys)[p % 512] == At(s.pte, p);
    hide TabsOk, At, Sparse;
  }

  lemma WalkPde(mem: Memory, s: Custom, p: nat, a: Ask)
    requires Sparse(s) && Holds(mem, s.pde) && p / 512 / 512 in s.pde
    ensures Walk(mem, s.pde[p / 512 / 512].phys, 2, p, a)
      == Onward(mem, if p / 512 in s.pte then Some(s.pte[p / 512].phys) else None, 1, p, a)
  {
    PlainReads(At(s.pde, p / 512), a);
    assert mem(s.pde[p / 512 / 512].phys)[p / 512 % 512] == At(s.pde, p / 512);
    hide TabsOk, At;
  }

  lemma WalkPdpte(mem: Memory, s: Custom, p: nat, a: Ask)
    requires Sparse(s) && Holds(mem, s.pdpte) && p / 512 / 512 / 512 in s.pdpte
    ensures Walk(mem, s.pdpte[p / 512 / 512 / 512].phys, 3, p, a)
      == Onward(mem, if p / 512 / 512 in s.pde then Some(s.pde[p / 512 / 512].phys) else None, 2, p, a)
  {
    PlainReads(At(s.pdpte, p / 512 / 512), a);
    assert p / 262144 == p / 512 / 512;
    assert mem(s.pdpte[p / 512 / 512 / 512].phys)[p / 512 / 512 % 512] == At(s.pdpte, p / 512 / 512);
    hide TabsOk, At;
  }

  lemma WalkPml4(mem: Memory, root: nat, s: Custom, p: nat, a: Ask)
    requires Sparse(s) && mem(root) == s.pml4 && p < PAGES
    ensures var g := p / 512 / 512 / 512;
      Walk(mem, root, 4, p, a) == Onward(mem, if g in s.pdpte then Some(s.pdpte[g].phys) else None, 3, p, a)
  {
    hide Sparse, TabsOk, Walk;
    var g := p / 512 / 512 / 512;
    SparseTables(s);
    RootEntry(s, g);
    PlainReads(s.pml4[g], a);
    RootStep(mem, root, s.pml4, p, a);
  }

  lemma RootEntry(s: Custom, g: nat)
    requires Sparse(s) && g < TOPS
    ensures Plain(s.pml4[g]) == if g in s.pdpte then LinkTo(s.pdpte[g].phys) else ZERO
  {
  }

  /** The recursive walk of such a table is its meaning too, but an access that asks neither to read
      nor to write goes through zeroed entries into whatever page 0 of memory holds. */
  lemma SparseWalk(mem: Memory, root: nat, s: Custom, p: nat, a: Ask)
    requires Sparse(s) && InMemory(mem, root, s) && p < PAGES
    ensures Walk(mem, root, 4, p, a) ==
      if p / 512 in s.pte || a.read || a.write then View(s, p, a) else Walk(mem, 0, MissingLevel(s, p), p, a)
  {
    hide Walk, Passes, At, TabsOk, Holds;
    WalkPml4(mem, root, s, p, a);
    if p / 512 / 512 / 512 in s.pdpte { WalkPdpte(mem, s, p, a); }
    if p / 512 / 512 in s.pde { WalkPde(mem, s, p, a); }
    if p / 512 in s.pte { WalkPte(mem, s, p, a); }
  }

  /** On a table that mapping calls build, the two walks agree whatever else memory holds for exactly
      those accesses that read or write or lie in a described 2 MiB region. */
  lemma SparseWalkersAgreeIff(mem: Memory, root: nat, s: Custom, p: nat, a: Ask)
    requires Sparse(s) && InMemory(mem, root, s) && root > 0 && p < PAGES
    ensures (forall m: Memory :: InMemory(m, root, s) ==> Walk(m, root, 4, p, a) == Lookup(s, p, a))
            <==> a.read || a.write || p / 512 in s.pte
  {
    hide Sparse, Lookup, Walk, InMemory, View;
    SparseTables(s);
    LookupIsView(s, p, a);
    if a.read || a.write || p / 512 in s.pte {
      forall m: Memory | InMemory(m, root, s) ensures Walk(m, root, 4, p, a) == Lookup(s, p, a) {
        SparseWalk(m, root, s, p, a);
      }
    } else {
      var m: Memory := (n: nat) => if n == 0 then seq(ENTRIES, _ => OPEN_LEAF) else mem(n);
      OtherPageZero(mem, m, root, s);
      SparseWalk(m, root, s, p, a);
      WalkOpen(m, MissingLevel(s, p), p, a);
      UndescribedView(s, p, a);
    }
  }

  lemma OtherPageZero(mem: Memory, m: Memory, root: nat, s: Custom)
    requires Tables(s) && InMemory(mem, root, s) && root > 0 && forall n: nat :: n > 0 ==> m(n) == mem(n)
    ensures InMemory(m, root, s)
  {
  }

  lemma WalkOpen(m: Memory, level: nat, p: nat, a: Ask)
    requires 1 <= level <= 3 && !a.read && !a.write && m(0) == seq(ENTRIES, _ => OPEN_LEAF)
    ensures Walk(m, 0, level, p, a).Some?
  {
    assert m(0)[p / Reach(level) % 512] == OPEN_LEAF;
  }

  // ---- Mapping a page ----

  /** A zeroed table with one entry written. */
  function NewTable(phys: nat, i: nat, e: PageEntry): (t: Tab<PageEntry>)
    requires i < ENTRIES
  {
    Tab(phys, Zeros()[i := e])
  }

  lemma AddPdpte(s: Custom, g: nat, t: Tab<PageEntry>)
    requires Tables(s) && g < TOPS && g !in s.pdpte && t.phys == s.used && |t.entries| == ENTRIES
    ensures Tables(s.(pdpte := s.pdpte[g := t], used := s.used + 1))
  {
  }

  lemma AddPde(s: Custom, r: nat, t: Tab<PageEntry>)
    requires Tables(s) && r < HUGES && r !in s.pde && t.phys == s.used && |t.entries| == ENTRIES
    ensures Tables(s.(pde := s.pde[r := t], used := s.used + 1))
  {
  }

  lemma AddPte(s: Custom, q: nat, t: Tab<PageEntry>)
    requires Tables(s) && q < LARGES && q !in s.pte && t.phys == s.used && |t.entries| == ENTRIES
    ensures Tables(s.(pte := s.pte[q := t], used := s.used + 1))
  {
  }

  ghost function CreateTop(s: Custom, r: nat): (t: Custom)
    requires Tables(s) && r < HUGES && r / 512 !in s.pdpte
    ensures Tables(t) && t.pde == s.pde && t.pte == s.pte && t.pdpte.Keys == s.pdpte.Keys + {r / 512}
  {
    s.(pdpte := s.pdpte[r / 512 := NewTable(s.used, r % 512, LinkTo(0))],
       pml4 := s.pml4[r / 512 := LinkTo(s.used)], used := s.used + 1)
  }

  ghost function SetPdpte(s: Custom, r: nat, e: PageEntry): (t: Custom)
    requires Tables(s) && r / 512 in s.pdpte
    ensures Tables(t) && t.pdpte.Keys == s.pdpte.Keys && t.pde == s.pde && t.pte == s.pte && t.pml4 == s.pml4
  {
    s.(pdpte := Put(s.pdpte, r, e))
  }

  ghost function SetPde(s: Custom, q: nat, e: PageEntry): (t: Custom)
    requires Tables(s) && q / 512 in s.pde
    ensures Tables(t) && t.pde.Keys == s.pde.Keys && t.pdpte == s.pdpte && t.pte == s.pte && t.pml4 == s.pml4
  {
    s.(pde := Put(s.pde, q, e))
  }

  ghost function SetPte(s: Custom, p: nat, e: PageEntry): (t: Custom)
    requires Tables(s) && p / 512 in s.pte
    ensures Tables(t) && t.pte.Keys == s.pte.Keys && t.pdpte == s.pdpte && t.pde == s.pde && t.pml4 == s.pml4
  {
    s.(pte := Put(s.pte, p, e))
  }

  /** A PDE table for the 1 GiB region of 2 MiB region q, linked from above; its one entry is
      still to be pointed at the PTE table. */
  ghost function CreateHuge(s: Custom, q: nat): (t: Custom)
    requires Tables(s) && q < LARGES && q / 512 !in s.pde
    ensures Tables(t) && t.pte == s.pte && t.pde.Keys == s.pde.Keys + {q / 512}
  {
    var d := s.(pde := s.pde[q / 512 := NewTable(s.used, q % 512, LinkTo(0))], used := s.used + 1);
    var e := if q / 512 / 512 in d.pdpte then d else CreateTop(d, q / 512);
    SetPdpte(e, q / 512, LinkTo(s.used))
  }

  /** A PTE table for the 2 MiB region of page p, linked from above. */
  ghost function CreateLarge(s: Custom, p: nat): (t: Custom)
    requires Tables(s) && p < PAGES && p / 512 !in s.pte
    ensures Tables(t) && t.pte.Keys == s.pte.Keys + {p / 512}
  {
    var d := s.(pte := s.pte[p / 512 := NewTable(s.used, p % 512, PteFor(0, NULL_MAP))], used := s.used + 1);
    var e := if p / 512 / 512 in d.pde then d else CreateHuge(d, p / 512);
    SetPde(e, p / 512, LinkTo(s.used))
  }

  lemma HugeSteps(s: Custom, q: nat)
    requires Tables(s) && q < LARGES && q / 512 !in s.pde
    ensures var d := s.(pde := s.pde[q / 512 := NewTable(s.used, q % 512, LinkTo(0))], used := s.used + 1);
      && Tables(d)
      && CreateHuge(s, q)
         == SetPdpte(if q / 512 / 512 in d.pdpte then d else CreateTop(d, q / 512), q / 512, LinkTo(s.used))
  {
    hide TabsOk, Put, CreateTop, SetPdpte, Tables;
    AddPde(s, q / 512, NewTable(s.used, q % 512, LinkTo(0)));
  }

  lemma LargeSteps(s: Custom, p: nat)
    requires Tables(s) && p < PAGES && p / 512 !in s.pte
    ensures var d := s.(pte := s.pte[p / 512 := NewTable(s.used, p % 512, PteFor(0, NULL_MAP))], used := s.used + 1);
      && Tables(d)
      && CreateLarge(s, p)
         == SetPde(if p / 512 / 512 in d.pde then d else CreateHuge(d, p / 512), p / 512, LinkTo(s.used))
  {
    hide TabsOk, Put, CreateHuge, SetPde, Tables;
    AddPte(s, p / 512, NewTable(s.used, p % 512, PteFor(0, NULL_MAP)));
  }

  ghost function SetPage(s: Custom, p: nat, hpa: nat, m: MapAttr): (t: Custom)
    requires Tables(s) && p < PAGES
    ensures Tables(t) && t.pte.Keys == s.pte.Keys + {p / 512}
  {
    SetPte(if p / 512 in s.pte then s else CreateLarge(s, p), p, PteFor(hpa, m))
  }

  // ---- What mapping a page changes ----

  ghost predicate Sized(m: map<nat, Tab<PageEntry>>) {
    forall r :: r in m ==> |m[r].entries| == ENTRIES
  }

  lemma AllSized(s: Custom)
    requires Tables(s)
    ensures Sized(s.pdpte) && Sized(s.pde) && Sized(s.pte)
  {
  }

  /** n is m with a table for the region of entry x, zeroed if it is new, and entry x set. */
  ghost predicate LevelSet(m: map<nat, Tab<PageEntry>>, n: map<nat, Tab<PageEntry>>, x: nat, e: PageEntry)
    requires Sized(m)
    requires Sized(n)
  {
    && n.Keys == m.Keys + {x / 512}
    && (forall r :: r in m ==> n[r].phys == m[r].phys)
    && (forall y: nat :: y / 512 in n ==> At(n, y) == if y == x then e else if y / 512 in m then At(m, y) else ZERO)
  }

  lemma LevelSetAt(m: map<nat, Tab<PageEntry>>, n: map<nat, Tab<PageEntry>>, x: nat, e: PageEntry, y: nat)
    requires Sized(m) && Sized(n) && LevelSet(m, n, x, e) && x / 512 in m
    ensures y / 512 in n <==> y / 512 in m
    ensures y / 512 in m ==> At(n, y) == if y == x then e else At(m, y)
  {
    hide At;
  }

  lemma PutSets(m: map<nat, Tab<PageEntry>>, regions: nat, used: nat, x: nat, e: PageEntry)
    requires TabsOk(m, regions, used) && x / 512 in m
    ensures TabsOk(Put(m, x, e), regions, used) && LevelSet(m, Put(m, x, e), x, e)
  {
    PutAt(m, x, e, regions, used);
    hide At, Put;
  }

  lemma NewSets(m: map<nat, Tab<PageEntry>>, regions: nat, used: nat, x: nat, e: PageEntry)
    requires TabsOk(m, regions, used) && x / 512 !in m && x / 512 < regions
    ensures var n := m[x / 512 := NewTable(used, x % 512, e)];
      TabsOk(n, regions, used + 1) && LevelSet(m, n, x, e)
  {
    var n := m[x / 512 := NewTable(used, x % 512, e)];
    forall y: nat | y / 512 in n ensures At(n, y) == if y == x then e else if y / 512 in m then At(m, y) else ZERO {
      assert y == y / 512 * 512 + y % 512;
    }
  }

  lemma SetsAgain(m: map<nat, Tab<PageEntry>>, n: map<nat, Tab<PageEntry>>, k: map<nat, Tab<PageEntry>>, x: nat,
    e: PageEntry, f: PageEntry)
    requires Sized(m)
    requires Sized(n)
    requires Sized(k)
    requires LevelSet(m, n, x, e) && LevelSet(n, k, x, f)
    ensures LevelSet(m, k, x, f)
  {
    hide At;
  }

  lemma CreateTopSets(s: Custom, r: nat)
    requires Tables(s) && r < HUGES && r / 512 !in s.pdpte
    ensures var t := CreateTop(s, r);
      LevelSet(s.pdpte, t.pdpte, r, LinkTo(0)) && t.pdpte[r / 512].phys == s.used
      && t.pml4 == s.pml4[r / 512 := LinkTo(s.used)]
  {
    NewSets(s.pdpte, TOPS, s.used, r, LinkTo(0));
    hide LevelSet, TabsOk;
  }

  /** Linking region r from its PDPTE, whose table is made and linked when it is missing. */
  ghost predicate Linked3(s: Custom, t: Custom, r: nat, phys: nat)
    requires Tables(s) && Tables(t) && r < HUGES
  {
    && LevelSet(s.pdpte, t.pdpte, r, LinkTo(phys))
    && t.pml4 == if r / 512 in s.pdpte then s.pml4 else s.pml4[r / 512 := LinkTo(t.pdpte[r / 512].phys)]
  }

  lemma MoreTables(s: Custom, d: Custom)
    requires Tables(s) && d.used >= s.used && d.pml4 == s.pml4 && d.pdpte == s.pdpte && d.pte == s.pte
    requires TabsOk(d.pde, HUGES, d.used)
    requires forall r :: r in d.pde ==> (r in s.pde && d.pde[r] == s.pde[r]) || d.pde[r].phys == s.used
    ensures Tables(d)
  {
  }

  lemma CreateHugeSets(s: Custom, q: nat)
    requires Tables(s) && q < LARGES && q / 512 !in s.pde
    ensures var t := CreateHuge(s, q);
      LevelSet(s.pde, t.pde, q, LinkTo(0)) && t.pde[q / 512].phys == s.used && Linked3(s, t, q / 512, s.used)
  {
    hide At, LevelSet, SetPdpte, CreateTop, TabsOk, Zeros;
    var r := q / 512;
    NewSets(s.pde, HUGES, s.used, q, LinkTo(0));
    var d := s.(pde := s.pde[r := NewTable(s.used, q % 512, LinkTo(0))], used := s.used + 1);
    assert Tables(d) by { MoreTables(s, d); }
    LinkTop(d, r, s.used);
  }

  lemma LinkTop(d: Custom, r: nat, phys: nat)
    requires Tables(d) && r < HUGES
    ensures var e := if r / 512 in d.pdpte then d else CreateTop(d, r);
      Linked3(d, SetPdpte(e, r, LinkTo(phys)), r, phys)
  {
    var e := if r / 512 in d.pdpte then d else CreateTop(d, r);
    if r / 512 !in d.pdpte { CreateTopSets(d, r); }
    PutSets(e.pdpte, TOPS, e.used, r, LinkTo(phys));
    hide At, LevelSet;
    if r / 512 !in d.pdpte {
      SetsAgain(d.pdpte, e.pdpte, SetPdpte(e, r, LinkTo(phys)).pdpte, r, LinkTo(0), LinkTo(phys));
    }
  }

  /** Linking region q from its PDE, whose table is made and linked when it is missing. */
  ghost predicate Linked2(s: Custom, t: Custom, q: nat, phys: nat)
    requires Tables(s) && Tables(t) && q < LARGES
  {
    && LevelSet(s.pde, t.pde, q, LinkTo(phys))
    && if q / 512 in s.pde then t.pdpte == s.pdpte && t.pml4 == s.pml4 else Linked3(s, t, q / 512, t.pde[q / 512].phys)
  }

  lemma LinkHuge(d: Custom, q: nat, phys: nat)
    requires Tables(d) && q < LARGES
    ensures var e := if q / 512 in d.pde then d else CreateHuge(d, q);
      Linked2(d, SetPde(e, q, LinkTo(phys)), q, phys)
  {
    hide At, LevelSet, CreateHuge, TabsOk, Linked3;
    var e := if q / 512 in d.pde then d else CreateHuge(d, q);
    if q / 512 !in d.pde { CreateHugeSets(d, q); }
    var t := SetPde(e, q, LinkTo(phys));
    AllSized(d);
    AllSized(e);
    AllSized(t);
    PutSets(e.pde, HUGES, e.used, q, LinkTo(phys));
    PutPhys(e.pde, q, LinkTo(phys));
    if q / 512 !in d.pde {
      SetsAgain(d.pde, e.pde, t.pde, q, LinkTo(0), LinkTo(phys));
      SameLink3(d, e, t, q / 512, e.pde[q / 512].phys);
    }
  }

  lemma PutPhys(m: map<nat, Tab<PageEntry>>, x: nat, e: PageEntry)
    requires x / 512 in m && |m[x / 512].entries| == ENTRIES
    ensures x / 512 in Put(m, x, e) && Put(m, x, e)[x / 512].phys == m[x / 512].phys
  {
  }

  lemma SameLink3(s: Custom, t: Custom, u: Custom, r: nat, phys: nat)
    requires Tables(s) && Tables(t) && Tables(u) && r < HUGES && Linked3(s, t, r, phys)
    requires u.pdpte == t.pdpte && u.pml4 == t.pml4
    ensures Linked3(s, u, r, phys)
  {
  }

  lemma CreateLargeSets(s: Custom, p: nat)
    requires Tables(s) && p < PAGES && p / 512 !in s.pte
    ensures var t := CreateLarge(s, p);
      LevelSet(s.pte, t.pte, p, PteFor(0, NULL_MAP)) && Linked2(s, t, p / 512, t.pte[p / 512].phys)
  {
    hide At, LevelSet, SetPde, CreateHuge, TabsOk, Zeros;
    NewSets(s.pte, LARGES, s.used, p, PteFor(0, NULL_MAP));
    var d := s.(pte := s.pte[p / 512 := NewTable(s.used, p % 512, PteFor(0, NULL_MAP))], used := s.used + 1);
    assert Tables(d) by { MorePtes(s, d); }
    LinkHuge(d, p / 512, s.used);
  }

  lemma MorePtes(s: Custom, d: Custom)
    requires Tables(s) && d.used >= s.used && d.pml4 == s.pml4 && d.pdpte == s.pdpte && d.pde == s.pde
    requires TabsOk(d.pte, LARGES, d.used)
    requires forall r :: r in d.pte ==> (r in s.pte && d.pte[r] == s.pte[r]) || d.pte[r].phys == s.used
    ensures Tables(d)
  {
  }

  /** Making and linking tables keeps the sparse structure. */
  lemma Linked3Sparse(s: Custom, t: Custom, r: nat)
    requires Sparse(s) && Tables(t) && r < HUGES && r !in s.pde && t.pde.Keys == s.pde.Keys + {r}
    requires Linked3(s, t, r, t.pde[r].phys) && forall x :: x in s.pde ==> t.pde[x].phys == s.pde[x].phys
    ensures forall g :: 0 <= g < TOPS ==> Plain(t.pml4[g]) == if g in t.pdpte then LinkTo(t.pdpte[g].phys) else ZERO
    ensures forall x: nat :: x / 512 in t.pdpte ==>
      Plain(At(t.pdpte, x)) == if x in t.pde then LinkTo(t.pde[x].phys) else ZERO
  {
    hide At, TabsOk;
  }

  lemma Linked2Sparse(s: Custom, t: Custom, q: nat)
    requires Sparse(s) && Tables(t) && q < LARGES && q !in s.pte && t.pte.Keys == s.pte.Keys + {q}
    requires Linked2(s, t, q, t.pte[q].phys) && forall x :: x in s.pte ==> t.pte[x].phys == s.pte[x].phys
    ensures forall x: nat :: x / 512 in t.pde ==>
      Plain(At(t.pde, x)) == if x in t.pte then LinkTo(t.pte[x].phys) else ZERO
  {
    hide At, TabsOk, Linked3;
  }

  lemma CreateLargeSparse(s: Custom, p: nat)
    requires Sparse(s) && p < PAGES && p / 512 !in s.pte
    ensures Sparse(CreateLarge(s, p))
  {
    hide At, TabsOk, CreateLarge, LevelSet, Sparse;
    SparseTables(s);
    CreateLargeSets(s, p);
    AllSized(s);
    AllSized(CreateLarge(s, p));
    if p / 512 / 512 in s.pde {
      SparseInOldTable(s, CreateLarge(s, p), p);
    } else {
      SparseInNewTable(s, CreateLarge(s, p), p);
    }
  }

  lemma SparseInOldTable(s: Custom, t: Custom, p: nat)
    requires Sparse(s) && Tables(t) && p < PAGES && p / 512 !in s.pte && p / 512 / 512 in s.pde
    requires Sized(s.pte) && Sized(t.pte)
    requires LevelSet(s.pte, t.pte, p, PteFor(0, NULL_MAP)) && Linked2(s, t, p / 512, t.pte[p / 512].phys)
    ensures Sparse(t)
  {
    hide At, TabsOk;
    Linked2Sparse(s, t, p / 512);
    SameUpper(s, t);
  }

  lemma SparseInNewTable(s: Custom, t: Custom, p: nat)
    requires Sparse(s) && Tables(t) && p < PAGES && p / 512 !in s.pte && p / 512 / 512 !in s.pde
    requires Sized(s.pte) && Sized(t.pte)
    requires LevelSet(s.pte, t.pte, p, PteFor(0, NULL_MAP)) && Linked2(s, t, p / 512, t.pte[p / 512].phys)
    ensures Sparse(t)
  {
    hide At, TabsOk;
    Linked2Sparse(s, t, p / 512);
    Linked3Sparse(s, t, p / 512 / 512);
  }

  lemma SameUpper(s: Custom, t: Custom)
    requires Sparse(s) && Tables(t) && t.pdpte == s.pdpte && t.pml4 == s.pml4
    requires t.pde.Keys == s.pde.Keys && forall x :: x in s.pde ==> t.pde[x].phys == s.pde[x].phys
    ensures forall g :: 0 <= g < TOPS ==> Plain(t.pml4[g]) == if g in t.pdpte then LinkTo(t.pdpte[g].phys) else ZERO
    ensures forall x: nat :: x / 512 in t.pdpte ==>
      Plain(At(t.pdpte, x)) == if x in t.pde then LinkTo(t.pde[x].phys) else ZERO
  {
    hide At, TabsOk;
  }

  lemma SetPageSparse(s: Custom, p: nat, hpa: nat, m: MapAttr)
    requires Sparse(s) && p < PAGES
    ensures var t := SetPage(s, p, hpa, m);
      && Sparse(t) && LevelSet(s.pte, t.pte, p, PteFor(hpa, m))
  {
    hide At, TabsOk, CreateLarge, LevelSet;
    var d := if p / 512 in s.pte then s else CreateLarge(s, p);
    if p / 512 !in s.pte {
      CreateLargeSets(s, p);
      CreateLargeSparse(s, p);
    }
    AllSized(s);
    AllSized(d);
    AllSized(SetPage(s, p, hpa, m));
    PutSets(d.pte, LARGES, d.used, p, PteFor(hpa, m));
    PteKeepsSparse(d, SetPage(s, p, hpa, m), p, PteFor(hpa, m));
    if p / 512 !in s.pte { SetsAgain(s.pte, d.pte, SetPage(s, p, hpa, m).pte, p, PteFor(0, NULL_MAP), PteFor(hpa, m)); }
  }

  lemma PteKeepsSparse(s: Custom, t: Custom, p: nat, e: PageEntry)
    requires Sparse(s) && Tables(t) && p / 512 in s.pte && LevelSet(s.pte, t.pte, p, e)
    requires t.pde == s.pde && t.pdpte == s.pdpte && t.pml4 == s.pml4
    ensures Sparse(t)
  {
    hide At, TabsOk;
  }

  // ---- Main results on mapping ----

  lemma SetPageView(s: Custom, p: nat, hpa: nat, m: MapAttr, y: nat, a: Ask)
    requires Sparse(s) && p < PAGES && y < PAGES
    ensures var t := SetPage(s, p, hpa, m);
      && Sparse(t)
      && View(t, y, a) == if y == p then Mapped(hpa, m, a)
                          else if y / 512 in s.pte then View(s, y, a)
                          else if y / 512 == p / 512 && !a.read && !a.write then Some(0)
                          else None
  {
    hide At, TabsOk, SetPage;
    SetPageSparse(s, p, hpa, m);
  }

  /** A mapping call is a point update of the walk: the page reads back as mapped, and every other
      page keeps its translation for exactly those accesses that ask to read or write, or for all
      accesses if the 2 MiB region had its table already. */
  lemma SetPageIsPointUpdate(s: Custom, p: nat, hpa: nat, m: MapAttr, a: Ask)
    requires Sparse(s) && p < PAGES
    ensures var t := SetPage(s, p, hpa, m);
      && Sparse(t)
      && Lookup(t, p, a) == Mapped(hpa, m, a)
      && ((forall y :: 0 <= y < PAGES && y != p ==> Lookup(t, y, a) == Lookup(s, y, a))
          <==> a.read || a.write || p / 512 in s.pte)
  {
    hide Sparse, View, SetPage, Lookup;
    SparseTables(s);
    var t := SetPage(s, p, hpa, m);
    SetPageView(s, p, hpa, m, p, a);
    LookupIsView(t, p, a);
    var other := if p % 512 == 0 then p + 1 else p - 1;
    SetPageView(s, p, hpa, m, other, a);
    LookupIsView(s, other, a);
    LookupIsView(t, other, a);
    UndescribedView(s, other, a);
    if a.read || a.write || p / 512 in s.pte {
      forall y | 0 <= y < PAGES && y != p ensures Lookup(t, y, a) == Lookup(s, y, a) {
        SetPageView(s, p, hpa, m, y, a);
        LookupIsView(s, y, a);
        LookupIsView(t, y, a);
        UndescribedView(s, y, a);
      }
    }
  }

  lemma UndescribedView(s: Custom, y: nat, a: Ask)
    requires Sparse(s)
    ensures y / 512 !in s.pte ==> View(s, y, a) == None
  {
  }

  /** The mapping loop. */
  ghost function SetPages(s: Custom, p: nat, hpas: seq<nat>, n: nat, m: MapAttr): (t: Custom)
    requires Tables(s) && n <= |hpas| && p + n <= PAGES
    ensures Tables(t)
  {
    if n == 0 then s else SetPage(SetPages(s, p, hpas, n - 1, m), p + n - 1, hpas[n - 1], m)
  }

  /** A call for n pages from p on maps something in 2 MiB region q. */
  predicate Touches(p: nat, n: nat, q: nat) {
    n > 0 && p / 512 <= q <= (p + n - 1) / 512
  }

  lemma SetPageLookup(s: Custom, p: nat, hpa: nat, m: MapAttr, y: nat, a: Ask)
    requires Sparse(s) && p < PAGES && y < PAGES
    ensures var t := SetPage(s, p, hpa, m);
      && Sparse(t) && t.pte.Keys == s.pte.Keys + {p / 512}
      && Lookup(t, y, a) == if y == p then Mapped(hpa, m, a)
                            else if y / 512 == p / 512 && y / 512 !in s.pte then Mapped(0, HOLE, a)
                            else Lookup(s, y, a)
  {
    hide Sparse, View, SetPage, Lookup, LevelSet, At;
    SparseTables(s);
    SetPageView(s, p, hpa, m, y, a);
    SetPageSparse(s, p, hpa, m);
    SetPageKeys(s, p, hpa, m);
    LookupIsView(s, y, a);
    LookupIsView(SetPage(s, p, hpa, m), y, a);
    UndescribedView(s, y, a);
  }

  lemma SetPageKeys(s: Custom, p: nat, hpa: nat, m: MapAttr)
    requires Sparse(s) && p < PAGES
    ensures SetPage(s, p, hpa, m).pte.Keys == s.pte.Keys + {p / 512}
  {
    hide At, TabsOk, CreateLarge, LevelSet;
    if p / 512 !in s.pte { CreateLargeSets(s, p); }
  }

  /** For every access, the loop maps page i of the range to the i-th host page, leaves holes where
      it makes a table for other pages, and changes no other page's translation. */
  lemma {:induction false} RangeMapped(s: Custom, p: nat, hpas: seq<nat>, n: nat, m: MapAttr, y: nat, a: Ask)
    requires Sparse(s) && n <= |hpas| && p + n <= PAGES && y < PAGES
    ensures var t := SetPages(s, p, hpas, n, m);
      && Sparse(t) && (y / 512 in t.pte <==> y / 512 in s.pte || Touches(p, n, y / 512))
      && Lookup(t, y, a) == if p <= y < p + n then Mapped(hpas[y - p], m, a)
                            else if Touches(p, n, y / 512) && y / 512 !in s.pte then Mapped(0, HOLE, a)
                            else Lookup(s, y, a)
  {
    hide Sparse, SetPage, Lookup, Tables, Mapped;
    SparseTables(s);
    if n != 0 {
      RangeMapped(s, p, hpas, n - 1, m, y, a);
      SparseTables(SetPages(s, p, hpas, n - 1, m));
      SetPageLookup(SetPages(s, p, hpas, n - 1, m), p + n - 1, hpas[n - 1], m, y, a);
    }
  }

  // ---- Clearing accessed and dirty bits by range ----

  /** The range walk stops at the first level without a present entry. Only a leaf is written. */
  ghost function ClearBits(s: Custom, p: nat): (r: (Custom, bool))
    requires Tables(s) && p < PAGES
    ensures Tables(r.0)
  {
    var g, r, q := p / 512 / 512 / 512, p / 512 / 512, p / 512;
    if !s.pml4[g].present || g !in s.pdpte || !At(s.pdpte, r).present then (s, false)
    else if At(s.pdpte, r).large then (SetPdpte(s, r, Plain(At(s.pdpte, r))), true)
    else if r !in s.pde || !At(s.pde, q).present then (s, false)
    else if At(s.pde, q).large then (SetPde(s, q, Plain(At(s.pde, q))), true)
    else if q !in s.pte || !At(s.pte, p).present then (s, false)
    else (SetPte(s, p, Plain(At(s.pte, p))), true)
  }

  /** On the tables that mapping calls build, clearing succeeds exactly when the pointer walk
      reaches a present leaf. It then clears both bits of that leaf, changes nothing else, and
      keeps every translation. */
  lemma ClearBitsAgrees(s: Custom, p: nat)
    requires Sparse(s) && p < PAGES
    ensures var (t, ok) := ClearBits(s, p);
      && (ok <==> Lookup(s, p, Ask(true, false, true)).Some?)
      && (!ok ==> t == s)
      && (ok ==> p / 512 in s.pte && t == SetPte(s, p, Plain(At(s.pte, p))))
      && Sparse(t) && forall y, a :: 0 <= y < PAGES ==> Lookup(t, y, a) == Lookup(s, y, a)
  {
    var (t, ok) := ClearBits(s, p);
    ClearBitsResult(s, p);
    LookupIsView(s, p, Ask(true, false, true));
    if ok { ClearKeeps(s, p); }
  }

  lemma ClearBitsResult(s: Custom, p: nat)
    requires Sparse(s) && p < PAGES
    ensures ClearBits(s, p) ==
      if p / 512 in s.pte && At(s.pte, p).present then (SetPte(s, p, Plain(At(s.pte, p))), true) else (s, false)
  {
    var g, r, q := p / 512 / 512 / 512, p / 512 / 512, p / 512;
    var e4 := s.pml4[g];
    assert e4.present == Plain(e4).present;
    if g in s.pdpte {
      var e3 := At(s.pdpte, r);
      assert e3.present == Plain(e3).present && e3.large == Plain(e3).large;
      if r in s.pde {
        var e2 := At(s.pde, q);
        assert e2.present == Plain(e2).present && e2.large == Plain(e2).large;
      }
    }
    hide At, TabsOk, SetPte, SetPde, SetPdpte;
  }

  lemma ClearKeeps(s: Custom, p: nat)
    requires Sparse(s) && p < PAGES && p / 512 in s.pte
    ensures var t := SetPte(s, p, Plain(At(s.pte, p)));
      Sparse(t) && forall y, a :: 0 <= y < PAGES ==> Lookup(t, y, a) == Lookup(s, y, a)
  {
    hide At, TabsOk, Lookup, LevelSet, SetPte;
    AllSized(s);
    var e := Plain(At(s.pte, p));
    var t := SetPte(s, p, e);
    SetPteSets(s, p, e);
    PteKeepsSparse(s, t, p, e);
    forall y, a | 0 <= y < PAGES ensures Lookup(t, y, a) == Lookup(s, y, a) {
      LookupIsView(s, y, a);
      LookupIsView(t, y, a);
      SetView(s, t, p, e, y, a);
    }
  }

  lemma SetPteSets(s: Custom, p: nat, e: PageEntry)
    requires Tables(s) && p / 512 in s.pte
    ensures Sized(s.pte) && Sized(SetPte(s, p, e).pte) && LevelSet(s.pte, SetPte(s, p, e).pte, p, e)
  {
    PutSets(s.pte, LARGES, s.used, p, e);
    hide At, Put;
  }

  lemma SetView(s: Custom, t: Custom, p: nat, e: PageEntry, y: nat, a: Ask)
    requires Sparse(s) && Sparse(t) && p / 512 in s.pte && LevelSet(s.pte, t.pte, p, e) && e == Plain(At(s.pte, p))
    ensures View(t, y, a) == View(s, y, a)
  {
    hide At, TabsOk, Plain, Passes, LevelSet, Sparse;
    SparseTables(s);
    SparseTables(t);
    AllSized(s);
    AllSized(t);
    PlainReadsAll(a);
    LevelSetAt(s.pte, t.pte, p, e, y);
  }

  // ---- Whole runs ----

  function Empty(): (s: Custom) {
    Custom(seq(TOPS, _ => ZERO), map[], map[], map[], 1)
  }

  /** A mapping call, a query that clears bits, or the processor setting bits as it walks. */
  datatype Op = Map(page: nat, hpas: seq<nat>, attr: MapAttr) | Clear(page: nat) | Access(page: nat, write: bool)

  predicate OpOk(op: Op) {
    op.page < PAGES && (op.Map? ==> op.page + |op.hpas| <= PAGES)
  }

  function Mark(e: PageEntry, write: bool): (f: PageEntry) {
    e.(accessed := true, dirty := e.dirty || write)
  }

  /** The processor sets accessed bits along the walk and the dirty bit of the leaf. */
  ghost function MarkBits(s: Custom, p: nat, write: bool): (t: Custom)
    requires Tables(s) && p < PAGES
    ensures Tables(t)
  {
    var g, r, q := p / 512 / 512 / 512, p / 512 / 512, p / 512;
    if g !in s.pdpte || r !in s.pde || q !in s.pte then s else
    var t4 := s.(pml4 := s.pml4[g := Mark(s.pml4[g], false)]);
    var t3 := SetPdpte(t4, r, Mark(At(t4.pdpte, r), false));
    var t2 := SetPde(t3, q, Mark(At(t3.pde, q), false));
    SetPte(t2, p, Mark(At(t2.pte, p), write))
  }

  ghost function Apply(s: Custom, op: Op): (t: Custom)
    requires Tables(s) && OpOk(op)
    ensures Tables(t)
  {
    match op
    case Map(p, hpas, m) => SetPages(s, p, hpas, |hpas|, m)
    case Clear(p) => ClearBits(s, p).0
    case Access(p, w) => MarkBits(s, p, w)
  }

  ghost function After(ops: seq<Op>): (t: Custom)
    requires forall op :: op in ops ==> OpOk(op)
    ensures Tables(t)
  {
    if ops == [] then Empty() else Apply(After(ops[..|ops| - 1]), ops[|ops| - 1])
  }

  predicate Maps(op: Op, y: nat) {
    op.Map? && op.page <= y < op.page + |op.hpas|
  }

  /** Some call has mapped something in region q. */
  predicate Touched(ops: seq<Op>, q: nat) {
    exists op :: op in ops && op.Map? && Touches(op.page, |op.hpas|, q)
  }

  /** What the guest was given: the last mapping call that covers the page decides; before that, the
      first one in its 2 MiB region leaves a hole. */
  function Given(ops: seq<Op>, y: nat, a: Ask): (hpa: Option<nat>) {
    if ops == [] then None else
    var op, rest := ops[|ops| - 1], ops[..|ops| - 1];
    if Maps(op, y) then Mapped(op.hpas[y - op.page], op.attr, a)
    else if op.Map? && Touches(op.page, |op.hpas|, y / 512) && !Touched(rest, y / 512) then Mapped(0, HOLE, a)
    else Given(rest, y, a)
  }

  /** Holes are invisible to accesses that read or write. */
  lemma {:induction false} GivenToReaders(ops: seq<Op>, y: nat, a: Ask)
    requires a.read || a.write
    ensures Given(ops, y, a) ==
      if forall k :: 0 <= k < |ops| ==> !Maps(ops[k], y) then None else
      var op := LastMapping(ops, y);
      Mapped(op.hpas[y - op.page], op.attr, a)
  {
    if ops != [] {
      var n := |ops| - 1;
      GivenToReaders(ops[..n], y, a);
      assert forall k :: 0 <= k < n ==> ops[..n][k] == ops[k];
      if !Touched(ops[..n], y / 512) { NotTouchedNotMapped(ops[..n], y); }
    }
  }

  /** The last call that covers page y. */
  function LastMapping(ops: seq<Op>, y: nat): (op: Op)
    requires exists k :: 0 <= k < |ops| && Maps(ops[k], y)
    ensures Maps(op, y)
  {
    var n := |ops| - 1;
    if Maps(ops[n], y) then ops[n] else
    assert forall k :: 0 <= k < n ==> ops[..n][k] == ops[k];
    LastMapping(ops[..n], y)
  }

  lemma NotTouchedNotMapped(ops: seq<Op>, y: nat)
    requires !Touched(ops, y / 512)
    ensures forall k :: 0 <= k < |ops| ==> !Maps(ops[k], y)
  {
    forall k | 0 <= k < |ops| ensures !Maps(ops[k], y) {
      assert ops[k] in ops;
    }
  }

  lemma EmptySparse()
    ensures Sparse(Empty())
  {
  }

  /** The same tables up to the bits the processor sets. */
  ghost predicate SameTables(m: map<nat, Tab<PageEntry>>, n: map<nat, Tab<PageEntry>>)
    requires Sized(m) && Sized(n)
  {
    && m.Keys == n.Keys && (forall r :: r in m ==> n[r].phys == m[r].phys)
    && forall y: nat :: y / 512 in m ==> Plain(At(n, y)) == Plain(At(m, y))
  }

  lemma SetMarks(m: map<nat, Tab<PageEntry>>, regions: nat, used: nat, x: nat, w: bool)
    requires TabsOk(m, regions, used) && x / 512 in m && Sized(m)
    ensures var n := Put(m, x, Mark(At(m, x), w)); Sized(n) && SameTables(m, n)
  {
    PutAt(m, x, Mark(At(m, x), w), regions, used);
    hide At, Put;
  }

  ghost predicate Same(s: Custom, t: Custom) {
    && Sized(s.pdpte) && Sized(s.pde) && Sized(s.pte) && Sized(t.pdpte) && Sized(t.pde) && Sized(t.pte)
    && SameTables(s.pdpte, t.pdpte) && SameTables(s.pde, t.pde) && SameTables(s.pte, t.pte)
    && |t.pml4| == |s.pml4| && forall g :: 0 <= g < |s.pml4| ==> Plain(t.pml4[g]) == Plain(s.pml4[g])
  }

  lemma SameSparse(s: Custom, t: Custom)
    requires Sparse(s) && Tables(t) && Same(s, t)
    ensures Sparse(t)
  {
    hide At, TabsOk, Plain;
  }

  lemma SameLookup(s: Custom, t: Custom, y: nat, a: Ask)
    requires Sparse(s) && Sparse(t) && Same(s, t) && y < PAGES
    ensures Lookup(t, y, a) == Lookup(s, y, a)
  {
    LookupIsView(s, y, a);
    LookupIsView(t, y, a);
    if y / 512 in s.pte {
      PlainReads(At(s.pte, y), a);
      PlainReads(At(t.pte, y), a);
    }
    hide At, TabsOk, Plain, Lookup;
  }

  lemma MarkSame(s: Custom, p: nat, write: bool)
    requires Tables(s) && p < PAGES
    ensures Same(s, MarkBits(s, p, write))
  {
    hide At, TabsOk, Put;
    var g, r, q := p / 512 / 512 / 512, p / 512 / 512, p / 512;
    AllSized(s);
    if g in s.pdpte && r in s.pde && q in s.pte {
      SetMarks(s.pdpte, TOPS, s.used, r, false);
      SetMarks(s.pde, HUGES, s.used, q, false);
      SetMarks(s.pte, LARGES, s.used, p, write);
    }
    hide SameTables, Sized, NonNull;
  }

  lemma MarkKeeps(s: Custom, p: nat, write: bool)
    requires Sparse(s) && p < PAGES
    ensures var t := MarkBits(s, p, write);
      Sparse(t) && t.pte.Keys == s.pte.Keys && forall y, a :: 0 <= y < PAGES ==> Lookup(t, y, a) == Lookup(s, y, a)
  {
    hide Lookup, MarkBits;
    SparseTables(s);
    var t := MarkBits(s, p, write);
    MarkSame(s, p, write);
    SameSparse(s, t);
    forall y, a | 0 <= y < PAGES ensures Lookup(t, y, a) == Lookup(s, y, a) { SameLookup(s, t, y, a); }
  }

  /** After any sequence of mapping calls, bit queries and processor walks, the table is sparse and
      well-formed, and every access gets what the guest was given. */
  lemma {:induction false} RunsRefineMap(ops: seq<Op>, y: nat, a: Ask)
    requires (forall op :: op in ops ==> OpOk(op)) && y < PAGES
    ensures Sparse(After(ops)) && WellFormed(After(ops)) && Lookup(After(ops), y, a) == Given(ops, y, a)
    ensures y / 512 in After(ops).pte <==> Touched(ops, y / 512)
  {
    hide Sparse, Lookup, SetPages, ClearBits, MarkBits, WellFormed, Mapped, Touches;
    if ops == [] {
      EmptySparse();
      LookupIsView(Empty(), y, a);
      UndescribedView(Empty(), y, a);
    } else {
      var n := |ops| - 1;
      RunsRefineMap(ops[..n], y, a);
      var s := After(ops[..n]);
      assert ops[n] in ops && OpOk(ops[n]);
      TouchedLast(ops, y / 512);
      match ops[n]
      case Map(p, hpas, m) => RangeMapped(s, p, hpas, |hpas|, m, y, a);
      case Clear(p) => ClearBitsAgrees(s, p); ClearKeys(s, p);
      case Access(p, w) => MarkKeeps(s, p, w);
    }
    SparseWellFormed(After(ops));
  }

  lemma TouchedLast(ops: seq<Op>, q: nat)
    requires ops != []
    ensures var op := ops[|ops| - 1];
      Touched(ops, q) <==> Touched(ops[..|ops| - 1], q) || (op.Map? && Touches(op.page, |op.hpas|, q))
  {
    assert ops == ops[..|ops| - 1] + [ops[|ops| - 1]];
  }

  lemma ClearKeys(s: Custom, p: nat)
    requires Tables(s) && p < PAGES
    ensures ClearBits(s, p).0.pte.Keys == s.pte.Keys
  {
    hide At, TabsOk;
  }

  lemma SparseWellFormed(s: Custom)
    requires Sparse(s)
    ensures WellFormed(s)
  {
    forall g | 0 <= g < TOPS ensures !s.pml4[g].large && (s.pml4[g].present ==> Has(s.pdpte, s.pml4[g].base)) {
      var e := Plain(s.pml4[g]);
      assert e.large == s.pml4[g].large && e.present == s.pml4[g].present && e.base == s.pml4[g].base;
    }
    SparsePoints(s.pdpte, s.pde, TOPS, HUGES, s.used);
    SparsePoints(s.pde, s.pte, HUGES, LARGES, s.used);
  }

  lemma SparsePoints(m: map<nat, Tab<PageEntry>>, next: map<nat, Tab<PageEntry>>, regions: nat, nextRegions: nat,
    used: nat)
    requires TabsOk(m, regions, used)
    requires forall x: nat :: x / 512 in m ==> Plain(At(m, x)) == if x in next then LinkTo(next[x].phys) else ZERO
    ensures PointsInto(m, next)
  {
    forall r, i | r in m && 0 <= i < |m[r].entries| && m[r].entries[i].present && !m[r].entries[i].large
      ensures Has(next, m[r].entries[i].base)
    {
      var x := r * 512 + i;
      assert x / 512 == r && x % 512 == i;
      var e := Plain(At(m, x));
      assert e.present == m[r].entries[i].present && e.base == m[r].entries[i].base;
    }
  }
}
