/**
  The identity-map manager as NoirVisor keeps it: an array of PDPTEs and two linked lists of
  table descriptors, updated in place. Each routine is proved equal to its function of the
  map's value.
*/
module IdentityManager {
  import opened Descriptors
  import opened IdentityMap
  import M = IdentityMap

  class Manager {
    const pdpt: array<Entry>
    const pde: DescriptorList<Entry>
    const pte: DescriptorList<Pte>
    var used: nat    // tables allocated so far

    ghost function Footprint(): (fp: set<object>)
      reads this, pde, pte
    {
      {this, pdpt} + pde.Repr + pte.Repr
    }

    ghost predicate Valid()
      reads this, pde, pte, pdpt, pde.Repr, pte.Repr
    {
      && pde.Valid() && pte.Valid() && pde.Repr !! pte.Repr
      && this !in pde.Repr && this !in pte.Repr && pdpt !in pde.Repr && pdpt !in pte.Repr
      && pde.span == OneGiB && pte.span == TwoMiB
      && Shape(State())
    }

    ghost function State(): (s: Slat)
      reads this, pdpt, pde, pte
    {
      Slat(pdpt[..], pde.Tables(), pte.Tables(), used)
    }

    lemma Facts()
      requires Valid()
      ensures Shape(State()) && pde.span == OneGiB && pte.span == TwoMiB && pde.Valid() && pte.Valid()
      ensures pde in pde.Repr && pte in pte.Repr && pde.Repr !! pte.Repr
      ensures this !in pde.Repr && this !in pte.Repr && pdpt !in pde.Repr && pdpt !in pte.Repr
      ensures pde.tail != null ==> pde.tail in pde.Repr
      ensures pte.tail != null ==> pte.tail in pte.Repr
    {
    }

    /** Builds the identity map with one default memory type. */
    constructor (def: MemType)
      ensures Valid() && fresh(Footprint()) && State() == Fresh(def)
    {
      hide ByRegion, DescriptorList.Valid;
      var entries := NewPdpt(def);
      pdpt := entries;
      pde := new DescriptorList(OneGiB);
      pte := new DescriptorList(TwoMiB);
      used := 0;
    }

    static method NewPdpt(def: MemType) returns (pdpt: array<Entry>)
      ensures fresh(pdpt) && pdpt[..] == Fresh(def).pdpt
    {
      pdpt := new Entry[HUGES](_ => Leaf(0, Full(0, false)));
      for i := 0 to 512
        invariant forall k :: 0 <= k < i * 512 ==> pdpt[k] == Leaf(k, Full(def, false))
        modifies pdpt
      {
        for j := 0 to 512
          invariant forall k :: 0 <= k < i * 512 + j ==> pdpt[k] == Leaf(k, Full(def, false))
          modifies pdpt
        {
          pdpt[i * 512 + j] := Leaf(i * 512 + j, Full(def, false));
        }
      }
      assert pdpt[..] == Fresh(def).pdpt;
    }

    /** Allocates a table whose entries are the 512 large pages of 1 GiB region r. */
    static method NewPdeTable(r: nat, parent: Attr) returns (virt: array<Entry>)
      ensures fresh(virt) && virt[..] == NewPdes(r, parent)
    {
      virt := new Entry[ENTRIES](_ => Leaf(0, Full(0, false)));
      for i := 0 to ENTRIES
        invariant forall j :: 0 <= j < i ==> virt[j] == Leaf(r * 512 + j, Child(parent))
        modifies virt
      {
        virt[i] := Leaf(r * 512 + i, Child(parent));
      }
      assert virt[..] == NewPdes(r, parent);
    }

    method DescribeHuge(r: nat) returns (n: Node<Entry>, ghost k: nat)
      requires Valid() && r < HUGES && r !in pde.Tables()
      modifies this`used, pde, pde.tail
      ensures Valid() && fresh(pde.Repr - old(pde.Repr))
      ensures State() == M.DescribeHuge(old(State()), r) && pde.At(n, k, r)
    {
      hide ByRegion, TabsOk, DescriptorList.Valid;
      var virt := NewPdeTable(r, pdpt[r].attr);
      pde.Parts();
      n := pde.Append(r, used, virt);
      k := |pde.nodes| - 1;
      used := used + 1;
      assert State() == M.DescribeHuge(old(State()), r);
    }

    method LinkHuge(r: nat, n: Node<Entry>, ghost k: nat)
      requires Valid() && r < HUGES && pde.At(n, k, r)
      modifies pdpt
      ensures Valid() && State() == M.LinkPdpt(old(State()), r) && pde.At(n, k, r)
    {
      hide ByRegion, TabsOk;
      WritePdpte(r, Link(pdpt[r], n.phys));
    }

    method SplitPdpte(p: nat, host: bool, alloc: bool) returns (n: Node?<Entry>, ghost k: nat)
      requires Valid() && p < PAGES
      requires host ==> alloc || p / 512 / 512 in pde.Tables()
      modifies this`used, pdpt, pde.Repr
      ensures Valid() && fresh(pde.Repr - old(pde.Repr)) && pte.Repr == old(pte.Repr)
      ensures State() == M.SplitPdpte(old(State()), p / 512 / 512, host, alloc)
      ensures n == null <==> p / 512 / 512 !in pde.Tables()
      ensures n != null ==> pde.At(n, k, p / 512 / 512) && n.virt.Length == ENTRIES
    {
      hide Valid, ByRegion, TabsOk, DescriptorList.Valid;
      Facts();
      n, k := pde.FindRegion(p);
      if n == null && alloc {
        n, k := DescribeHuge(p / 512 / 512);
      }
      Facts();
      if n != null { FullPdes(State(), p / 512 / 512); }
      if host {
        LinkHuge(p / 512 / 512, n, k);
      }
    }

    static method NewPteTable(q: nat, parent: Attr) returns (virt: array<Pte>)
      ensures fresh(virt) && virt[..] == NewPtes(q, parent)
    {
      virt := new Pte[ENTRIES](_ => Pte(0, Full(0, false)));
      for i := 0 to ENTRIES
        invariant forall j :: 0 <= j < i ==> virt[j] == Pte(q * 512 + j, Child(parent))
        modifies virt
      {
        virt[i] := Pte(q * 512 + i, Child(parent));
      }
      assert virt[..] == NewPtes(q, parent);
    }

    method DescribeLarge(p: nat, host: bool) returns (n: Node<Pte>, ghost k: nat)
      requires Valid() && p < PAGES && p / 512 !in pte.Tables()
      modifies this`used, pdpt, pde.Repr, pte.Repr
      ensures Valid() && fresh(pde.Repr - old(pde.Repr)) && fresh(pte.Repr - old(pte.Repr))
      ensures State() == M.DescribeLarge(old(State()), p / 512, host) && pte.At(n, k, p / 512)
    {
      hide Valid, ByRegion, M.SplitPdpte, M.DescribeLarge, TabsOk, DescriptorList.Valid;
      Facts();
      DescribeLargeSteps(State(), p / 512, host);
      var phys := TakePage();
      Facts();
      var d, dk := SplitPdpte(p, host, true);
      Facts();
      n, k := AppendPtes(p, phys, d, dk);
    }

    /** Allocates the page of a table. */
    method TakePage() returns (phys: nat)
      requires Valid()
      modifies this`used
      ensures Valid() && phys == old(used) && State() == old(State()).(used := old(used) + 1)
      ensures forall q :: q in pte.Tables() ==> pte.Tables()[q].phys != phys
    {
      hide ByRegion, TabsOk, DescriptorList.Valid;
      phys := used;
      used := used + 1;
      MoreUsed(old(State()));
    }

    method AppendPtes(p: nat, phys: nat, d: Node<Entry>, ghost dk: nat) returns (n: Node<Pte>, ghost k: nat)
      requires Valid() && p < PAGES && p / 512 !in pte.Tables()
      requires pde.At(d, dk, p / 512 / 512) && d.virt.Length == ENTRIES
      requires phys < used && forall q :: q in pte.Tables() ==> pte.Tables()[q].phys != phys
      modifies pte, pte.tail
      ensures Valid() && fresh(pte.Repr - old(pte.Repr)) && pte.At(n, k, p / 512)
      ensures State() == old(State()).(pte :=
        old(State()).pte[p / 512 := Tab(phys, NewPtes(p / 512, At(State().pde, p / 512).attr))])
    {
      hide ByRegion, TabsOk, DescriptorList.Valid;
      pte.Parts();
      var virt := NewPteTable(p / 512, d.virt[p / 512 % 512].attr);
      AddTab(pte.Tables(), LARGES, used, p / 512, Tab(phys, virt[..]));
      n := pte.Append(p / 512, phys, virt);
      k := |pte.nodes| - 1;
    }

    static lemma FullTable(s: Slat, q: nat)
      requires Shape(s) && q in s.pte
      ensures |s.pte[q].entries| == ENTRIES
    {
    }

    static lemma FullPdes(s: Slat, r: nat)
      requires Shape(s) && r in s.pde
      ensures |s.pde[r].entries| == ENTRIES
    {
    }

    static lemma MoreUsed(s: Slat)
      requires Shape(s)
      ensures Shape(s.(used := s.used + 1))
      ensures forall q :: q in s.pte ==> s.pte[q].phys != s.used
    {
    }

    method LinkLarge(p: nat, d: Node<Entry>, ghost dk: nat, n: Node<Pte>, ghost k: nat)
      requires Valid() && p < PAGES && pte.At(n, k, p / 512) && pde.At(d, dk, p / 512 / 512) && d.virt.Length == ENTRIES
      modifies pde`contents, d.virt
      ensures Valid() && State() == M.LinkPde(old(State()), p / 512) && pte.At(n, k, p / 512)
      ensures pde.Repr == old(pde.Repr)
    {
      hide ByRegion, TabsOk;
      WritePde(p, d, dk, Link(d.virt[p / 512 % 512], n.phys));
      assert State() == M.LinkPde(old(State()), p / 512);
    }

    method SplitPde(p: nat, host: bool, alloc: bool) returns (n: Node?<Pte>, ghost k: nat)
      requires Valid() && p < PAGES
      requires host ==> alloc || p / 512 in pte.Tables()
      modifies this`used, pdpt, pde.Repr, pte.Repr
      ensures Valid() && fresh(pde.Repr - old(pde.Repr)) && fresh(pte.Repr - old(pte.Repr))
      ensures State() == M.SplitPde(old(State()), p / 512, host, alloc)
      ensures n == null <==> p / 512 !in pte.Tables()
      ensures n != null ==> pte.At(n, k, p / 512)
    {
      hide Valid, ByRegion, M.SplitPdpte, M.LinkPde, DescriptorList.Valid, TabsOk;
      Facts();
      n, k := pte.FindRegion(p);
      if n == null && alloc {
        n, k := DescribeLarge(p, host);
      }
      if host {
        LinkBoth(p, alloc, n, k);
      }
      assert State() == M.SplitPde(old(State()), p / 512, host, alloc);
    }

    method LinkBoth(p: nat, alloc: bool, n: Node<Pte>, ghost k: nat)
      requires Valid() && p < PAGES && pte.At(n, k, p / 512)
      modifies this`used, pdpt, pde.Repr
      ensures Valid() && fresh(pde.Repr - old(pde.Repr)) && pte.Repr == old(pte.Repr)
      ensures State() == M.LinkPde(M.SplitPdpte(old(State()), p / 512 / 512, true, alloc), p / 512)
      ensures pte.At(n, k, p / 512)
    {
      hide Valid, ByRegion, M.SplitPdpte, M.LinkPde, TabsOk;
      Facts();
      var d, dk := SplitPdpte(p, true, alloc);
      Facts();
      LinkLarge(p, d, dk, n, k);
    }

    method WritePte(p: nat, n: Node<Pte>, ghost k: nat, e: Pte)
      requires Valid() && p < PAGES && pte.At(n, k, p / 512) && n.virt.Length == ENTRIES
      modifies pte`contents, n.virt
      ensures Valid() && State() == M.SetPte(old(State()), p, e) && pte.At(n, k, p / 512)
      ensures pte.Repr == old(pte.Repr)
    {
      hide ByRegion, TabsOk, DescriptorList.Valid;
      pte.Parts();
      pte.Write(n, k, p / 512, p % 512, e);
      assert State() == M.SetPte(old(State()), p, e);
    }

    method WritePde(p: nat, n: Node<Entry>, ghost k: nat, e: Entry)
      requires Valid() && p < PAGES && pde.At(n, k, p / 512 / 512) && n.virt.Length == ENTRIES
      modifies pde`contents, n.virt
      ensures Valid() && pde.At(n, k, p / 512 / 512) && pde.Repr == old(pde.Repr)
      ensures State() == old(State()).(pde := Put(old(State()).pde, p / 512, e))
    {
      hide ByRegion, DescriptorList.Valid;
      pde.Parts();
      PutAt(pde.Tables(), p / 512, e, HUGES, used);
      pde.Write(n, k, p / 512 / 512, p / 512 % 512, e);
    }

    method WritePdpte(r: nat, e: Entry)
      requires Valid() && r < HUGES
      modifies pdpt
      ensures Valid() && State() == old(State()).(pdpt := old(State()).pdpt[r := e])
    {
      hide ByRegion, TabsOk;
      pdpt[r] := e;
      assert pdpt[..] == old(pdpt[..])[r := e];
    }

    /** Rewrites every PDE. */
    method TransformPdes(f: Entry -> Entry)
      requires Valid()
      modifies pde.Repr
      ensures Valid() && pde.Repr == old(pde.Repr)
      ensures State() == old(State()).(pde := MapTabs(old(State()).pde, f))
    {
      hide ByRegion, TabsOk;
      MapTabsOk(pde.Tables(), HUGES, used, f);
      pde.Transform(f);
    }

    /** Rewrites every PTE. */
    method TransformPtes(f: Pte -> Pte)
      requires Valid()
      modifies pte.Repr
      ensures Valid() && pte.Repr == old(pte.Repr)
      ensures State() == old(State()).(pte := MapTabs(old(State()).pte, f))
    {
      hide ByRegion, TabsOk;
      MapTabsOk(pte.Tables(), LARGES, used, f);
      pte.Transform(f);
    }

    /** Maps page p to host page hpa with the given rights, and with a memory type unless the
        old one is to be kept. */
    method UpdatePte(hpa: nat, p: nat, r: bool, w: bool, x: bool, mt: Option<MemType>)
      returns (n: Node<Pte>, ghost k: nat)
      requires Valid() && p < PAGES
      modifies Footprint()
      ensures Valid() && fresh(Footprint() - old(Footprint()))
      ensures State() == M.UpdatePte(old(State()), hpa, p, r, w, x, mt)
      ensures pte.At(n, k, p / 512) && n.virt.Length == ENTRIES
    {
      hide ByRegion, TabsOk, M.SplitPde, M.SetPte;
      n, k := SplitPde(p, true, true);
      assert n.virt.Length == ENTRIES by { FullTable(State(), p / 512); }
      var a := n.virt[p % 512].attr;
      a := a.(read := r, write := w, execute := x);
      if mt.Some? {
        a := a.(memType := mt.value);
      }
      WritePte(p, n, k, Pte(hpa, a));
    }
  }
}
