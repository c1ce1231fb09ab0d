/**
  The custom page table as the hypervisor keeps it: the root page and three descriptor lists,
  updated in place. Each routine is proved equal to its function of the table's value.
*/
module CustomManager {
  import opened Descriptors
  import opened IdentityMap
  import opened CustomMap
  import M = CustomMap

  class Manager {
    const pml4: array<PageEntry>
    const pdpte: DescriptorList<PageEntry>
    const pde: DescriptorList<PageEntry>
    const pte: DescriptorList<PageEntry>
    var used: nat

    /** Three valid lists that share nothing. */
    ghost predicate Separate()
      reads this, pml4, pdpte, pde, pte, pdpte.Repr, pde.Repr, pte.Repr
    {
      && pdpte.Valid() && pde.Valid() && pte.Valid()
      && pdpte.span == HalfTiB && pde.span == OneGiB && pte.span == TwoMiB
      && pdpte.Repr !! pde.Repr && pdpte.Repr !! pte.Repr && pde.Repr !! pte.Repr
      && this !in pdpte.Repr && this !in pde.Repr && this !in pte.Repr
      && pml4 !in pdpte.Repr && pml4 !in pde.Repr && pml4 !in pte.Repr
    }

    ghost predicate Valid()
      reads this, pml4, pdpte, pde, pte, pdpte.Repr, pde.Repr, pte.Repr
    {
      Separate() && M.Tables(State())
    }

    ghost function State(): (s: Custom)
      reads this, pml4, pdpte, pde, pte
    {
      Custom(pml4[..], pdpte.Tables(), pde.Tables(), pte.Tables(), used)
    }

    constructor ()
      ensures Valid() && fresh(pdpte.Repr) && fresh(pde.Repr) && fresh(pte.Repr) && fresh(pml4)
      ensures State() == Empty()
    {
      hide ByRegion, TabsOk, DescriptorList.Valid;
      EmptySparse();
      var root := NewRoot();
      pml4 := root;
      pdpte := new DescriptorList(HalfTiB);
      pde := new DescriptorList(OneGiB);
      pte := new DescriptorList(TwoMiB);
      used := 1;
    }

    lemma Facts()
      requires Valid()
      ensures M.Tables(State()) && |State().pml4| == TOPS
      ensures pdpte != pde && pde != pte && pdpte != pte && pdpte in pdpte.Repr && pde in pde.Repr && pte in pte.Repr
      ensures pdpte.Repr !! pde.Repr && pdpte.Repr !! pte.Repr && pde.Repr !! pte.Repr
      ensures pml4 !in pdpte.Repr && pml4 !in pde.Repr && pml4 !in pte.Repr
      ensures pdpte.tail != null ==> pdpte.tail in pdpte.Repr
      ensures pde.tail != null ==> pde.tail in pde.Repr
      ensures pte.tail != null ==> pte.tail in pte.Repr
    {
    }

    static method NewRoot() returns (root: array<PageEntry>)
      ensures fresh(root) && root[..] == Empty().pml4
    {
      root := new PageEntry[TOPS](_ => ZERO);
      assert root[..] == Empty().pml4;
    }

    static method NewTable(i: nat, e: PageEntry) returns (virt: array<PageEntry>)
      requires i < ENTRIES
      ensures fresh(virt) && virt.Length == ENTRIES && virt[..] == Zeros()[i := e]
    {
      virt := new PageEntry[ENTRIES](_ => ZERO);
      virt[i] := e;
      assert virt[..] == Zeros()[i := e];
    }

    /** The three searches by range. */
    method FindPdptes(p: nat) returns (n: Node?<PageEntry>, ghost k: nat)
      requires Valid() && p < PAGES
      ensures n == null <==> p / 512 / 512 / 512 !in pdpte.Tables()
      ensures n != null ==> pdpte.At(n, k, p / 512 / 512 / 512) && n.virt.Length == ENTRIES
      ensures n != null ==> n.virt[p / 512 / 512 % 512] == At(State().pdpte, p / 512 / 512)
    {
      hide ByRegion;
      n, k := pdpte.FindRegion(p);
    }

    method FindPdes(p: nat) returns (n: Node?<PageEntry>, ghost k: nat)
      requires Valid() && p < PAGES
      ensures n == null <==> p / 512 / 512 !in pde.Tables()
      ensures n != null ==> pde.At(n, k, p / 512 / 512) && n.virt.Length == ENTRIES
      ensures n != null ==> n.virt[p / 512 % 512] == At(State().pde, p / 512)
    {
      hide ByRegion;
      n, k := pde.FindRegion(p);
    }

    method FindPtes(p: nat) returns (n: Node?<PageEntry>, ghost k: nat)
      requires Valid() && p < PAGES
      ensures n == null <==> p / 512 !in pte.Tables()
      ensures n != null ==> pte.At(n, k, p / 512) && n.virt.Length == ENTRIES
      ensures n != null ==> n.virt[p % 512] == At(State().pte, p)
    {
      hide ByRegion;
      n, k := pte.FindRegion(p);
    }

    /** Follows physical pointers from the root, finding each table by its physical page. */
    method GetPhysicalMapping(p: nat, a: Ask) returns (result: bool, hpa: nat)
      requires Valid() && p < PAGES
      ensures (if result then Some(hpa) else None) == Lookup(State(), p, a)
    {
      hide ByRegion, TabsOk, LookupPdpte;
      result, hpa := false, 0;
      var e := pml4[p / 512 / 512 / 512];
      if Passes(e, a) {
        result, hpa := GetFromPdpte(e.base, p, a);
      }
    }

    method GetFromPdpte(phys: nat, p: nat, a: Ask) returns (result: bool, hpa: nat)
      requires Valid() && p < PAGES
      ensures (if result then Some(hpa) else None) == LookupPdpte(State(), phys, p, a)
    {
      hide ByRegion, LookupPde;
      result, hpa := false, 0;
      var n, k := pdpte.FindTable(phys);
      if n != null {
        TableAtOwn(pdpte.Tables(), TOPS, used, pdpte.contents[k].region);
        var e := n.virt[p / 512 / 512 % 512];
        if Passes(e, a) {
          if e.large {
            result, hpa := true, e.base / 512 / 512 * HUGES + p % HUGES;
          } else {
            result, hpa := GetFromPde(e.base, p, a);
          }
        }
      }
    }

    method GetFromPde(phys: nat, p: nat, a: Ask) returns (result: bool, hpa: nat)
      requires Valid() && p < PAGES
      ensures (if result then Some(hpa) else None) == LookupPde(State(), phys, p, a)
    {
      hide ByRegion, LookupPte;
      result, hpa := false, 0;
      var n, k := pde.FindTable(phys);
      if n != null {
        TableAtOwn(pde.Tables(), HUGES, used, pde.contents[k].region);
        var e := n.virt[p / 512 % 512];
        if Passes(e, a) {
          if e.large {
            result, hpa := true, e.base / 512 * 512 + p % 512;
          } else {
            result, hpa := GetFromPte(e.base, p, a);
          }
        }
      }
    }

    method GetFromPte(phys: nat, p: nat, a: Ask) returns (result: bool, hpa: nat)
      requires Valid() && p < PAGES
      ensures (if result then Some(hpa) else None) == LookupPte(State(), phys, p, a)
    {
      hide ByRegion;
      result, hpa := false, 0;
      var n, k := pte.FindTable(phys);
      if n != null {
        TableAtOwn(pte.Tables(), LARGES, used, pte.contents[k].region);
        var e := n.virt[p % 512];
        if Passes(e, a) {
          result, hpa := true, e.base;
        }
      }
    }

    /** A PDPTE table for page p, linked from the root. */
    method CreateTop(p: nat) returns (n: Node<PageEntry>, ghost k: nat)
      requires Valid() && p < PAGES && p / 512 / 512 / 512 !in pdpte.Tables()
      modifies this`used, pml4, pdpte, pdpte.tail
      ensures Valid() && fresh(pdpte.Repr - old(pdpte.Repr))
      ensures State() == M.CreateTop(old(State()), p / 512 / 512) && pdpte.At(n, k, p / 512 / 512 / 512)
    {
      hide ByRegion, TabsOk, DescriptorList.Valid;
      pdpte.Parts();
      WriteRoot(p / 512 / 512 / 512, LinkTo(used));
      n, k := AppendPdptes(p, LinkTo(0));
      hide Zeros;
      assert State() == M.CreateTop(old(State()), p / 512 / 512);
    }

    method WriteRoot(g: nat, e: PageEntry)
      requires Valid() && g < TOPS
      modifies pml4
      ensures Valid() && State() == old(State()).(pml4 := old(State()).pml4[g := e])
    {
      hide ByRegion, TabsOk;
      pml4[g] := e;
      assert pml4[..] == old(pml4[..])[g := e];
    }

    method AppendPdptes(p: nat, e: PageEntry) returns (n: Node<PageEntry>, ghost k: nat)
      requires Valid() && p < PAGES && p / 512 / 512 / 512 !in pdpte.Tables()
      modifies this`used, pdpte, pdpte.tail
      ensures Valid() && fresh(pdpte.Repr - old(pdpte.Repr)) && pdpte.At(n, k, p / 512 / 512 / 512)
      ensures State() == old(State()).(pdpte :=
        old(State()).pdpte[p / 512 / 512 / 512 := M.NewTable(old(used), p / 512 / 512 % 512, e)], used := old(used) + 1)
    {
      hide Separate, ByRegion, M.Tables, Zeros, DescriptorList.At;
      var virt := NewTable(p / 512 / 512 % 512, e);
      AddPdpte(State(), p / 512 / 512 / 512, M.NewTable(used, p / 512 / 512 % 512, e));
      Facts();
      n, k := PushPdptes(p, virt);
    }

    method PushPdptes(p: nat, virt: array<PageEntry>) returns (n: Node<PageEntry>, ghost k: nat)
      requires Separate() && p / 512 / 512 / 512 !in pdpte.Tables()
      requires virt != pml4 && virt !in pdpte.Repr && virt !in pde.Repr && virt !in pte.Repr
      modifies this`used, pdpte, pdpte.tail
      ensures Separate() && fresh(pdpte.Repr - old(pdpte.Repr) - {virt}) && pdpte.At(n, k, p / 512 / 512 / 512)
      ensures pdpte.Tables() == old(pdpte.Tables())[p / 512 / 512 / 512 := Tab(old(used), virt[..])]
        && used == old(used) + 1
    {
      hide ByRegion, DescriptorList.At, DescriptorList.Valid;
      pdpte.Parts();
      n := pdpte.Append(p / 512 / 512 / 512, used, virt);
      k := |pdpte.nodes| - 1;
      used := used + 1;
    }

    method WritePdpte(p: nat, n: Node<PageEntry>, ghost k: nat, e: PageEntry)
      requires Valid() && p < PAGES && pdpte.At(n, k, p / 512 / 512 / 512)
      modifies pdpte`contents, n.virt
      ensures Valid() && State() == M.SetPdpte(old(State()), p / 512 / 512, e) && pdpte.Repr == old(pdpte.Repr)
    {
      hide ByRegion, DescriptorList.Valid;
      pdpte.Parts();
      pdpte.Write(n, k, p / 512 / 512 / 512, p / 512 / 512 % 512, e);
      assert State() == M.SetPdpte(old(State()), p / 512 / 512, e);
    }

    method WritePde(p: nat, n: Node<PageEntry>, ghost k: nat, e: PageEntry)
      requires Valid() && p < PAGES && pde.At(n, k, p / 512 / 512)
      modifies pde`contents, n.virt
      ensures Valid() && State() == M.SetPde(old(State()), p / 512, e) && pde.Repr == old(pde.Repr)
    {
      hide ByRegion, DescriptorList.Valid;
      pde.Parts();
      pde.Write(n, k, p / 512 / 512, p / 512 % 512, e);
      assert State() == M.SetPde(old(State()), p / 512, e);
    }

    method WritePte(p: nat, n: Node<PageEntry>, ghost k: nat, e: PageEntry)
      requires Valid() && p < PAGES && pte.At(n, k, p / 512)
      modifies pte`contents, n.virt
      ensures Valid() && State() == M.SetPte(old(State()), p, e) && pte.Repr == old(pte.Repr)
    {
      hide ByRegion, DescriptorList.Valid;
      pte.Parts();
      pte.Write(n, k, p / 512, p % 512, e);
      assert State() == M.SetPte(old(State()), p, e);
    }

    method AppendPdes(p: nat, e: PageEntry) returns (n: Node<PageEntry>, ghost k: nat)
      requires Valid() && p < PAGES && p / 512 / 512 !in pde.Tables()
      modifies this`used, pde, pde.tail
      ensures Valid() && fresh(pde.Repr - old(pde.Repr)) && pde.At(n, k, p / 512 / 512)
      ensures State() == old(State()).(pde :=
        old(State()).pde[p / 512 / 512 := M.NewTable(old(used), p / 512 % 512, e)], used := old(used) + 1)
    {
      hide Separate, ByRegion, M.Tables, Zeros, DescriptorList.At;
      var virt := NewTable(p / 512 % 512, e);
      AddPde(State(), p / 512 / 512, M.NewTable(used, p / 512 % 512, e));
      Facts();
      n, k := PushPdes(p, virt);
    }

    method PushPdes(p: nat, virt: array<PageEntry>) returns (n: Node<PageEntry>, ghost k: nat)
      requires Separate() && p / 512 / 512 !in pde.Tables()
      requires virt != pml4 && virt !in pdpte.Repr && virt !in pde.Repr && virt !in pte.Repr
      modifies this`used, pde, pde.tail
      ensures Separate() && fresh(pde.Repr - old(pde.Repr) - {virt}) && pde.At(n, k, p / 512 / 512)
      ensures pde.Tables() == old(pde.Tables())[p / 512 / 512 := Tab(old(used), virt[..])] && used == old(used) + 1
    {
      hide ByRegion, DescriptorList.At, DescriptorList.Valid;
      pde.Parts();
      n := pde.Append(p / 512 / 512, used, virt);
      k := |pde.nodes| - 1;
      used := used + 1;
    }

    method AppendPtes(p: nat, e: PageEntry) returns (n: Node<PageEntry>, ghost k: nat)
      requires Valid() && p < PAGES && p / 512 !in pte.Tables()
      modifies this`used, pte, pte.tail
      ensures Valid() && fresh(pte.Repr - old(pte.Repr)) && pte.At(n, k, p / 512)
      ensures State() == old(State()).(pte := old(State()).pte[p / 512 := M.NewTable(old(used), p % 512, e)],
        used := old(used) + 1)
    {
      hide Separate, ByRegion, M.Tables, Zeros, DescriptorList.At;
      var virt := NewTable(p % 512, e);
      AddPte(State(), p / 512, M.NewTable(used, p % 512, e));
      Facts();
      n, k := PushPtes(p, virt);
    }

    method PushPtes(p: nat, virt: array<PageEntry>) returns (n: Node<PageEntry>, ghost k: nat)
      requires Separate() && p / 512 !in pte.Tables()
      requires virt != pml4 && virt !in pdpte.Repr && virt !in pde.Repr && virt !in pte.Repr
      modifies this`used, pte, pte.tail
      ensures Separate() && fresh(pte.Repr - old(pte.Repr) - {virt}) && pte.At(n, k, p / 512)
      ensures pte.Tables() == old(pte.Tables())[p / 512 := Tab(old(used), virt[..])] && used == old(used) + 1
    {
      hide ByRegion, DescriptorList.At, DescriptorList.Valid;
      pte.Parts();
      n := pte.Append(p / 512, used, virt);
      k := |pte.nodes| - 1;
      used := used + 1;
    }


    /** A PDE table for page p, linked from its PDPTE, whose own table is made when missing. */
    method CreateHuge(p: nat) returns (n: Node<PageEntry>, ghost k: nat)
      requires Valid() && p < PAGES && p / 512 / 512 !in pde.Tables()
      modifies this`used, pml4, pdpte.Repr, pde, pde.tail
      ensures Valid() && fresh(pdpte.Repr - old(pdpte.Repr)) && fresh(pde.Repr - old(pde.Repr))
      ensures State() == M.CreateHuge(old(State()), p / 512) && pde.At(n, k, p / 512 / 512)
    {
      hide Valid, ByRegion, M.Tables, M.CreateTop, M.SetPdpte, M.CreateHuge, M.NewTable;
      Facts();
      HugeSteps(State(), p / 512);
      var phys := used;
      n, k := AppendPdes(p, LinkTo(0));
      Facts();
      LinkFromTop(p, phys);
    }

    method LinkFromTop(p: nat, phys: nat)
      requires Valid() && p < PAGES
      modifies this`used, pml4, pdpte.Repr
      ensures Valid() && fresh(pdpte.Repr - old(pdpte.Repr))
      ensures var s := old(State()); var r := p / 512 / 512;
        State() == M.SetPdpte(if r / 512 in s.pdpte then s else M.CreateTop(s, r), r, LinkTo(phys))
    {
      hide Valid, ByRegion, M.Tables, M.CreateTop, M.SetPdpte;
      Facts();
      var n, k := FindPdptes(p);
      if n == null {
        n, k := CreateTop(p);
      }
      WritePdpte(p, n, k, LinkTo(phys));
    }

    method LinkFromHuge(p: nat, phys: nat)
      requires Valid() && p < PAGES
      modifies this`used, pml4, pdpte.Repr, pde.Repr
      ensures Valid() && fresh(pdpte.Repr - old(pdpte.Repr)) && fresh(pde.Repr - old(pde.Repr))
      ensures var s := old(State()); var q := p / 512;
        State() == M.SetPde(if q / 512 in s.pde then s else M.CreateHuge(s, q), q, LinkTo(phys))
    {
      hide Valid, ByRegion, M.Tables, M.CreateHuge, M.SetPde;
      Facts();
      var n, k := FindPdes(p);
      if n == null {
        n, k := CreateHuge(p);
      }
      WritePde(p, n, k, LinkTo(phys));
    }

    /** A PTE table for page p, linked from its PDE. */
    method CreateLarge(p: nat) returns (n: Node<PageEntry>, ghost k: nat)
      requires Valid() && p < PAGES && p / 512 !in pte.Tables()
      modifies this`used, pml4, pdpte.Repr, pde.Repr, pte.Repr
      ensures Valid() && fresh(pdpte.Repr - old(pdpte.Repr)) && fresh(pde.Repr - old(pde.Repr))
        && fresh(pte.Repr - old(pte.Repr))
      ensures State() == M.CreateLarge(old(State()), p) && pte.At(n, k, p / 512)
    {
      hide Valid, ByRegion, M.Tables, M.CreateHuge, M.SetPde, M.CreateLarge, M.NewTable;
      Facts();
      LargeSteps(State(), p);
      var phys := used;
      n, k := AppendPtes(p, PteFor(0, NULL_MAP));
      Facts();
      LinkFromHuge(p, phys);
    }

    method SetPageMap(p: nat, hpa: nat, m: MapAttr)
      requires Valid() && p < PAGES
      modifies this`used, pml4, pdpte.Repr, pde.Repr, pte.Repr
      ensures Valid() && fresh(pdpte.Repr - old(pdpte.Repr)) && fresh(pde.Repr - old(pde.Repr))
        && fresh(pte.Repr - old(pte.Repr))
      ensures State() == M.SetPage(old(State()), p, hpa, m)
    {
      hide Valid, ByRegion, M.Tables, M.CreateLarge, M.SetPte;
      Facts();
      var n, k := FindPtes(p);
      if n == null {
        n, k := CreateLarge(p);
      }
      WritePte(p, n, k, PteFor(hpa, m));
    }

    /** The mapping loop. */
    method SetMapping(p: nat, hpas: seq<nat>, m: MapAttr)
      requires Valid() && p + |hpas| <= PAGES
      modifies this`used, pml4, pdpte.Repr, pde.Repr, pte.Repr
      ensures Valid() && fresh(pdpte.Repr - old(pdpte.Repr)) && fresh(pde.Repr - old(pde.Repr))
        && fresh(pte.Repr - old(pte.Repr))
      ensures State() == SetPages(old(State()), p, hpas, |hpas|, m)
    {
      hide Valid, ByRegion, M.Tables, M.SetPage;
      Facts();
      for i := 0 to |hpas|
        invariant Valid() && fresh(pdpte.Repr - old(pdpte.Repr)) && fresh(pde.Repr - old(pde.Repr))
          && fresh(pte.Repr - old(pte.Repr))
        invariant State() == SetPages(old(State()), p, hpas, i, m)
      {
        SetPageMap(p + i, hpas[i], m);
      }
    }

    /** Finds the leaf of page p by descriptor range and clears its accessed and dirty bits. */
    method ClearAccessingBit(p: nat) returns (found: bool)
      requires Valid() && p < PAGES
      modifies pdpte.Repr, pde.Repr, pte.Repr
      ensures Valid() && pdpte.Repr == old(pdpte.Repr) && pde.Repr == old(pde.Repr) && pte.Repr == old(pte.Repr)
      ensures (State(), found) == ClearBits(old(State()), p)
    {
      hide Valid, M.Tables, ByRegion, M.SetPdpte, M.SetPde, M.SetPte;
      Facts();
      found := false;
      if pml4[p / 512 / 512 / 512].present {
        var n3, k3 := FindPdptes(p);
        if n3 != null && n3.virt[p / 512 / 512 % 512].present {
          var e3 := n3.virt[p / 512 / 512 % 512];
          if e3.large {
            WritePdpte(p, n3, k3, Plain(e3));
            found := true;
          } else {
            found := ClearLower(p);
          }
        }
      }
    }

    method ClearLower(p: nat) returns (found: bool)
      requires Valid() && p < PAGES
      modifies pde.Repr, pte.Repr
      ensures Valid() && pde.Repr == old(pde.Repr) && pte.Repr == old(pte.Repr)
      ensures var s, q := old(State()), p / 512;
        (State(), found) ==
          if q / 512 !in s.pde || !At(s.pde, q).present then (s, false)
          else if At(s.pde, q).large then (M.SetPde(s, q, Plain(At(s.pde, q))), true)
          else if q !in s.pte || !At(s.pte, p).present then (s, false)
          else (M.SetPte(s, p, Plain(At(s.pte, p))), true)
    {
      hide Valid, M.Tables, ByRegion, M.SetPde, M.SetPte;
      Facts();
      found := false;
      var n2, k2 := FindPdes(p);
      if n2 != null && n2.virt[p / 512 % 512].present {
        var e2 := n2.virt[p / 512 % 512];
        if e2.large {
          WritePde(p, n2, k2, Plain(e2));
          found := true;
        } else {
          var n1, k1 := FindPtes(p);
          if n1 != null && n1.virt[p % 512].present {
            WritePte(p, n1, k1, Plain(n1.virt[p % 512]));
            found := true;
          }
        }
      }
    }
  }
}
