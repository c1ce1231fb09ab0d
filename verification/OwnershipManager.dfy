/**
  Page-ownership reassignment in place, on the nested-paging manager and the reverse mapping.
*/
module OwnershipManager {
  import opened Descriptors
  import opened IdentityMap
  import opened IdentityManager
  import opened Ownership
  import O = Ownership

  class Hypervisor {
    const nptm: Manager
    const frameOf: Frames     // the physical page of each table
    var rmt: map<nat, Rme>

    constructor (nptm: Manager, frameOf: Frames, rmt: map<nat, Rme>)
      requires nptm.Valid()
      ensures Valid() && this.nptm == nptm && this.frameOf == frameOf && State() == Host(nptm.State(), rmt)
    {
      this.nptm, this.frameOf, this.rmt := nptm, frameOf, rmt;
    }

    ghost function Footprint(): (fp: set<object>)
      reads this, nptm, nptm.pde, nptm.pte
    {
      {this} + nptm.Footprint()
    }

    ghost predicate Valid()
      reads this, nptm, nptm.pde, nptm.pte, nptm.pdpt, nptm.pde.Repr, nptm.pte.Repr
    {
      nptm.Valid() && this !in nptm.Footprint()
    }

    ghost function State(): (h: Host)
      reads this, nptm, nptm.pdpt, nptm.pde, nptm.pte
    {
      Host(nptm.State(), rmt)
    }

    /** Checks every page of a request against the reverse mapping. */
    method Validate(q: Request) returns (ok: bool)
      requires Valid()
      ensures ok <==> AllAllowed(rmt, q)
    {
      for i := 0 to |q.hpas|
        invariant forall j :: 0 <= j < i ==> Allowed(rmt, q.hpas[j], q.shared, q.owner)
      {
        var p := q.hpas[i];
        if p in rmt {
          if rmt[p].owner == NoirVisor {
            return false;
          } else if rmt[p].owner == SecureGuest && q.owner == SecureGuest {
            return false;
          } else if q.owner == SecureGuest && q.shared {
            return false;
          }
        } else {
          return false;
        }
      }
      ok := true;
    }

    /** Stage II: nothing changes unless the whole request is allowed. */
    method ReassignRmt(q: Request) returns (ok: bool)
      requires Valid() && RequestOk(q)
      modifies this`rmt
      ensures Valid() && (ok <==> AllAllowed(old(rmt), q))
      ensures rmt == if ok then Configured(old(rmt), q, |q.hpas|) else old(rmt)
    {
      hide Manager.Valid, AllAllowed, Configured, PagesOk;
      ok := Validate(q);
      if ok {
        rmt := ConfigureAll(rmt, q);
      }
    }

    static method ConfigureAll(was: map<nat, Rme>, q: Request) returns (rmt: map<nat, Rme>)
      requires RequestOk(q)
      ensures rmt == Configured(was, q, |q.hpas|)
    {
      rmt := was;
      for i := 0 to |q.hpas|
        invariant rmt == Configured(was, q, i)
      {
        if q.hpas[i] in rmt {
          rmt := rmt[q.hpas[i] := Rme(q.asid, q.shared, q.owner, q.gpas[i])];
        }
      }
    }

    /** Stage III: links both levels and sets the rights of each page by its owner. */
    method Remap(hpas: seq<nat>)
      requires Valid() && PagesOk(hpas) && Described(nptm.State(), hpas, |hpas|)
      requires forall i :: 0 <= i < |hpas| ==> hpas[i] in rmt
      modifies nptm.Footprint()
      ensures Valid() && fresh(Footprint() - old(Footprint())) && rmt == old(rmt)
      ensures nptm.State() == Remapped(old(nptm.State()), rmt, hpas, |hpas|)
    {
      hide ByRegion, TabsOk, DescriptorList.Valid, O.RemapPage;
      for i := 0 to |hpas|
        invariant Valid() && fresh(Footprint() - old(Footprint())) && rmt == old(rmt)
        invariant nptm.State() == Remapped(old(nptm.State()), rmt, hpas, i)
      {
        RemapPage(hpas[i], rmt[hpas[i]].owner);
      }
    }

    method RemapPage(p: nat, owner: Owner)
      requires Valid() && p < PAGES && p / 512 in nptm.pte.Tables()
      modifies nptm.Footprint()
      ensures Valid() && fresh(Footprint() - old(Footprint())) && rmt == old(rmt)
      ensures nptm.State() == O.RemapPage(old(nptm.State()), p, owner)
    {
      hide ByRegion, TabsOk, SplitPde, SplitPdpte, SetPte, DescriptorList.Valid;
      var _, _ := nptm.SplitPdpte(p, true, false);
      var n, k := nptm.SplitPde(p, true, false);
      SetRights(p, n, k, owner);
    }

    method SetRights(p: nat, n: Node<Pte>, ghost k: nat, owner: Owner)
      requires Valid() && p < PAGES && nptm.pte.At(n, k, p / 512)
      modifies nptm.pte.Repr
      ensures Valid() && Footprint() == old(Footprint())
      ensures var e := At(old(nptm.State()).pte, p);
        nptm.State() == SetPte(old(nptm.State()), p, Pte(e.frame, Owned(e.attr, owner)))
    {
      hide ByRegion, TabsOk, SetPte, Owned;
      Manager.FullTable(nptm.State(), p / 512);
      var e := n.virt[p % 512];
      var a := RightsFor(e.attr, owner);
      nptm.WritePte(p, n, k, Pte(e.frame, a));
    }

    static method RightsFor(was: Attr, owner: Owner) returns (a: Attr)
      ensures a == Owned(was, owner)
    {
      a := was;
      match owner {
        case NoirVisor => a := a.(read := true, write := false, user := true);
        case SecureGuest => a := a.(read := false, write := false, user := false);
        case _ => a := a.(read := true, write := true, user := true);
      }
      a := a.(execute := true);
    }

    /** Stage I for one page. */
    method DescribePage(p: nat) returns (ok: bool)
      requires Valid() && p < PAGES
      modifies Footprint()
      ensures Valid() && fresh(Footprint() - old(Footprint()))
      ensures (State(), ok) == O.DescribePage(frameOf, old(State()), p)
      decreases Undescribed(nptm.State()), 1
    {
      hide ByRegion, Shape, Manager.Valid, O.Reassign, O.DescribePage, O.DescribeUpper, O.DescribeLower, Undescribed,
        Grows;
      ShapeOf();
      PageSteps(frameOf, State(), p);
      var pde, pte := LookUp(p);
      ok := true;
      if !pde {
        ok := DescribeUpper(p);
        if !ok { return; }
      }
      if !pte {
        ok := DescribeLower(p, old(State()));
      }
    }

    /** Both descriptors as they are. */
    method LookUp(p: nat) returns (pde: bool, pte: bool)
      requires Valid() && p < PAGES
      modifies Footprint()
      ensures Valid() && fresh(Footprint() - old(Footprint())) && State() == old(State())
      ensures (pde <==> p / 512 / 512 in State().slat.pde) && (pte <==> p / 512 in State().slat.pte)
    {
      hide ByRegion, TabsOk, DescriptorList.Valid;
      var d, _ := nptm.SplitPdpte(p, false, false);
      var t, _ := nptm.SplitPde(p, false, false);
      pde, pte := d != null, t != null;
    }

    method DescribeUpper(p: nat) returns (ok: bool)
      requires Valid() && p < PAGES && p / 512 / 512 !in nptm.pde.Tables()
      modifies Footprint()
      ensures Valid() && fresh(Footprint() - old(Footprint()))
      ensures (State(), ok) == O.DescribeUpper(frameOf, old(State()), p)
      decreases Undescribed(nptm.State()), 0
    {
      hide ByRegion, Shape, DescriptorList.Valid, Manager.Valid, O.Reassign, SplitPdpte, Undescribed;
      ShapeOf();
      HugeGrows(nptm.State(), p / 512 / 512);
      var pde, _ := nptm.SplitPdpte(p, false, true);
      UndescribedShrinks(old(nptm.State()), nptm.State());
      ok := Reassign(TableRequest(frameOf(pde.phys)));
    }

    method DescribeLower(p: nat, ghost h: Host) returns (ok: bool)
      requires Valid() && p < PAGES && Shape(h.slat) && Grows(h.slat, nptm.State()) && p / 512 !in h.slat.pte
      modifies Footprint()
      ensures Valid() && fresh(Footprint() - old(Footprint()))
      ensures (State(), ok) == O.DescribeLower(frameOf, h, old(State()), p)
      decreases Undescribed(h.slat), 0
    {
      hide ByRegion, Shape, DescriptorList.Valid, Manager.Valid, O.Reassign, SplitPde, Undescribed;
      ShapeOf();
      LargeGrows(nptm.State(), p / 512);
      var pte, _ := nptm.SplitPde(p, false, true);
      UndescribedShrinks(h.slat, nptm.State());
      ok := Reassign(TableRequest(frameOf(pte.phys)));
    }

    /** Stage I. */
    method DescribePages(hpas: seq<nat>) returns (ok: bool)
      requires Valid() && PagesOk(hpas)
      modifies Footprint()
      ensures Valid() && fresh(Footprint() - old(Footprint()))
      ensures (State(), ok) == O.DescribePages(frameOf, old(State()), hpas, |hpas|)
      decreases Undescribed(nptm.State()), 2
    {
      hide ByRegion, Shape, Manager.Valid, O.DescribePage, O.DescribePages, Undescribed;
      ShapeOf();
      DescribeSteps(frameOf, State(), hpas, 0);
      for i := 0 to |hpas|
        invariant Valid() && fresh(Footprint() - old(Footprint()))
        invariant (State(), true) == O.DescribePages(frameOf, old(State()), hpas, i)
      {
        UndescribedShrinks(old(nptm.State()), nptm.State());
        ok := DescribePage(hpas[i]);
        DescribeSteps(frameOf, old(State()), hpas, i + 1);
        if !ok {
          FailureStays(frameOf, old(State()), hpas, i + 1, |hpas|);
          return;
        }
      }
      ok := true;
    }

    method Reassign(q: Request) returns (ok: bool)
      requires Valid() && RequestOk(q)
      modifies Footprint()
      ensures Valid() && fresh(Footprint() - old(Footprint()))
      ensures (State(), ok) == O.Reassign(frameOf, old(State()), q)
      decreases Undescribed(nptm.State()), 3
    {
      hide ByRegion, Shape, Manager.Valid, O.DescribePages, O.Reassign, Undescribed, Assigned, AllAllowed, Described;
      ShapeOf();
      ReassignSteps(frameOf, State(), q);
      ok := DescribePages(q.hpas);
      if ok {
        ok := Assign(q);
      }
    }

    lemma ShapeOf()
      requires Valid()
      ensures Shape(nptm.State())
    {
    }

    /** Stages II and III. */
    method Assign(q: Request) returns (ok: bool)
      requires Valid() && RequestOk(q) && Described(nptm.State(), q.hpas, |q.hpas|)
      modifies Footprint()
      ensures Valid() && fresh(Footprint() - old(Footprint()))
      ensures ok <==> AllAllowed(old(rmt), q)
      ensures State() == if ok then Assigned(old(State()), q) else old(State())
    {
      hide ByRegion, TabsOk, DescriptorList.Valid, Remapped, Configured, AllAllowed, Described;
      ok := ReassignRmt(q);
      if ok {
        ConfiguredFacts(old(rmt), q);
        Remap(q.hpas);
      }
    }
  }
}
