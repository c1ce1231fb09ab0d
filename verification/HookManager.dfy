/**
  Building the hooked views in place on two managers.
*/
module HookManager {
  import opened Descriptors
  import opened IdentityMap
  import opened IdentityManager
  import opened EptMemoryType
  import opened HookViews
  import V = HookViews

  /** Redirects every hooked page by one PTE update each. */
  method UpdateHooks(m: Manager, hooks: seq<Hook>, rule: Rule)
    requires m.Valid() && HooksOk(hooks)
    modifies m.Footprint()
    ensures m.Valid() && fresh(m.Footprint() - old(m.Footprint()))
    ensures m.State() == UpdateAll(old(m.State()), HookUpdates(hooks, rule))
  {
    hide ByRegion, TabsOk, UpdatePte, DescriptorList.Valid;
    ghost var us := HookUpdates(hooks, rule);
    for i := 0 to |hooks|
      invariant m.Valid() && fresh(m.Footprint() - old(m.Footprint()))
      invariant m.State() == UpdateAll(old(m.State()), us[..i])
    {
      var h := hooks[i];
      var hpa := if rule.useCopy then h.copy else h.orig;
      var _, _ := m.UpdatePte(hpa, h.orig, rule.read, rule.write, rule.execute, None);
      assert us[..i + 1][..i] == us[..i] && us[i] == HookUpdate(h, rule);
    }
    assert us[..|hooks|] == us;
  }

  method SetPdpteTable(m: Manager, p: nat, rd: bool, wr: bool, ex: bool)
    requires m.Valid() && p < PAGES
    modifies m.Footprint()
    ensures m.Valid() && fresh(m.Footprint() - old(m.Footprint()))
    ensures m.State() == V.SetPdpteTable(old(m.State()), p / 512 / 512, rd, wr, ex)
  {
    hide ByRegion, TabsOk, SplitPdpte;
    var n, k := m.SplitPdpte(p, true, true);
    m.WritePdpte(p / 512 / 512, Table(n.phys, Rights(m.pdpt[p / 512 / 512].attr, rd, wr, ex)));
  }

  method SetPdeTable(m: Manager, p: nat, rd: bool, wr: bool, ex: bool)
    requires m.Valid() && p < PAGES
    modifies m.Footprint()
    ensures m.Valid() && fresh(m.Footprint() - old(m.Footprint()))
    ensures m.State() == V.SetPdeTable(old(m.State()), p / 512, rd, wr, ex)
  {
    hide ByRegion, TabsOk, DescriptorList.Valid, SplitPdpte, SplitPde;
    var _, _ := m.SplitPdpte(p, true, true);
    var n, k := m.SplitPde(p, true, true);
    PointPde(m, p, n.phys, rd, wr, ex);
  }

  /** Writes the PDE of page p; the descriptor of its region, once there, is the only one. */
  method PointPde(m: Manager, p: nat, phys: nat, rd: bool, wr: bool, ex: bool)
    requires m.Valid() && p < PAGES && p / 512 in m.pte.Tables()
    modifies m.pde.Repr
    ensures m.Valid() && m.Footprint() == old(m.Footprint())
    ensures m.State() == SetLarge(old(m.State()), p / 512,
      Table(phys, Rights(At(old(m.State()).pde, p / 512).attr, rd, wr, ex)))
  {
    hide ByRegion;
    Sized(m.State(), p);
    var d, k := m.pde.FindRegion(p);
    m.WritePde(p, d, k, Table(phys, Rights(d.virt[p / 512 % 512].attr, rd, wr, ex)));
  }

  method AdmitPde(m: Manager, p: nat)
    requires m.Valid() && p < PAGES && p / 512 in m.pte.Tables()
    modifies m.pde.Repr
    ensures m.Valid() && m.Footprint() == old(m.Footprint())
    ensures m.State() == SetLarge(old(m.State()), p / 512, EntryNx(At(old(m.State()).pde, p / 512), true))
  {
    hide ByRegion;
    Sized(m.State(), p);
    var d, k := m.pde.FindRegion(p);
    m.WritePde(p, d, k, EntryNx(d.virt[p / 512 % 512], true));
  }

  method AdmitPte(m: Manager, p: nat)
    requires m.Valid() && p < PAGES && p / 512 in m.pte.Tables()
    modifies m.pte.Repr
    ensures m.Valid() && m.Footprint() == old(m.Footprint())
    ensures var e := At(old(m.State()).pte, p); m.State() == SetPte(old(m.State()), p, Pte(e.frame, Nx(e.attr, true)))
  {
    hide ByRegion, TabsOk;
    assert |m.pte.Tables()[p / 512].entries| == ENTRIES by { Sized(m.State(), p); }
    var n, k := m.pte.FindRegion(p);
    var e := n.virt[p % 512];
    m.WritePte(p, n, k, Pte(e.frame, Nx(e.attr, true)));
  }

  /** Lets one hooked page execute. */
  method Admit(m: Manager, h: nat)
    requires m.Valid() && h < PAGES && h / 512 in m.pte.Tables()
    modifies m.Footprint()
    ensures m.Valid() && fresh(m.Footprint() - old(m.Footprint()))
    ensures m.State() == V.Admit(old(m.State()), h)
  {
    hide ByRegion, TabsOk, DescriptorList.Valid, V.SetPdeTable, V.SetPdpteTable, SetPte;
    SetPdeTable(m, h, true, true, true);
    AdmitPte(m, h);
    SetPdpteTable(m, h, true, true, true);
    AdmitPde(m, h);
  }

  /** Takes execution from every leaf PDPTE, every PDE and every PTE. */
  method Veil(m: Manager)
    requires m.Valid()
    modifies m.Footprint()
    ensures m.Valid() && m.Footprint() == old(m.Footprint()) && m.State() == V.Veil(old(m.State()))
  {
    hide ByRegion, TabsOk;
    VeilPdptes(m);
    m.TransformPdes(NxEntry);
    m.TransformPtes(NxPte);
    assert m.State() == V.Veil(old(m.State()));
  }

  method VeilPdptes(m: Manager)
    requires m.Valid()
    modifies m.pdpt
    ensures m.pdpt[..] == MapSeq(old(m.pdpt[..]), NxHuge)
  {
    for i := 0 to 512
      invariant forall r :: 0 <= r < i * 512 ==> m.pdpt[r] == NxHuge(old(m.pdpt[r]))
      invariant forall r :: i * 512 <= r < HUGES ==> m.pdpt[r] == old(m.pdpt[r])
    {
      for j := 0 to 512
        invariant forall r :: 0 <= r < i * 512 + j ==> m.pdpt[r] == NxHuge(old(m.pdpt[r]))
        invariant forall r :: i * 512 + j <= r < HUGES ==> m.pdpt[r] == old(m.pdpt[r])
      {
        var k := i * 512 + j;
        if m.pdpt[k].Leaf? { m.pdpt[k] := EntryNx(m.pdpt[k], false); }
      }
    }
    assert m.pdpt[..] == MapSeq(old(m.pdpt[..]), NxHuge);
  }

  /** Both views, each from its own manager. */
  method BuildHookMapping(pri: Manager, sec: Manager, hooks: seq<Hook>)
    requires pri.Valid() && sec.Valid() && pri.Footprint() !! sec.Footprint() && HooksOk(hooks)
    modifies pri.Footprint(), sec.Footprint()
    ensures pri.Valid() && sec.Valid() && pri.Footprint() !! sec.Footprint()
    ensures pri.State() == PrimaryMap(old(pri.State()), hooks) && sec.State() == SecondaryMap(old(sec.State()), hooks)
  {
    hide Manager.Valid, ByRegion, TabsOk, PrimaryMap, SecondaryMap;
    pri.Facts();
    sec.Facts();
    BuildPrimary(pri, hooks);
    pri.Facts();
    BuildSecondary(sec, hooks);
  }

  method BuildPrimary(pri: Manager, hooks: seq<Hook>)
    requires pri.Valid() && HooksOk(hooks)
    modifies pri.Footprint()
    ensures pri.Valid() && fresh(pri.Footprint() - old(pri.Footprint()))
    ensures pri.State() == PrimaryMap(old(pri.State()), hooks)
  {
    hide ByRegion, TabsOk, DescriptorList.Valid, UpdateAll;
    UpdateHooks(pri, hooks, PRIMARY);
  }

  method BuildSecondary(sec: Manager, hooks: seq<Hook>)
    requires sec.Valid() && HooksOk(hooks)
    modifies sec.Footprint()
    ensures sec.Valid() && fresh(sec.Footprint() - old(sec.Footprint()))
    ensures sec.State() == SecondaryMap(old(sec.State()), hooks)
  {
    hide ByRegion, TabsOk, DescriptorList.Valid, UpdateAll, V.Veil;
    UpdateHooks(sec, hooks, SECONDARY);
    UpdatesDescribe(old(sec.State()), hooks, SECONDARY);
    Veil(sec);
    AdmitHooks(sec, hooks);
  }

  method AdmitHooks(m: Manager, hooks: seq<Hook>)
    requires m.Valid() && HooksOk(hooks) && Described(m.State(), hooks)
    modifies m.Footprint()
    ensures m.Valid() && fresh(m.Footprint() - old(m.Footprint()))
    ensures m.State() == AdmitAll(old(m.State()), hooks)
  {
    hide ByRegion, TabsOk, DescriptorList.Valid, V.Admit;
    for i := 0 to |hooks|
      invariant m.Valid() && fresh(m.Footprint() - old(m.Footprint()))
      invariant m.State() == AdmitAll(old(m.State()), hooks[..i])
    {
      Admit(m, hooks[i].orig);
      assert hooks[..i + 1][..i] == hooks[..i];
    }
    assert hooks[..|hooks|] == hooks;
  }

  /** The two identity maps with the hooks in place. */
  method BuildViews(hooks: seq<Hook>) returns (pri: Manager, sec: Manager)
    requires HooksOk(hooks)
    ensures pri.Valid() && sec.Valid()
    ensures pri.State() == ViewOf(hooks, Primary) && sec.State() == ViewOf(hooks, Secondary)
  {
    hide ByRegion, TabsOk, DescriptorList.Valid, PrimaryMap, SecondaryMap;
    pri := new Manager(0);
    sec := new Manager(0);
    BuildHookMapping(pri, sec, hooks);
  }
}
