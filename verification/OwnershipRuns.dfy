/**
  Page ownership over whole runs of requests: what becomes of secure pages and of NoirVisor's.
*/
module OwnershipRuns {
  import opened Descriptors
  import opened IdentityMap
  import opened Ownership
  import opened OwnershipOutcome

  /** A request goes through exactly when every listed page is main memory and not NoirVisor's, a
      request for a secure guest lists no page that is a secure guest's and is not for sharing, and
      the new tables' pages are all different, not listed, main memory, and not NoirVisor's. */
  lemma GoesThroughIff(f: Frames, h: Host, q: Request)
    requires Inv(h.slat) && RequestOk(q)
    ensures var ts := NewTables(f, h, q);
      Reassign(f, h, q).1 <==>
        && (forall p :: p in q.hpas ==> p in h.rmt && h.rmt[p].owner != NoirVisor)
        && (q.owner == SecureGuest ==> !q.shared && forall p :: p in q.hpas ==> h.rmt[p].owner != SecureGuest)
        && (forall i, j :: 0 <= i < j < |ts| ==> ts[i] != ts[j])
        && (forall t :: t in ts ==> t in h.rmt && h.rmt[t].owner != NoirVisor && t !in q.hpas)
  {
    hide View, Above, Linked, Pristine, TabsOk, Reassign, Tables;
    ReassignSucceedsIff(f, h, q);
    if AllAllowed(h.rmt, q) {
      forall p | p in q.hpas ensures Allowed(h.rmt, p, q.shared, q.owner) {
        var i :| 0 <= i < |q.hpas| && q.hpas[i] == p;
      }
      assert q.hpas[0] in q.hpas;
    }
  }

  /** Page p is listed, and e is the entry asked for, with a guest page listed beside it. */
  predicate Takes(q: Request, p: nat, e: Rme) {
    exists i :: 0 <= i < |q.hpas| && i < |q.gpas| && q.hpas[i] == p && e == Rme(q.asid, q.shared, q.owner, q.gpas[i])
  }

  /** What one request does to the entry of one page: it is listed and takes the entry asked for, or
      it is a new table's and becomes NoirVisor's, or it stays. */
  lemma EntryAfter(f: Frames, h: Host, q: Request, p: nat)
    requires Inv(h.slat) && RequestOk(q) && p in h.rmt
    ensures var (g, ok) := Reassign(f, h, q);
      && p in g.rmt
      && ( || g.rmt[p] == h.rmt[p]
           || g.rmt[p] == Rme(0, true, NoirVisor, p)
           || (ok && Takes(q, p, g.rmt[p])))
  {
    hide View, Above, Linked, Pristine, TabsOk, Reassign, Tables, Ruled, Taken;
    ReassignEffect(f, h, q);
  }

  // ---- Runs ----

  /** One request, granted or not. */
  ghost predicate Goes(f: Frames, h: Host, q: Request, g: Host, ok: bool) {
    Inv(h.slat) && RequestOk(q) && Reassign(f, h, q) == (g, ok)
  }

  /** Each state comes from the one before by one request. */
  ghost predicate IsRun(f: Frames, hs: seq<Host>, qs: seq<Request>, oks: seq<bool>) {
    && |hs| == |qs| + 1 && |oks| == |qs|
    && forall k :: 0 <= k < |qs| ==> Goes(f, hs[k], qs[k], hs[k + 1], oks[k])
  }

  /** What request q, granted or not, can do to an entry of page p: nothing; or the page becomes
      NoirVisor's; or it is listed, was not NoirVisor's, nor a secure guest's if it is to be one's, is
      not to be secure and shared, and takes the entry asked for. */
  predicate Stepped(q: Request, ok: bool, p: nat, e: Rme, e': Rme) {
    || e' == e
    || e'.owner == NoirVisor
    || ( && ok && Takes(q, p, e') && e.owner != NoirVisor
         && (q.owner == SecureGuest ==> e.owner != SecureGuest && !q.shared))
  }

  lemma EntryStep(f: Frames, h: Host, q: Request, g: Host, ok: bool, p: nat)
    requires Goes(f, h, q, g, ok) && p in h.rmt
    ensures p in g.rmt && Stepped(q, ok, p, h.rmt[p], g.rmt[p])
  {
    hide View, Above, Linked, Pristine, TabsOk, Reassign;
    EntryAfter(f, h, q, p);
    GoesThroughIff(f, h, q);
  }

  /** After any run every further request can be made, and the run with it is a run. */
  lemma RunGoesOn(f: Frames, hs: seq<Host>, qs: seq<Request>, oks: seq<bool>, q: Request)
    requires IsRun(f, hs, qs, oks) && Inv(hs[0].slat) && RequestOk(q)
    ensures var h := hs[|hs| - 1];
      Inv(h.slat) && var (g, ok) := Reassign(f, h, q); IsRun(f, hs + [g], qs + [q], oks + [ok])
  {
    hide View, Above, Linked, Pristine, TabsOk, Reassign, RequestOk, Goes;
    var n := |qs|;
    if n > 0 { GoesKeepsInv(f, hs[n - 1], qs[n - 1], hs[n - 1 + 1], oks[n - 1]); }
    var (g, ok) := Reassign(f, hs[n], q);
    GoesIs(f, hs[n], q);
    assert hs[..n + 1] == hs;
  }

  lemma GoesIs(f: Frames, h: Host, q: Request)
    requires Inv(h.slat) && RequestOk(q)
    ensures Goes(f, h, q, Reassign(f, h, q).0, Reassign(f, h, q).1)
  {
    hide View, Above, Linked, Pristine, TabsOk, Reassign;
  }

  lemma GoesKeepsInv(f: Frames, h: Host, q: Request, g: Host, ok: bool)
    requires Goes(f, h, q, g, ok)
    ensures Inv(g.slat)
  {
    hide View, Above, Linked, Pristine, TabsOk, Reassign, Tables, Ruled, Taken;
    ReassignEffect(f, h, q);
  }

  /** What becomes of the entry of page p along a run. */
  ghost predicate Trace(hs: seq<Host>, qs: seq<Request>, oks: seq<bool>, p: nat) {
    && |hs| == |qs| + 1 && |oks| == |qs|
    && (forall k :: 0 <= k < |hs| ==> p in hs[k].rmt)
    && forall k :: 0 <= k < |qs| ==> Stepped(qs[k], oks[k], p, hs[k].rmt[p], hs[k + 1].rmt[p])
  }

  lemma {:induction false} Listed(f: Frames, hs: seq<Host>, qs: seq<Request>, oks: seq<bool>, p: nat, k: nat)
    requires IsRun(f, hs, qs, oks) && p in hs[0].rmt && k < |hs|
    ensures p in hs[k].rmt
  {
    hide Goes, Stepped;
    if k > 0 {
      Listed(f, hs, qs, oks, p, k - 1);
      EntryStep(f, hs[k - 1], qs[k - 1], hs[k - 1 + 1], oks[k - 1], p);
    }
  }

  lemma TraceOf(f: Frames, hs: seq<Host>, qs: seq<Request>, oks: seq<bool>, p: nat)
    requires IsRun(f, hs, qs, oks) && p in hs[0].rmt
    ensures Trace(hs, qs, oks, p)
  {
    hide Goes, Stepped;
    forall k | 0 <= k < |hs| ensures p in hs[k].rmt { Listed(f, hs, qs, oks, p, k); }
    forall k | 0 <= k < |qs| ensures Stepped(qs[k], oks[k], p, hs[k].rmt[p], hs[k + 1].rmt[p]) {
      EntryStep(f, hs[k], qs[k], hs[k + 1], oks[k], p);
    }
  }

  lemma {:induction false} NeverSharedSecret(hs: seq<Host>, qs: seq<Request>, oks: seq<bool>, p: nat, n: nat)
    requires Trace(hs, qs, oks, p) && n < |hs| && !(hs[0].rmt[p].owner == SecureGuest && hs[0].rmt[p].shared)
    ensures !(hs[n].rmt[p].owner == SecureGuest && hs[n].rmt[p].shared)
  {
    if n > 0 {
      NeverSharedSecret(hs, qs, oks, p, n - 1);
      assert Stepped(qs[n - 1], oks[n - 1], p, hs[n - 1].rmt[p], hs[n - 1 + 1].rmt[p]);
    }
  }

  lemma {:induction false} NoirVisorKeeps(hs: seq<Host>, qs: seq<Request>, oks: seq<bool>, p: nat, i: nat, j: nat)
    requires Trace(hs, qs, oks, p) && i <= j < |hs| && hs[i].rmt[p].owner == NoirVisor
    ensures hs[j].rmt[p].owner == NoirVisor
  {
    if i < j {
      NoirVisorKeeps(hs, qs, oks, p, i, j - 1);
      assert Stepped(qs[j - 1], oks[j - 1], p, hs[j - 1].rmt[p], hs[j - 1 + 1].rmt[p]);
    }
  }

  lemma {:induction false} ReleasedBetween(hs: seq<Host>, qs: seq<Request>, oks: seq<bool>, p: nat, i: nat, j: nat)
    returns (k: nat)
    requires Trace(hs, qs, oks, p) && i <= j < |hs| && hs[i].rmt[p] != hs[j].rmt[p]
    requires hs[i].rmt[p].owner == SecureGuest && hs[j].rmt[p].owner != NoirVisor
    ensures i <= k < j && hs[k].rmt[p] == hs[i].rmt[p] && oks[k] && p in qs[k].hpas
    ensures hs[k + 1].rmt[p].owner == qs[k].owner && qs[k].owner in {SubvertedHost, InsecureGuest}
    decreases j - i
  {
    assert Stepped(qs[i], oks[i], p, hs[i].rmt[p], hs[i + 1].rmt[p]);
    if hs[i + 1].rmt[p] == hs[i].rmt[p] {
      k := ReleasedBetween(hs, qs, oks, p, i + 1, j);
    } else {
      k := i;
      if hs[i + 1].rmt[p].owner == NoirVisor { NoirVisorKeeps(hs, qs, oks, p, i + 1, j); }
    }
  }

  /** What the entry of page p lets the subverted host do with it, under levels above that leave rights
      a: it may not write NoirVisor's page nor touch a secure guest's, and all else is as above. */
  predicate HostMay(o: Owner, a: Attr, x: Attr) {
    && (x.read <==> o != SecureGuest && a.read) && (x.user <==> o != SecureGuest && a.user)
    && (x.write <==> o != SecureGuest && o != NoirVisor && a.write) && (x.execute <==> a.execute)
  }

  ghost predicate Obeys(h: Host, p: nat)
    requires p < PAGES
  {
    Inv(h.slat) && p in h.rmt && HostMay(h.rmt[p].owner, Above(h.slat, p), View(h.slat, p).attr)
  }

  lemma ObeysIsGoverned(h: Host, p: nat)
    requires Inv(h.slat) && p < PAGES
    ensures Obeys(h, p) <==> Governed(h, p)
  {
    hide Inv, View, Above;
  }

  lemma ObeyStep(f: Frames, h: Host, q: Request, g: Host, ok: bool, p: nat)
    requires Goes(f, h, q, g, ok) && p in h.rmt && p < PAGES
    ensures Inv(g.slat) && p in g.rmt
    ensures Obeys(h, p) || (ok && p in q.hpas) || g.rmt[p] != h.rmt[p] ==> Obeys(g, p)
  {
    hide View, Above, Linked, Pristine, TabsOk, Reassign, Governed, Obeys;
    ReassignKeepsGoverned(f, h, q, p);
    ObeysIsGoverned(h, p);
    ObeysIsGoverned(g, p);
  }

  /** Once the page's rights follow its owner, or it was reassigned, or its entry has changed, they
      follow its owner at every later state of the run. */
  lemma {:induction false} RightsFollowOwner(f: Frames, hs: seq<Host>, qs: seq<Request>, oks: seq<bool>, p: nat,
    i: nat, j: nat)
    requires IsRun(f, hs, qs, oks) && p in hs[0].rmt && p < PAGES && i <= j < |hs|
    ensures p in hs[i].rmt && p in hs[j].rmt
    ensures Obeys(hs[i], p) || hs[j].rmt[p] != hs[i].rmt[p] || (exists k :: i <= k < j && oks[k] && p in qs[k].hpas) ==>
      Obeys(hs[j], p)
  {
    hide Goes, Obeys;
    Listed(f, hs, qs, oks, p, i);
    Listed(f, hs, qs, oks, p, j);
    if i < j {
      RightsFollowOwner(f, hs, qs, oks, p, i, j - 1);
      ObeyStep(f, hs[j - 1], qs[j - 1], hs[j - 1 + 1], oks[j - 1], p);
    }
  }

  /** No run of requests makes a secure page shared, or takes a page from NoirVisor. */
  lemma SecretsStay(f: Frames, hs: seq<Host>, qs: seq<Request>, oks: seq<bool>, p: nat, n: nat)
    requires IsRun(f, hs, qs, oks) && p in hs[0].rmt && n < |hs|
    ensures p in hs[n].rmt
    ensures !(hs[0].rmt[p].owner == SecureGuest && hs[0].rmt[p].shared) ==>
      !(hs[n].rmt[p].owner == SecureGuest && hs[n].rmt[p].shared)
    ensures hs[0].rmt[p].owner == NoirVisor ==> hs[n].rmt[p].owner == NoirVisor
  {
    hide IsRun;
    TraceOf(f, hs, qs, oks, p);
    if !(hs[0].rmt[p].owner == SecureGuest && hs[0].rmt[p].shared) { NeverSharedSecret(hs, qs, oks, p, n); }
    if hs[0].rmt[p].owner == NoirVisor { NoirVisorKeeps(hs, qs, oks, p, 0, n); }
  }

  /** A secure guest's page that is a secure guest's again later with another entry, be it another
      guest's or at another place, was in between taken from its guest by a request for a guest that is
      not secure or for the host. */
  lemma SecurePageIsReleased(f: Frames, hs: seq<Host>, qs: seq<Request>, oks: seq<bool>, p: nat, i: nat, j: nat)
    returns (k: nat)
    requires IsRun(f, hs, qs, oks) && p in hs[0].rmt && i <= j < |hs|
    ensures p in hs[i].rmt && p in hs[j].rmt
    ensures hs[i].rmt[p].owner == SecureGuest && hs[j].rmt[p].owner == SecureGuest && hs[i].rmt[p] != hs[j].rmt[p] ==>
      && i <= k < j && p in hs[k].rmt && hs[k].rmt[p] == hs[i].rmt[p] && p in hs[k + 1].rmt
      && oks[k] && p in qs[k].hpas && qs[k].owner in {SubvertedHost, InsecureGuest}
      && hs[k + 1].rmt[p].owner == qs[k].owner
  {
    hide IsRun, Stepped;
    TraceOf(f, hs, qs, oks, p);
    if hs[i].rmt[p].owner == SecureGuest && hs[j].rmt[p].owner == SecureGuest && hs[i].rmt[p] != hs[j].rmt[p] {
      k := ReleasedBetween(hs, qs, oks, p, i, j);
    } else {
      k := 0;
    }
  }

  /** Guest 2 cannot take a secure page of guest 1's. */
  lemma SecurePageRefused(f: Frames, h: Host, q: Request)
    requires Inv(h.slat) && h.rmt == map[7 := Rme(1, false, SecureGuest, 7)]
    requires q == Request([7], [9], 2, false, SecureGuest)
    ensures RequestOk(q) && !Reassign(f, h, q).1
  {
    hide View, Above, Linked, Pristine, TabsOk, Reassign, NewTables;
    assert q.hpas[0] == 7;
    GoesThroughIff(f, h, q);
    assert 7 in q.hpas && h.rmt[7].owner == SecureGuest && q.owner == SecureGuest;
  }
}
