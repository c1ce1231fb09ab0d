/**
  Mapping calls against running virtual CPUs: a mapping call takes every vCPU's lock in order,
  changes the page table, drops every vCPU's TLB flag and releases the locks; a vCPU runs under
  its own lock and asks for a TLB flush on its first entry without the flag.
*/
module MappingLocks {

  /** Mapping calls lock vCPUs 0 to 254; a virtual machine has room for 256. */
  const LOCKED: nat := 255

  /** Where a host thread is: in a mapping call, or running a vCPU. */
  datatype Pc =
    | Idle
    | Acquire(next: nat, pages: nat) | Mapping(pages: nat) | Broadcast(next: nat) | Release(next: nat)
    | WantLock(vcpu: nat) | Ready(vcpu: nat) | InGuest(vcpu: nat)

  /** `version` counts page-table changes; for each vCPU, `enteredAt` and `flushedAt` record the
      version at its last entry and at its last entry with a flush request. */
  datatype State = State(vcpus: set<nat>, owner: map<nat, nat>, pc: map<nat, Pc>, valid: set<nat>, flush: set<nat>,
                         version: nat, enteredAt: map<nat, nat>, flushedAt: map<nat, nat>)

  datatype Event =
    | StartMap(thread: nat, pages: nat) | Lock(thread: nat) | MapPage(thread: nat) | Invalidate(thread: nat)
    | Unlock(thread: nat)
    | StartRun(thread: nat, vcpu: nat) | TakeLock(thread: nat) | Enter(thread: nat) | Resume(thread: nat)
    | Leave(thread: nat)
    | DropLock(thread: nat)

  function PcOf(s: State, t: nat): (pc: Pc) {
    if t in s.pc then s.pc[t] else Idle
  }

  predicate Enabled(s: State, e: Event) {
    var pc := PcOf(s, e.thread);
    match e
    case StartMap(_, _) => pc == Idle
    case Lock(_) => pc.Acquire? && (pc.next < LOCKED && pc.next in s.vcpus ==> pc.next !in s.owner)
    case MapPage(_) => pc.Mapping?
    case Invalidate(_) => pc.Broadcast?
    case Unlock(_) => pc.Release?
    case StartRun(_, v) => pc == Idle && v in s.vcpus
    case TakeLock(_) => pc.WantLock? && pc.vcpu !in s.owner
    case Enter(_) => pc.Ready?
    case Resume(_) => pc.InGuest?
    case Leave(_) => pc.InGuest?
    case DropLock(_) => pc.Ready?
  }

  function Goto(s: State, t: nat, pc: Pc): (u: State) {
    s.(pc := s.pc[t := pc])
  }

  function Next(s: State, e: Event): (u: State)
    requires Enabled(s, e)
  {
    var t := e.thread;
    var pc := PcOf(s, t);
    match e
    case StartMap(_, n) => Goto(s, t, Acquire(0, n))
    case Lock(_) =>
      if pc.next >= LOCKED then Goto(s, t, Mapping(pc.pages)) else
      Goto(if pc.next in s.vcpus then s.(owner := s.owner[pc.next := t]) else s, t, Acquire(pc.next + 1, pc.pages))
    case MapPage(_) =>
      if pc.pages == 0 then Goto(s, t, Broadcast(0)) else Goto(s.(version := s.version + 1), t, Mapping(pc.pages - 1))
    case Invalidate(_) =>
      if pc.next >= LOCKED then Goto(s, t, Release(0)) else
      Goto(if pc.next in s.vcpus then s.(valid := s.valid - {pc.next}) else s, t, Broadcast(pc.next + 1))
    case Unlock(_) =>
      if pc.next >= LOCKED then Goto(s, t, Idle) else
      Goto(if pc.next in s.vcpus then s.(owner := s.owner - {pc.next}) else s, t, Release(pc.next + 1))
    case StartRun(_, v) => Goto(s, t, WantLock(v))
    case TakeLock(_) => Goto(s.(owner := s.owner[pc.vcpu := t]), t, Ready(pc.vcpu))
    case Enter(_) =>
      var v := pc.vcpu;
      Goto(s.(flush := if v in s.valid then s.flush else s.flush + {v}, valid := s.valid + {v},
              enteredAt := s.enteredAt[v := s.version],
              flushedAt := if v in s.valid then s.flushedAt else s.flushedAt[v := s.version]), t, InGuest(v))
    case Resume(_) => s.(flush := s.flush - {pc.vcpu})
    case Leave(_) => Goto(s.(flush := s.flush - {pc.vcpu}), t, Ready(pc.vcpu))
    case DropLock(_) => Goto(s.(owner := s.owner - {pc.vcpu}), t, Idle)
  }

  // ---- The invariant ----

  /** The locks a thread holds, by where it is. */
  predicate Claims(s: State, pc: Pc, v: nat) {
    match pc
    case Acquire(i, _) => v < i && v < LOCKED && v in s.vcpus
    case Mapping(_) => v < LOCKED && v in s.vcpus
    case Broadcast(_) => v < LOCKED && v in s.vcpus
    case Release(i) => i <= v < LOCKED && v in s.vcpus
    case Ready(w) => v == w
    case InGuest(w) => v == w
    case _ => false
  }

  /** A mapping call that may have changed the table and has not yet dropped v's flag. */
  predicate Pending(pc: Pc, v: nat) {
    pc.Mapping? || (pc.Broadcast? && pc.next <= v)
  }

  ghost predicate LocksOk(s: State) {
    forall t, v :: Claims(s, PcOf(s, t), v) <==> v in s.owner && s.owner[v] == t
  }

  ghost predicate RunnersOk(s: State) {
    forall t :: PcOf(s, t).WantLock? || PcOf(s, t).Ready? || PcOf(s, t).InGuest? ==> PcOf(s, t).vcpu in s.vcpus
  }

  ghost predicate GuestsOk(s: State) {
    forall t :: PcOf(s, t).InGuest? && PcOf(s, t).vcpu < LOCKED ==>
      PcOf(s, t).vcpu in s.enteredAt && s.enteredAt[PcOf(s, t).vcpu] == s.version
  }

  /** The flag of vCPU v tells the truth or is about to be dropped. */
  ghost predicate FlagOk(s: State, v: nat) {
    v in s.valid && v < LOCKED && v in s.vcpus ==>
      v in s.flushedAt && (s.flushedAt[v] == s.version || exists t :: Pending(PcOf(s, t), v))
  }

  ghost predicate Inv(s: State) {
    LocksOk(s) && RunnersOk(s) && GuestsOk(s) && forall v :: FlagOk(s, v)
  }

  function Start(vcpus: set<nat>): (s: State) {
    State(vcpus, map[], map[], {}, {}, 0, map[], map[])
  }

  lemma StartInv(vcpus: set<nat>)
    ensures Inv(Start(vcpus))
  {
  }

  /** A claimed lock excludes everyone else. */
  lemma Exclusive(s: State, t: nat, u: nat, v: nat)
    requires LocksOk(s) && Claims(s, PcOf(s, t), v) && Claims(s, PcOf(s, u), v)
    ensures t == u
  {
    assert v in s.owner && s.owner[v] == t && s.owner[v] == u;
  }

  lemma LocksStep(s: State, e: Event)
    requires LocksOk(s) && Enabled(s, e)
    ensures LocksOk(Next(s, e))
  {
    hide Claims;
    var u, t := Next(s, e), e.thread;
    forall x, v ensures Claims(u, PcOf(u, x), v) <==> v in u.owner && u.owner[v] == x {
      if x == t {
        MoverKeepsLocks(s, e, v);
      } else {
        assert PcOf(u, x) == PcOf(s, x) && u.vcpus == s.vcpus;
        SameClaims(s, u, PcOf(s, x), v);
        OthersKeepLocks(s, e, x, v);
      }
    }
  }

  lemma SameClaims(s: State, u: State, pc: Pc, v: nat)
    requires u.vcpus == s.vcpus
    ensures Claims(u, pc, v) == Claims(s, pc, v)
  {
  }

  lemma MoverKeepsLocks(s: State, e: Event, v: nat)
    requires LocksOk(s) && Enabled(s, e)
    ensures var u := Next(s, e);
      Claims(u, PcOf(u, e.thread), v) <==> v in u.owner && u.owner[v] == e.thread
  {
    assert Claims(s, PcOf(s, e.thread), v) <==> v in s.owner && s.owner[v] == e.thread;
  }

  /** A step takes only free locks and gives back only its thread's own. */
  lemma OthersKeepLocks(s: State, e: Event, x: nat, v: nat)
    requires LocksOk(s) && Enabled(s, e) && x != e.thread
    ensures v in s.owner && s.owner[v] == x <==> v in Next(s, e).owner && Next(s, e).owner[v] == x
  {
    var pc := PcOf(s, e.thread);
    if e.Unlock? && pc.next < LOCKED { assert Claims(s, pc, pc.next) <==> pc.next in s.vcpus; }
    if e.DropLock? { assert Claims(s, pc, pc.vcpu); }
  }

  /** While a mapping call is pending for a vCPU it holds that vCPU's lock. */
  lemma PendingExcludes(s: State, t: nat, u: nat, v: nat)
    requires LocksOk(s) && v < LOCKED && v in s.vcpus && Pending(PcOf(s, t), v) && Claims(s, PcOf(s, u), v)
    ensures t == u
  {
    Exclusive(s, t, u, v);
  }

  lemma GuestsStep(s: State, e: Event)
    requires Inv(s) && Enabled(s, e)
    ensures GuestsOk(Next(s, e)) && RunnersOk(Next(s, e))
  {
    var u, t := Next(s, e), e.thread;
    forall x | PcOf(u, x).InGuest? && PcOf(u, x).vcpu < LOCKED
      ensures PcOf(u, x).vcpu in u.enteredAt && u.enteredAt[PcOf(u, x).vcpu] == u.version
    {
      var v := PcOf(u, x).vcpu;
      if x != t {
        assert PcOf(u, x) == PcOf(s, x);
        if e.MapPage? { Exclusive(s, t, x, v); }
        if e.Enter? && PcOf(s, t).vcpu == v { Exclusive(s, t, x, v); }
      }
    }
    forall x | PcOf(u, x).WantLock? || PcOf(u, x).Ready? || PcOf(u, x).InGuest? ensures PcOf(u, x).vcpu in u.vcpus {
      if x != t { assert PcOf(u, x) == PcOf(s, x); }
    }
  }

  lemma FlagStep(s: State, e: Event, v: nat)
    requires Inv(s) && Enabled(s, e)
    ensures FlagOk(Next(s, e), v)
  {
    var u, t := Next(s, e), e.thread;
    var pc := PcOf(s, t);
    assert FlagOk(s, v);
    if v in u.valid && v < LOCKED && v in u.vcpus {
      if e.Enter? && pc.vcpu == v {
        if v in s.valid { NotPending(s, t, v); }
      } else if e.MapPage? {
        assert Pending(PcOf(u, t), v);
      } else if s.flushedAt[v] != s.version {
        var x :| Pending(PcOf(s, x), v);
        if x != t { assert PcOf(u, x) == PcOf(s, x); }
        assert Pending(PcOf(u, x), v);
      }
    }
  }

  lemma NotPending(s: State, t: nat, v: nat)
    requires LocksOk(s) && v < LOCKED && v in s.vcpus && PcOf(s, t) == Ready(v)
    ensures forall x :: !Pending(PcOf(s, x), v)
  {
    forall x ensures !Pending(PcOf(s, x), v) {
      if Pending(PcOf(s, x), v) { PendingExcludes(s, x, t, v); }
    }
  }

  /** Every step of every thread keeps the invariant. */
  lemma StepKeeps(s: State, e: Event)
    requires Inv(s) && Enabled(s, e)
    ensures Inv(Next(s, e))
  {
    LocksStep(s, e);
    GuestsStep(s, e);
    forall v ensures FlagOk(Next(s, e), v) { FlagStep(s, e, v); }
  }

  // ---- Runs ----

  ghost predicate Steps(ss: seq<State>, es: seq<Event>) {
    && |ss| == |es| + 1
    && forall k :: 0 <= k < |es| ==> Enabled(ss[k], es[k]) && ss[k + 1] == Next(ss[k], es[k])
  }

  ghost predicate IsRun(ss: seq<State>, es: seq<Event>) {
    Steps(ss, es) && exists vcpus :: ss[0] == Start(vcpus)
  }

  lemma {:induction false} InvThroughout(ss: seq<State>, es: seq<Event>, k: nat)
    requires IsRun(ss, es) && k < |ss|
    ensures Inv(ss[k])
  {
    hide Inv, Next, Enabled;
    if k == 0 {
      var vcpus :| ss[0] == Start(vcpus);
      StartInv(vcpus);
    } else {
      InvThroughout(ss, es, k - 1);
      assert ss[k - 1 + 1] == Next(ss[k - 1], es[k - 1]);
      StepKeeps(ss[k - 1], es[k - 1]);
    }
  }

  /** No mapping call changes the table between the entry and the exit of a vCPU below 255, in any
      interleaving of any number of threads. */
  lemma TableFixedInGuest(ss: seq<State>, es: seq<Event>, k: nat, t: nat)
    requires IsRun(ss, es) && k < |es| && PcOf(ss[k], t).InGuest? && PcOf(ss[k], t).vcpu < 255
    ensures ss[k + 1].version == ss[k].version && ss[k].enteredAt.Keys >= {PcOf(ss[k], t).vcpu}
    ensures ss[k].enteredAt[PcOf(ss[k], t).vcpu] == ss[k].version
  {
    InvThroughout(ss, es, k);
    var s, e, v := ss[k], es[k], PcOf(ss[k], t).vcpu;
    assert Enabled(s, e) && ss[k + 1] == Next(s, e);
    if e.MapPage? { Exclusive(s, e.thread, t, v); }
  }

  /** The first entry after the table changed asks for a flush: whenever a vCPU below 255 is in its
      guest, its last entry with a request came at the current version of the table. */
  lemma EntryAfterChangeFlushes(ss: seq<State>, es: seq<Event>, k: nat, v: nat)
    requires IsRun(ss, es) && k < |es| && es[k].Enter? && PcOf(ss[k], es[k].thread) == Ready(v) && v < 255
    ensures v in ss[k + 1].flushedAt && ss[k + 1].flushedAt[v] == ss[k + 1].version
    ensures v !in ss[k].flushedAt || ss[k].flushedAt[v] != ss[k].version ==> v in ss[k + 1].flush
  {
    InvThroughout(ss, es, k);
    var s, e := ss[k], es[k];
    assert Enabled(s, e) && ss[k + 1] == Next(s, e);
    assert FlagOk(s, v);
    NotPending(s, e.thread, v);
  }

  /** Step k lets vCPU v into its guest. */
  predicate Enters(ss: seq<State>, es: seq<Event>, k: nat, v: nat)
    requires k < |es| && k < |ss|
  {
    es[k].Enter? && PcOf(ss[k], es[k].thread) == Ready(v)
  }

  /** At step k a mapping call gets to vCPU v with its invalidation. */
  predicate Invalidates(ss: seq<State>, es: seq<Event>, k: nat, v: nat)
    requires k < |es| && k < |ss|
  {
    es[k].Invalidate? && PcOf(ss[k], es[k].thread) == Broadcast(v) && v < 255 && v in ss[k].vcpus
  }

  /** vCPU v has entered before step k, and no invalidation has got to it since. */
  ghost predicate EnteredSince(ss: seq<State>, es: seq<Event>, k: nat, v: nat)
    requires |ss| == |es| + 1 && k <= |es|
  {
    exists j :: 0 <= j < k && Enters(ss, es, j, v) && forall i :: j < i < k ==> !Invalidates(ss, es, i, v)
  }

  lemma SinceStep(ss: seq<State>, es: seq<Event>, k: nat, v: nat)
    requires |ss| == |es| + 1 && k < |es|
    ensures EnteredSince(ss, es, k + 1, v) <==>
      Enters(ss, es, k, v) || (EnteredSince(ss, es, k, v) && !Invalidates(ss, es, k, v))
  {
    hide Enters, Invalidates;
    if EnteredSince(ss, es, k, v) && !Invalidates(ss, es, k, v) {
      var j :| 0 <= j < k && Enters(ss, es, j, v) && forall i :: j < i < k ==> !Invalidates(ss, es, i, v);
      assert forall i :: j < i < k + 1 ==> !Invalidates(ss, es, i, v);
    }
  }

  lemma {:induction false} ValidIffEnteredSince(ss: seq<State>, es: seq<Event>, k: nat, v: nat)
    requires IsRun(ss, es) && k < |ss|
    ensures v in ss[k].valid <==> EnteredSince(ss, es, k, v)
  {
    if k > 0 {
      ValidIffEnteredSince(ss, es, k - 1, v);
      SinceStep(ss, es, k - 1, v);
      hide EnteredSince;
      assert Enabled(ss[k - 1], es[k - 1]) && ss[k - 1 + 1] == Next(ss[k - 1], es[k - 1]);
    }
  }

  /** An entry asks for a flush exactly if it is the vCPU's first or an invalidation got to the vCPU
      since its last. */
  lemma EntryFlushesIff(ss: seq<State>, es: seq<Event>, k: nat, v: nat)
    requires IsRun(ss, es) && k < |es| && Enters(ss, es, k, v)
    ensures ss[k + 1].flush == if EnteredSince(ss, es, k, v) then ss[k].flush else ss[k].flush + {v}
  {
    ValidIffEnteredSince(ss, es, k, v);
    hide EnteredSince;
    assert Enabled(ss[k], es[k]) && ss[k + 1] == Next(ss[k], es[k]);
  }

  /** At step k vCPU v comes back from its guest. */
  predicate Exits(ss: seq<State>, es: seq<Event>, k: nat, v: nat)
    requires k < |es| && k < |ss|
  {
    (es[k].Resume? || es[k].Leave?) && PcOf(ss[k], es[k].thread) == InGuest(v)
  }

  /** vCPU v has entered with need of a flush and has not come back since. */
  ghost predicate FlushDue(ss: seq<State>, es: seq<Event>, k: nat, v: nat)
    requires |ss| == |es| + 1 && k <= |es|
  {
    exists j :: 0 <= j < k && Enters(ss, es, j, v) && !EnteredSince(ss, es, j, v)
                && forall i :: j < i < k ==> !Exits(ss, es, i, v)
  }

  lemma DueStep(ss: seq<State>, es: seq<Event>, k: nat, v: nat)
    requires |ss| == |es| + 1 && k < |es|
    ensures FlushDue(ss, es, k + 1, v) <==>
      (Enters(ss, es, k, v) && !EnteredSince(ss, es, k, v)) || (FlushDue(ss, es, k, v) && !Exits(ss, es, k, v))
  {
    hide Enters, Exits, EnteredSince;
    if FlushDue(ss, es, k, v) && !Exits(ss, es, k, v) {
      var j :| 0 <= j < k && Enters(ss, es, j, v) && !EnteredSince(ss, es, j, v)
        && forall i :: j < i < k ==> !Exits(ss, es, i, v);
      assert forall i :: j < i < k + 1 ==> !Exits(ss, es, i, v);
    }
  }

  /** A request is up exactly from the entry that needs it until the vCPU next comes back. */
  lemma {:induction false} RequestIffDue(ss: seq<State>, es: seq<Event>, k: nat, v: nat)
    requires IsRun(ss, es) && k < |ss|
    ensures v in ss[k].flush <==> FlushDue(ss, es, k, v)
  {
    if k > 0 {
      RequestIffDue(ss, es, k - 1, v);
      DueStep(ss, es, k - 1, v);
      ValidIffEnteredSince(ss, es, k - 1, v);
      hide FlushDue, EnteredSince;
      assert Enabled(ss[k - 1], es[k - 1]) && ss[k - 1 + 1] == Next(ss[k - 1], es[k - 1]);
    }
  }

  /** A request stands until its own vCPU comes back from the guest. */
  lemma RequestStands(s: State, e: Event, t: nat)
    requires Inv(s) && Enabled(s, e) && PcOf(s, t).InGuest? && PcOf(s, t).vcpu in s.flush
      && PcOf(s, t).vcpu !in Next(s, e).flush
    ensures e.thread == t && (e.Resume? || e.Leave?)
  {
    Exclusive(s, e.thread, t, PcOf(s, t).vcpu);
  }

  // ---- No deadlock ----

  /** A thread that cannot move waits for a lock that someone else holds. */
  predicate WaitsFor(s: State, t: nat, v: nat) {
    && v in s.owner
    && match PcOf(s, t)
       case Acquire(i, _) => v == i && i < LOCKED && i in s.vcpus
       case WantLock(w) => v == w
       case _ => false
  }

  ghost predicate CanMove(s: State, t: nat) {
    exists e: Event :: e.thread == t && Enabled(s, e)
  }

  lemma MovesOrWaits(s: State, t: nat)
    ensures CanMove(s, t) || exists v :: WaitsFor(s, t, v)
  {
    match PcOf(s, t)
    case Idle => assert Enabled(s, StartMap(t, 0));
    case Acquire(i, _) =>
      if i < LOCKED && i in s.vcpus && i in s.owner { assert WaitsFor(s, t, i); } else { assert Enabled(s, Lock(t)); }
    case Mapping(_) => assert Enabled(s, MapPage(t));
    case Broadcast(_) => assert Enabled(s, Invalidate(t));
    case Release(_) => assert Enabled(s, Unlock(t));
    case WantLock(v) => if v in s.owner { assert WaitsFor(s, t, v); } else { assert Enabled(s, TakeLock(t)); }
    case Ready(_) => assert Enabled(s, DropLock(t));
    case InGuest(_) => assert Enabled(s, Leave(t));
  }

  /** Locks are taken in ascending order, so following the holders always ends at a thread that can
      move: no thread waits for ever on threads that all wait. */
  lemma {:induction false} SomeoneMoves(s: State, t: nat, v: nat) returns (u: nat)
    requires Inv(s) && WaitsFor(s, t, v)
    ensures CanMove(s, u) && u in s.owner.Values
    decreases if v < LOCKED then LOCKED - v else 0
  {
    u := s.owner[v];
    assert Claims(s, PcOf(s, u), v);
    MovesOrWaits(s, u);
    if !CanMove(s, u) {
      var w :| WaitsFor(s, u, w);
      u := SomeoneMoves(s, u, w);
    }
  }

  // ---- The last vCPU ----

  lemma Join(ss: seq<State>, es: seq<Event>, tail: seq<State>, moves: seq<Event>)
    requires Steps(ss, es) && Steps(tail, moves) && ss[|es|] == tail[0]
    ensures Steps(ss + tail[1..], es + moves)
    ensures (ss + tail[1..])[0] == ss[0] && (ss + tail[1..])[|es| + |moves|] == tail[|moves|]
  {
    hide Enabled, Next;
    var us, fs := ss + tail[1..], es + moves;
    assert forall k :: |es| <= k < |us| ==> us[k] == tail[k - |es|];
    forall k | 0 <= k < |fs| ensures Enabled(us[k], fs[k]) && us[k + 1] == Next(us[k], fs[k]) {
      if k >= |es| {
        var j := k - |es|;
        assert Enabled(tail[j], moves[j]) && tail[j + 1] == Next(tail[j], moves[j]);
      }
    }
  }

  /** A mapping call that has passed vCPUs that are not there. */
  lemma {:induction false} SkipLocks(s: State, t: nat, i: nat) returns (ss: seq<State>, es: seq<Event>)
    requires PcOf(s, t) == Acquire(i, 1) && i <= LOCKED && forall v :: v in s.vcpus ==> v >= LOCKED
    ensures Steps(ss, es) && ss[0] == s && ss[|es|] == Goto(s, t, Mapping(1))
    decreases LOCKED - i
  {
    var u := Next(s, Lock(t));
    ss, es := [s, u], [Lock(t)];
    if i < LOCKED {
      var tail, moves := SkipLocks(u, t, i + 1);
      assert Goto(u, t, Mapping(1)) == Goto(s, t, Mapping(1));
      Join(ss, es, tail, moves);
      ss, es := ss + tail[1..], es + moves;
    }
  }

  /** Mapping calls do not take the lock of vCPU 255: it can be in its guest, having entered at an
      older version, when the table changes. */
  lemma LastVcpuIsUnprotected() returns (ss: seq<State>, es: seq<Event>)
    ensures IsRun(ss, es) && |es| > 0
    ensures var s := ss[|es|];
      PcOf(s, 1) == InGuest(255) && 255 in s.enteredAt && s.enteredAt[255] != s.version
  {
    var s0 := Start({255});
    var s1 := Next(s0, StartRun(1, 255));
    var s2 := Next(s1, TakeLock(1));
    var s3 := Next(s2, Enter(1));
    var s4 := Next(s3, StartMap(0, 1));
    ss, es := [s0, s1, s2, s3, s4], [StartRun(1, 255), TakeLock(1), Enter(1), StartMap(0, 1)];
    var mid, moves := SkipLocks(s4, 0, 0);
    Join(ss, es, mid, moves);
    ss, es := ss + mid[1..], es + moves;
    var s5 := Goto(s4, 0, Mapping(1));
    Join(ss, es, [s5, Next(s5, MapPage(0))], [MapPage(0)]);
    ss, es := ss + [Next(s5, MapPage(0))], es + [MapPage(0)];
  }
}
