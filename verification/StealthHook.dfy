/**
  Stealthy inline hooks on Intel: a hooked page shows its patched copy to fetches and the
  original to data accesses, by swapping one EPT entry on each violation and single-stepping
  instructions that read or write the page they run from.
*/
module StealthHook {

  /** A hooked page: its physical page, the page of the patched copy, and its virtual page. */
  datatype HookPage = HookPage(orig: nat, copy: nat, virt: nat)

  /** The EPT entry of a hooked page. */
  datatype Slot = Slot(frame: nat, read: bool, write: bool, execute: bool)

  datatype Access = Fetch | Data(read: bool, write: bool)

  predicate AccessOk(a: Access) {
    a.Data? ==> a.read || a.write
  }

  predicate Permits(s: Slot, a: Access) {
    match a
    case Fetch => s.execute
    case Data(r, w) => (r ==> s.read) && (w ==> s.write)
  }

  function ForFetch(h: HookPage): (s: Slot) {
    Slot(h.copy, false, false, true)
  }

  function ForData(h: HookPage): (s: Slot) {
    Slot(h.orig, true, true, false)
  }

  function ForStep(h: HookPage): (s: Slot) {
    Slot(h.orig, true, true, true)
  }

  /** One virtual CPU: its entries, the hook being stepped over, the monitor trap, and the
      virtual page of the instruction it is on. */
  datatype Cpu = Cpu(slots: seq<Slot>, pending: nat, armed: bool, rip: nat)

  /** The violation handler, once its search has found hook i. */
  function Violation(hooks: seq<HookPage>, c: Cpu, i: nat, a: Access): (d: Cpu)
    requires i < |hooks| == |c.slots|
  {
    if a.Data? then
      if c.rip == hooks[i].virt then c.(slots := c.slots[i := ForStep(hooks[i])], armed := true, pending := i)
      else c.(slots := c.slots[i := ForData(hooks[i])])
    else c.(slots := c.slots[i := ForFetch(hooks[i])])
  }

  /** The monitor-trap handler takes data accesses away and shows the copy again. */
  function Trap(hooks: seq<HookPage>, c: Cpu): (d: Cpu)
    requires c.pending < |hooks| == |c.slots|
  {
    var s := c.slots[c.pending];
    c.(slots := c.slots[c.pending := Slot(hooks[c.pending].copy, false, false, s.execute)], armed := false)
  }

  // ---- The invariant ----

  /** No two hooked pages share a virtual page. */
  predicate DistinctVirt(hooks: seq<HookPage>) {
    forall i, j :: 0 <= i < j < |hooks| ==> hooks[i].virt != hooks[j].virt
  }

  /** Each entry is in one of three states, the third exactly for the pending hook while the
      trap is armed; and then the CPU is on an instruction of that page. */
  predicate Inv(hooks: seq<HookPage>, c: Cpu) {
    && |c.slots| == |hooks|
    && (forall i :: 0 <= i < |hooks| ==>
          if c.armed && i == c.pending then c.slots[i] == ForStep(hooks[i])
          else c.slots[i] == ForFetch(hooks[i]) || c.slots[i] == ForData(hooks[i]))
    && (c.armed ==> c.pending < |hooks| && c.rip == hooks[c.pending].virt)
  }

  /** Handling a violation keeps the invariant unless the trap is already armed for another page
      and the faulting instruction lies in the page it accesses. */
  lemma ViolationKeepsInvIff(hooks: seq<HookPage>, c: Cpu, i: nat, a: Access)
    requires Inv(hooks, c) && i < |hooks| && AccessOk(a) && !Permits(c.slots[i], a)
    ensures Inv(hooks, Violation(hooks, c, i, a)) <==> !(c.armed && i != c.pending && a.Data? && c.rip == hooks[i].virt)
  {
    var d := Violation(hooks, c, i, a);
    if c.armed && i != c.pending && a.Data? && c.rip == hooks[i].virt {
      assert d.slots[c.pending] == ForStep(hooks[c.pending]) && d.pending != c.pending;
    }
  }

  /** Distinct virtual pages rule that out. */
  lemma ViolationKeepsInv(hooks: seq<HookPage>, c: Cpu, i: nat, a: Access)
    requires Inv(hooks, c) && DistinctVirt(hooks) && i < |hooks| && AccessOk(a) && !Permits(c.slots[i], a)
    ensures Inv(hooks, Violation(hooks, c, i, a)) && Permits(Violation(hooks, c, i, a).slots[i], a)
  {
    ViolationKeepsInvIff(hooks, c, i, a);
  }

  // ---- Runs ----

  /** What happens to a CPU: an access to a hooked page, which faults when it is not permitted;
      the trap after a single-stepped instruction; or going on to another instruction. */
  datatype Event = Touch(hook: nat, access: Access) | Trapped | Goto(rip: nat)

  /** While the trap is armed the CPU stays on the instruction it steps over. */
  predicate Enabled(hooks: seq<HookPage>, c: Cpu, e: Event) {
    match e
    case Touch(i, a) => i < |hooks| && AccessOk(a)
    case Trapped => c.armed
    case Goto(_) => !c.armed
  }

  function Next(hooks: seq<HookPage>, c: Cpu, e: Event): (d: Cpu)
    requires Inv(hooks, c) && Enabled(hooks, c, e)
  {
    match e
    case Touch(i, a) => if Permits(c.slots[i], a) then c else Violation(hooks, c, i, a)
    case Trapped => Trap(hooks, c)
    case Goto(r) => c.(rip := r)
  }

  ghost predicate IsRun(hooks: seq<HookPage>, cs: seq<Cpu>, es: seq<Event>) {
    && |cs| == |es| + 1 && Inv(hooks, cs[0])
    && forall k :: 0 <= k < |es| && Inv(hooks, cs[k]) ==>
         Enabled(hooks, cs[k], es[k]) && cs[k + 1] == Next(hooks, cs[k], es[k])
  }

  /** The invariant holds throughout every run. */
  lemma {:induction false} InvThroughout(hooks: seq<HookPage>, cs: seq<Cpu>, es: seq<Event>, k: nat)
    requires DistinctVirt(hooks) && IsRun(hooks, cs, es) && k < |cs|
    ensures Inv(hooks, cs[k])
  {
    if k > 0 {
      InvThroughout(hooks, cs, es, k - 1);
      var c, e := cs[k - 1], es[k - 1];
      assert Enabled(hooks, c, e) && cs[k - 1 + 1] == Next(hooks, c, e);
      if e.Touch? && !Permits(c.slots[e.hook], e.access) { ViolationKeepsInv(hooks, c, e.hook, e.access); }
    }
  }

  /** In every run, an access that goes through sees the original if it is a data access and the
      patched copy if it is a fetch, but for fetches of the single-stepped instruction's page. */
  lemma AccessesSee(hooks: seq<HookPage>, cs: seq<Cpu>, es: seq<Event>, k: nat)
    requires DistinctVirt(hooks) && IsRun(hooks, cs, es) && k < |es| && es[k].Touch?
    ensures Inv(hooks, cs[k]) && es[k].hook < |hooks| && Inv(hooks, cs[k + 1])
    ensures var i, a := es[k].hook, es[k].access;
      && Permits(cs[k + 1].slots[i], a)
      && cs[k + 1].slots[i].frame
         == if a.Data? || (cs[k + 1].armed && i == cs[k + 1].pending) then hooks[i].orig else hooks[i].copy
  {
    InvThroughout(hooks, cs, es, k);
    InvThroughout(hooks, cs, es, k + 1);
    var c, e := cs[k], es[k];
    if !Permits(c.slots[e.hook], e.access) { ViolationKeepsInv(hooks, c, e.hook, e.access); }
  }

  // ---- Which instructions get through ----

  /** What an instruction at rip touches, in order: the hooked pages it is fetched from, of which
      there are two when it straddles a page boundary, then those its data is on. */
  datatype Instr = Instr(rip: nat, fetch: seq<(nat, Access)>, data: seq<(nat, Access)>)

  predicate InstrOk(hooks: seq<HookPage>, n: Instr) {
    && (forall k :: 0 <= k < |n.fetch| ==> n.fetch[k].0 < |hooks| && n.fetch[k].1 == Fetch)
    && (forall k :: 0 <= k < |n.data| ==> n.data[k].0 < |hooks| && n.data[k].1.Data? && AccessOk(n.data[k].1))
    && (forall i :: 0 <= i < |hooks| && hooks[i].virt == n.rip ==> (i, Fetch) in n.fetch)
  }

  predicate Reads(n: Instr, i: nat) {
    exists k :: 0 <= k < |n.data| && n.data[k].0 == i
  }

  /** The instruction is also fetched from a hooked page it reads or writes and does not start in. */
  predicate Torn(hooks: seq<HookPage>, n: Instr)
    requires InstrOk(hooks, n)
  {
    exists k :: 0 <= k < |n.fetch| && hooks[n.fetch[k].0].virt != n.rip && Reads(n, n.fetch[k].0)
  }

  predicate AccessesOk(c: Cpu, ms: seq<(nat, Access)>) {
    forall k :: 0 <= k < |ms| ==> ms[k].0 < |c.slots|
  }

  /** How many of the accesses would still fault. */
  function Denied(c: Cpu, ms: seq<(nat, Access)>): (d: nat)
    requires AccessesOk(c, ms)
    ensures d == 0 <==> forall k :: 0 <= k < |ms| ==> Permits(c.slots[ms[k].0], ms[k].1)
  {
    if ms == [] then 0 else
    assert forall k :: 1 <= k < |ms| ==> ms[k] == ms[1..][k - 1];
    (if Permits(c.slots[ms[0].0], ms[0].1) then 0 else 1) + Denied(c, ms[1..])
  }

  /** The first access that faults. */
  function FirstDenied(c: Cpu, ms: seq<(nat, Access)>): (k: nat)
    requires AccessesOk(c, ms) && Denied(c, ms) > 0
    ensures k < |ms| && !Permits(c.slots[ms[k].0], ms[k].1)
  {
    if !Permits(c.slots[ms[0].0], ms[0].1) then 0 else 1 + FirstDenied(c, ms[1..])
  }

  predicate Settled(c: Cpu, n: Instr)
    requires AccessesOk(c, n.fetch) && AccessesOk(c, n.data)
  {
    Denied(c, n.fetch) == 0 && Denied(c, n.data) == 0
  }

  /** The first fault of the instruction, handled. */
  function Attempt(hooks: seq<HookPage>, c: Cpu, n: Instr): (d: Cpu)
    requires Inv(hooks, c) && DistinctVirt(hooks) && InstrOk(hooks, n) && c.rip == n.rip && !Settled(c, n)
    ensures Inv(hooks, d) && d.rip == n.rip
  {
    var (i, a) := if Denied(c, n.fetch) > 0 then n.fetch[FirstDenied(c, n.fetch)] else n.data[FirstDenied(c, n.data)];
    ViolationKeepsInv(hooks, c, i, a);
    Violation(hooks, c, i, a)
  }

  /** The instruction restarted after each fault, for at most k faults. */
  function Attempts(hooks: seq<HookPage>, c: Cpu, n: Instr, k: nat): (d: Cpu)
    requires Inv(hooks, c) && DistinctVirt(hooks) && InstrOk(hooks, n) && c.rip == n.rip
    ensures Inv(hooks, d) && d.rip == n.rip
    decreases k
  {
    if k == 0 || Settled(c, n) then c else Attempts(hooks, Attempt(hooks, c, n), n, k - 1)
  }

  /** A changed page that permits all accesses listed for it, and no other change, leaves no more
      accesses denied, and fewer if one of that page's was. */
  lemma {:induction false} DeniedShrinks(c: Cpu, d: Cpu, i: nat, ms: seq<(nat, Access)>)
    requires |c.slots| == |d.slots| && i < |c.slots| && AccessesOk(c, ms)
    requires forall j :: 0 <= j < |c.slots| && j != i ==> d.slots[j] == c.slots[j]
    requires forall k :: 0 <= k < |ms| && ms[k].0 == i ==> Permits(d.slots[i], ms[k].1)
    ensures Denied(d, ms) <= Denied(c, ms)
    ensures forall k :: 0 <= k < |ms| && ms[k].0 == i && !Permits(c.slots[i], ms[k].1) ==> Denied(d, ms) < Denied(c, ms)
  {
    if ms != [] {
      assert forall k :: 1 <= k < |ms| ==> ms[k] == ms[1..][k - 1];
      DeniedShrinks(c, d, i, ms[1..]);
    }
  }

  /** Each attempt of an instruction that is not torn leaves fewer fetches denied, or none and
      fewer data accesses. */
  lemma AttemptShrinks(hooks: seq<HookPage>, c: Cpu, n: Instr)
    requires Inv(hooks, c) && DistinctVirt(hooks) && InstrOk(hooks, n) && c.rip == n.rip && !Settled(c, n)
    requires !Torn(hooks, n)
    ensures var d := Attempt(hooks, c, n);
      if Denied(c, n.fetch) > 0 then Denied(d, n.fetch) < Denied(c, n.fetch)
      else Denied(d, n.fetch) == 0 && Denied(d, n.data) < Denied(c, n.data)
  {
    var d := Attempt(hooks, c, n);
    if Denied(c, n.fetch) > 0 {
      var k := FirstDenied(c, n.fetch);
      DeniedShrinks(c, d, n.fetch[k].0, n.fetch);
    } else {
      var k := FirstDenied(c, n.data);
      var i := n.data[k].0;
      DeniedShrinks(c, d, i, n.data);
      assert Reads(n, i);
      DeniedShrinks(c, d, i, n.fetch);
    }
  }

  /** Restarts an instruction that is not torn after each fault until nothing faults. */
  function Execute(hooks: seq<HookPage>, c: Cpu, n: Instr): (d: Cpu)
    requires Inv(hooks, c) && DistinctVirt(hooks) && InstrOk(hooks, n) && c.rip == n.rip && !Torn(hooks, n)
    ensures Inv(hooks, d) && d.rip == n.rip && Settled(d, n)
    decreases Denied(c, n.fetch), Denied(c, n.data)
  {
    if Settled(c, n) then c else
    AttemptShrinks(hooks, c, n);
    Execute(hooks, Attempt(hooks, c, n), n)
  }

  /** A page never permits both a fetch and a data access unless it is stepped over. */
  lemma TornNeverSettles(hooks: seq<HookPage>, c: Cpu, n: Instr)
    requires Inv(hooks, c) && InstrOk(hooks, n) && c.rip == n.rip && Torn(hooks, n)
    ensures !Settled(c, n)
  {
    var k :| 0 <= k < |n.fetch| && hooks[n.fetch[k].0].virt != n.rip && Reads(n, n.fetch[k].0);
    var i := n.fetch[k].0;
    var m :| 0 <= m < |n.data| && n.data[m].0 == i;
    assert c.slots[i] == ForFetch(hooks[i]) || c.slots[i] == ForData(hooks[i]);
    assert !Permits(c.slots[i], n.fetch[k].1) || !Permits(c.slots[i], n.data[m].1);
  }

  lemma {:induction false} ExecuteIsAttempts(hooks: seq<HookPage>, c: Cpu, n: Instr) returns (k: nat)
    requires Inv(hooks, c) && DistinctVirt(hooks) && InstrOk(hooks, n) && c.rip == n.rip && !Torn(hooks, n)
    ensures Attempts(hooks, c, n, k) == Execute(hooks, c, n)
    decreases Denied(c, n.fetch), Denied(c, n.data)
  {
    if Settled(c, n) {
      k := 0;
    } else {
      AttemptShrinks(hooks, c, n);
      k := ExecuteIsAttempts(hooks, Attempt(hooks, c, n), n);
      k := k + 1;
    }
  }

  /** An instruction gets through, from any state, exactly when it is not torn. */
  lemma GetsThroughIff(hooks: seq<HookPage>, c: Cpu, n: Instr)
    requires Inv(hooks, c) && DistinctVirt(hooks) && InstrOk(hooks, n) && c.rip == n.rip
    ensures (exists k :: Settled(Attempts(hooks, c, n, k), n)) <==> !Torn(hooks, n)
  {
    if Torn(hooks, n) {
      forall k ensures !Settled(Attempts(hooks, c, n, k), n) {
        TornNeverSettles(hooks, Attempts(hooks, c, n, k), n);
      }
    } else {
      var k := ExecuteIsAttempts(hooks, c, n);
      assert Settled(Attempts(hooks, c, n, k), n);
    }
  }

  /** An instruction that ends in a hooked page and reads that page: the fetch and the read take
      the page from each other for ever. */
  lemma PingPong(c: Cpu, k: nat)
    returns (hooks: seq<HookPage>, n: Instr)
    requires c == Cpu([ForFetch(HookPage(1, 2, 3))], 0, false, 4)
    ensures hooks == [HookPage(1, 2, 3)] && n == Instr(4, [(0, Fetch)], [(0, Data(true, false))])
    ensures Inv(hooks, c) && DistinctVirt(hooks) && InstrOk(hooks, n) && Torn(hooks, n)
    ensures Attempts(hooks, c, n, 2 * k) == c
  {
    hooks, n := [HookPage(1, 2, 3)], Instr(4, [(0, Fetch)], [(0, Data(true, false))]);
    assert n.fetch[0].0 == 0 && n.data[0].0 == 0;
    assert Reads(n, 0);
    BackAgain(hooks, c, n, k);
  }

  lemma {:induction false} BackAgain(hooks: seq<HookPage>, c: Cpu, n: Instr, k: nat)
    requires hooks == [HookPage(1, 2, 3)] && c == Cpu([ForFetch(hooks[0])], 0, false, 4)
    requires n == Instr(4, [(0, Fetch)], [(0, Data(true, false))])
    ensures Inv(hooks, c) && DistinctVirt(hooks) && InstrOk(hooks, n) && Attempts(hooks, c, n, 2 * k) == c
  {
    assert n.fetch[0] == (0, Fetch) && n.data[0] == (0, Data(true, false));
    if k > 0 {
      BackAgain(hooks, c, n, k - 1);
      var d := Attempt(hooks, c, n);
      assert d == c.(slots := [ForData(hooks[0])]);
      assert Attempt(hooks, d, n) == c;
      assert Attempts(hooks, c, n, 2 * k) == Attempts(hooks, d, n, 2 * k - 1) == Attempts(hooks, c, n, 2 * (k - 1));
    }
  }

  /** The instruction and, if it was single-stepped, the trap behind it. */
  function Complete(hooks: seq<HookPage>, c: Cpu, n: Instr): (d: Cpu)
    requires Inv(hooks, c) && DistinctVirt(hooks) && InstrOk(hooks, n) && c.rip == n.rip && !Torn(hooks, n)
    ensures Inv(hooks, d) && !d.armed
  {
    var e := Execute(hooks, c, n);
    if e.armed then Trap(hooks, e) else e
  }

  /** The instruction reads or writes the hooked page it starts in. */
  predicate TouchesItself(hooks: seq<HookPage>, n: Instr) {
    exists i :: 0 <= i < |hooks| && hooks[i].virt == n.rip && Reads(n, i)
  }

  /** Between instructions no page grants both kinds of access; an instruction that starts there
      and is not torn completes with its data from originals, and is itself fetched from the
      patched copies, but for the page it starts in if it touches that. */
  lemma InstructionSees(hooks: seq<HookPage>, c: Cpu, n: Instr)
    requires Inv(hooks, c) && DistinctVirt(hooks) && InstrOk(hooks, n) && c.rip == n.rip && !c.armed && !Torn(hooks, n)
    ensures var d := Execute(hooks, c, n);
      && (d.armed <==> TouchesItself(hooks, n))
      && (forall k :: 0 <= k < |n.data| ==> d.slots[n.data[k].0].frame == hooks[n.data[k].0].orig)
      && (forall k :: 0 <= k < |n.fetch| ==>
            d.slots[n.fetch[k].0].frame
            == if Reads(n, n.fetch[k].0) then hooks[n.fetch[k].0].orig else hooks[n.fetch[k].0].copy)
  {
    ArmedOnlyBySelf(hooks, c, n);
    var d := Execute(hooks, c, n);
    hide Execute;
    if TouchesItself(hooks, n) { ArmedBySelf(hooks, d, n); }
    forall k | 0 <= k < |n.fetch|
      ensures d.slots[n.fetch[k].0].frame
              == if Reads(n, n.fetch[k].0) then hooks[n.fetch[k].0].orig else hooks[n.fetch[k].0].copy
    {
      FetchSees(hooks, d, n, k);
    }
  }

  lemma ArmedBySelf(hooks: seq<HookPage>, d: Cpu, n: Instr)
    requires Inv(hooks, d) && InstrOk(hooks, n) && d.rip == n.rip && Settled(d, n) && TouchesItself(hooks, n)
    ensures d.armed
  {
    var i :| 0 <= i < |hooks| && hooks[i].virt == n.rip && Reads(n, i);
    var k :| 0 <= k < |n.fetch| && n.fetch[k] == (i, Fetch);
    BothKinds(hooks, d, n, k);
  }

  /** A page that permits both a fetch and a data access is the one stepped over. */
  lemma BothKinds(hooks: seq<HookPage>, d: Cpu, n: Instr, k: nat)
    requires Inv(hooks, d) && InstrOk(hooks, n) && Settled(d, n) && k < |n.fetch| && Reads(n, n.fetch[k].0)
    ensures d.armed && n.fetch[k].0 == d.pending
  {
    var i := n.fetch[k].0;
    var m :| 0 <= m < |n.data| && n.data[m].0 == i;
    assert Permits(d.slots[i], n.fetch[k].1) && Permits(d.slots[i], n.data[m].1);
  }

  lemma FetchSees(hooks: seq<HookPage>, d: Cpu, n: Instr, k: nat)
    requires Inv(hooks, d) && DistinctVirt(hooks) && InstrOk(hooks, n) && d.rip == n.rip && Settled(d, n)
      && k < |n.fetch|
    requires d.armed ==> TouchesItself(hooks, n)
    ensures d.slots[n.fetch[k].0].frame
            == if Reads(n, n.fetch[k].0) then hooks[n.fetch[k].0].orig else hooks[n.fetch[k].0].copy
  {
    assert Permits(d.slots[n.fetch[k].0], n.fetch[k].1);
    if Reads(n, n.fetch[k].0) { BothKinds(hooks, d, n, k); }
  }

  lemma {:induction false} ArmedOnlyBySelf(hooks: seq<HookPage>, c: Cpu, n: Instr)
    requires Inv(hooks, c) && DistinctVirt(hooks) && InstrOk(hooks, n) && c.rip == n.rip && !Torn(hooks, n)
    requires c.armed ==> TouchesItself(hooks, n)
    ensures Execute(hooks, c, n).armed ==> TouchesItself(hooks, n)
    decreases Denied(c, n.fetch), Denied(c, n.data)
  {
    if !Settled(c, n) {
      AttemptShrinks(hooks, c, n);
      var d := Attempt(hooks, c, n);
      if d.armed && !c.armed {
        var i := n.data[FirstDenied(c, n.data)].0;
        assert hooks[i].virt == n.rip && Reads(n, i);
      }
      ArmedOnlyBySelf(hooks, d, n);
    }
  }

  // ---- The handlers on the CPU's own structures ----

  /** What the violation handler comes to: a hook's entry is changed, the page is none of its
      business, or it writes through a null pointer. */
  datatype Outcome = Handled | NotHooked | NullEntry

  /** Strictly ascending physical pages. */
  predicate Sorted(pages: seq<HookPage>) {
    forall i, j :: 0 <= i < j < |pages| ==> pages[i].orig < pages[j].orig
  }

  class HookedCpu {
    const table: array<HookPage>   // the hooks, sorted, and one zeroed entry behind them
    const slots: array<Slot>       // the entry each hook points to
    var pending: nat
    var armed: bool

    ghost predicate Valid()
      reads this, table, slots
    {
      && table.Length == slots.Length + 1 && table[slots.Length] == HookPage(0, 0, 0)
      && Sorted(Hooks())
    }

    ghost function Hooks(): (hs: seq<HookPage>)
      requires table.Length == slots.Length + 1
      reads table
    {
      table[..slots.Length]
    }

    ghost function State(rip: nat): (c: Cpu)
      reads this, slots
    {
      Cpu(slots[..], pending, armed, rip)
    }

    /** The entries as the hooks' insertion left them: execute-only on the copies. */
    constructor (hooks: seq<HookPage>)
      requires Sorted(hooks)
      ensures Valid() && Hooks() == hooks && fresh(table) && fresh(slots)
      ensures forall rip :: Inv(hooks, State(rip)) && !armed
    {
      table := new HookPage[|hooks| + 1](i requires 0 <= i <= |hooks| =>
        if i < |hooks| then hooks[i] else HookPage(0, 0, 0));
      slots := new Slot[|hooks|](i requires 0 <= i < |hooks| => ForFetch(hooks[i]));
      pending, armed := 0, false;
      new;
      assert Hooks() == hooks;
    }

    /** The binary search, whose upper bound starts on the zeroed entry: it finds a page exactly
        when that page is hooked, except that with no hooks at all it takes the first page of
        memory for one. */
    method Find(y: nat) returns (found: bool, mid: int)
      requires Valid()
      ensures found ==> 0 <= mid < table.Length && table[mid].orig == y
      ensures slots.Length > 0 || y > 0 ==> (found <==> exists i :: 0 <= i < slots.Length && Hooks()[i].orig == y)
      ensures slots.Length > 0 || y > 0 ==> found ==> mid < slots.Length
      ensures slots.Length == 0 && y == 0 ==> found && mid == slots.Length
    {
      var lo: int, hi: int := 0, slots.Length;
      while hi >= lo
        invariant 0 <= lo && -1 <= hi <= slots.Length && lo <= slots.Length + 1
        invariant forall i :: 0 <= i < lo && i < slots.Length ==> table[i].orig < y
        invariant forall i :: hi < i < slots.Length ==> table[i].orig > y
        invariant slots.Length == 0 && y == 0 ==> lo == 0 && hi == 0
        invariant slots.Length > 0 && y == 0 ==> lo == 0
        decreases hi - lo + 1
      {
        mid := (lo + hi) / 2;
        if y >= table[mid].orig + 1 {
          assert mid < slots.Length ==> forall i :: 0 <= i < mid ==> Hooks()[i].orig < Hooks()[mid].orig;
          lo := mid + 1;
        } else if y < table[mid].orig {
          assert forall i :: mid < i < slots.Length ==> Hooks()[mid].orig < Hooks()[i].orig;
          hi := mid - 1;
        } else {
          assert mid < slots.Length ==> Hooks()[mid].orig == y;
          return true, mid;
        }
      }
      found, mid := false, 0;
    }

    /** The handler of a violation at page y. With no hooks at all, a violation on the first page
        of memory goes through the null entry pointer of the zeroed table entry. */
    method HandleViolation(y: nat, a: Access, rip: nat) returns (o: Outcome)
      requires Valid() && AccessOk(a)
      modifies this, slots
      ensures Valid() && Hooks() == old(Hooks())
      ensures o == NullEntry <==> |Hooks()| == 0 && y == 0
      ensures o == Handled <==> exists i :: 0 <= i < |Hooks()| && Hooks()[i].orig == y
      ensures forall i :: 0 <= i < |Hooks()| && Hooks()[i].orig == y ==>
        State(rip) == Violation(Hooks(), old(State(rip)), i, a)
      ensures o != Handled ==> State(rip) == old(State(rip))
    {
      var hooked, mid := Find(y);
      if !hooked { return NotHooked; }
      if mid == slots.Length { return NullEntry; }
      o := Handled;
      var h := table[mid];
      assert forall i :: 0 <= i < |Hooks()| && Hooks()[i].orig == y ==> i == mid;
      if a.Data? {
        if rip == h.virt {
          slots[mid] := slots[mid].(read := true, write := true, execute := true);
          armed := true;
          pending := mid;
        } else {
          slots[mid] := slots[mid].(read := true, write := true, execute := false);
        }
        slots[mid] := slots[mid].(frame := h.orig);
      } else {
        slots[mid] := slots[mid].(read := false, write := false, execute := true, frame := h.copy);
      }
      assert State(rip) == Violation(Hooks(), old(State(rip)), mid, a);
    }

    /** The handler of the monitor trap. */
    method HandleTrap(ghost rip: nat)
      requires Valid() && pending < slots.Length
      modifies this, slots
      ensures Valid() && Hooks() == old(Hooks()) && State(rip) == Trap(Hooks(), old(State(rip)))
    {
      slots[pending] := slots[pending].(read := false, write := false);
      slots[pending] := slots[pending].(frame := table[pending].copy);
      armed := false;
      assert State(rip) == Trap(Hooks(), old(State(rip)));
    }
  }
}
