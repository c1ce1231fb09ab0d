/**
  Table descriptors and the singly linked lists that hold them.

  Every lower-level paging table is kept by a descriptor naming the region of guest
  pages it serves, the physical page of the table and its 512 entries. Addresses are
  page numbers (a byte address divided by 4096); a physical page of a table is named by
  the order in which it was allocated, which is distinct for distinct tables.
*/
module Descriptors {

  const ENTRIES: nat := 512

  /** A paging table: the physical page it occupies and what it holds. */
  datatype Tab<+E> = Tab(phys: nat, entries: seq<E>)

  /** What one descriptor says. */
  datatype Desc<+E> = Desc(region: nat, tab: Tab<E>)

  /** No region has two descriptors. */
  ghost predicate Distinct<E>(l: seq<Desc<E>>) {
    forall i, j :: 0 <= i < j < |l| ==> l[i].region != l[j].region
  }

  /** The tables of a list by region. */
  ghost function ByRegion<E>(l: seq<Desc<E>>): (m: map<nat, Tab<E>>) {
    if l == [] then map[] else ByRegion(l[..|l| - 1])[l[|l| - 1].region := l[|l| - 1].tab]
  }

  lemma {:induction false} ByRegionAt<E>(l: seq<Desc<E>>, k: nat)
    requires Distinct(l) && k < |l|
    ensures l[k].region in ByRegion(l) && ByRegion(l)[l[k].region] == l[k].tab
  {
    if k < |l| - 1 { ByRegionAt(l[..|l| - 1], k); }
  }

  lemma ByRegionAppend<E>(l: seq<Desc<E>>, d: Desc<E>)
    requires Distinct(l) && d.region !in ByRegion(l)
    ensures Distinct(l + [d]) && ByRegion(l + [d]) == ByRegion(l)[d.region := d.tab]
  {
    assert (l + [d])[..|l|] == l;
    forall i | 0 <= i < |l| ensures l[i].region != d.region { ByRegionAt(l, i); }
  }

  lemma {:induction false} ByRegionNone<E>(l: seq<Desc<E>>, region: nat)
    requires forall i :: 0 <= i < |l| ==> l[i].region != region
    ensures region !in ByRegion(l)
  {
    if l != [] { ByRegionNone(l[..|l| - 1], region); }
  }

  lemma {:induction false} ByRegionPhys<E>(l: seq<Desc<E>>, phys: nat)
    requires forall i :: 0 <= i < |l| ==> l[i].tab.phys != phys
    ensures forall r :: r in ByRegion(l) ==> ByRegion(l)[r].phys != phys
  {
    if l != [] { ByRegionPhys(l[..|l| - 1], phys); }
  }

  lemma {:induction false} ByRegionUpdate<E>(l: seq<Desc<E>>, k: nat, t: Tab<E>)
    requires Distinct(l) && k < |l|
    ensures ByRegion(l[k := l[k].(tab := t)]) == ByRegion(l)[l[k].region := t]
  {
    var m, n := l[k := l[k].(tab := t)], |l| - 1;
    if k == n {
      assert m[..n] == l[..n];
    } else {
      ByRegionUpdate(l[..n], k, t);
      assert m[..n] == l[..n][k := l[k].(tab := t)];
    }
  }

  function MapSeq<A, B>(xs: seq<A>, f: A -> B): (ys: seq<B>) {
    seq(|xs|, i requires 0 <= i < |xs| => f(xs[i]))
  }

  function MapTabs<A, B>(m: map<nat, Tab<A>>, f: A -> B): (n: map<nat, Tab<B>>) {
    map r | r in m :: Tab(m[r].phys, MapSeq(m[r].entries, f))
  }

  lemma {:induction false} ByRegionMap<E>(l: seq<Desc<E>>, m: seq<Desc<E>>, f: E -> E)
    requires |m| == |l|
    requires forall i :: 0 <= i < |l| ==> m[i] == Desc(l[i].region, Tab(l[i].tab.phys, MapSeq(l[i].tab.entries, f)))
    ensures ByRegion(m) == MapTabs(ByRegion(l), f)
  {
    if l != [] { ByRegionMap(l[..|l| - 1], m[..|l| - 1], f); }
  }

  /** How much one descriptor serves: 512 PTEs, 512 PDEs or 512 PDPTEs. */
  datatype Span = TwoMiB | OneGiB | HalfTiB {

    function Pages(): (n: nat) {
      match this case TwoMiB => 512 case OneGiB => 262144 case HalfTiB => 134217728
    }

    /** The region that holds page p. */
    function Region(p: nat): (region: nat) {
      match this case TwoMiB => p / 512 case OneGiB => p / 512 / 512 case HalfTiB => p / 512 / 512 / 512
    }

    /** The first page of a region. */
    function Start(region: nat): (p: nat) {
      match this case TwoMiB => region * 512 case OneGiB => region * 262144 case HalfTiB => region * 134217728
    }

    lemma RangeIsRegion(p: nat, region: nat)
      ensures Start(region) <= p < Start(region) + Pages() <==> Region(p) == region
    {
    }
  }

  class Node<E> {
    const start: nat       // first guest page of the region
    const phys: nat
    const virt: array<E>   // the table
    var next: Node?<E>

    constructor (start: nat, phys: nat, virt: array<E>)
      ensures this.start == start && this.phys == phys && this.virt == virt && next == null
    {
      this.start, this.phys, this.virt, this.next := start, phys, virt, null;
    }
  }

  /** The head/tail list of descriptors for regions of one span. */
  class DescriptorList<E> {
    const span: Span
    var head: Node?<E>
    var tail: Node?<E>
    ghost var nodes: seq<Node<E>>
    ghost var contents: seq<Desc<E>>
    ghost var Repr: set<object>

    ghost predicate Holds(n: Node<E>, d: Desc<E>)
      reads n.virt
    {
      n.start == span.Start(d.region) && n.phys == d.tab.phys && n.virt[..] == d.tab.entries
    }

    /** The chain from head through next is exactly `nodes` and ends at tail, so it is acyclic;
        region starts are aligned and no region has two descriptors. */
    ghost predicate Valid()
      reads this, Repr
    {
      && this in Repr && |contents| == |nodes|
      && (nodes == [] ==> head == null && tail == null)
      && (nodes != [] ==> head == nodes[0] && tail == nodes[|nodes| - 1])
      && (forall i :: 0 <= i < |nodes| ==> nodes[i] in Repr && nodes[i].virt in Repr)
      && (forall i :: 0 <= i < |nodes| - 1 ==> nodes[i].next == nodes[i + 1])
      && (nodes != [] ==> tail.next == null)
      && (forall i :: 0 <= i < |nodes| ==> Holds(nodes[i], contents[i]))
      && (forall i, j :: 0 <= i < j < |nodes| ==> nodes[i] != nodes[j] && nodes[i].virt != nodes[j].virt)
      && Distinct(contents)
    }

    lemma Parts()
      requires Valid()
      ensures this in Repr && (tail != null ==> tail in Repr)
    {
    }

    /** The tables by region: all a client need know. */
    ghost function Tables(): (m: map<nat, Tab<E>>)
      reads this
    {
      ByRegion(contents)
    }

    constructor (span: Span)
      ensures Valid() && fresh(Repr) && Tables() == map[] && this.span == span
    {
      this.span := span;
      head, tail := null, null;
      nodes, contents := [], [];
      Repr := {this};
    }

    /** Walks the list to the first descriptor whose range holds page p. */
    method FindRegion(p: nat) returns (n: Node?<E>, ghost k: nat)
      requires Valid()
      ensures n == null <==> span.Region(p) !in Tables()
      ensures n != null ==> At(n, k, span.Region(p))
    {
      n, k := head, 0;
      while n != null
        invariant k <= |nodes|
        invariant n == if k < |nodes| then nodes[k] else null
        invariant forall i :: 0 <= i < k ==> contents[i].region != span.Region(p)
        decreases |nodes| - k
      {
        assert Holds(n, contents[k]);
        span.RangeIsRegion(p, contents[k].region);
        if n.start <= p < n.start + span.Pages() { break; }
        n, k := n.next, k + 1;
      }
      if n == null {
        ByRegionNone(contents, span.Region(p));
      } else {
        ByRegionAt(contents, k);
      }
    }

    /** Node n is the k-th and describes `region`. */
    ghost predicate At(n: Node<E>, k: nat, region: nat)
      reads this, n.virt
    {
      && k < |nodes| && k < |contents| && nodes[k] == n && contents[k].region == region
      && region in Tables() && Tables()[region] == Tab(n.phys, n.virt[..]) && n.virt in Repr
    }

    /** Walks the list to the first descriptor whose table is at `phys`. */
    method FindTable(phys: nat) returns (n: Node?<E>, ghost k: nat)
      requires Valid()
      ensures n == null <==> forall r :: r in Tables() ==> Tables()[r].phys != phys
      ensures n != null ==> n.phys == phys && k < |contents| && At(n, k, contents[k].region)
    {
      n, k := head, 0;
      while n != null
        invariant k <= |nodes|
        invariant n == if k < |nodes| then nodes[k] else null
        invariant forall i :: 0 <= i < k ==> contents[i].tab.phys != phys
        decreases |nodes| - k
      {
        assert Holds(n, contents[k]);
        if n.phys == phys { break; }
        n, k := n.next, k + 1;
      }
      if n == null {
        ByRegionPhys(contents, phys);
      } else {
        ByRegionAt(contents, k);
        assert Tables()[contents[k].region].phys == phys;
      }
    }

    /** Appends a descriptor at the tail. */
    method Append(region: nat, phys: nat, virt: array<E>) returns (n: Node<E>)
      requires Valid() && virt !in Repr && region !in Tables()
      modifies this, tail
      ensures Valid() && fresh(n) && n.virt == virt && n.phys == phys
      ensures Repr == old(Repr) + {n, virt} && |nodes| == |old(nodes)| + 1 && At(n, |old(nodes)|, region)
      ensures Tables() == old(Tables())[region := Tab(phys, virt[..])]
    {
      hide ByRegion;
      ByRegionAppend(contents, Desc(region, Tab(phys, virt[..])));
      n := new Node(span.Start(region), phys, virt);
      if tail != null {
        tail.next := n;
      } else {
        head := n;
      }
      tail := n;
      nodes := nodes + [n];
      contents := contents + [Desc(region, Tab(phys, virt[..]))];
      Repr := Repr + {n, virt};
    }

    /** Overwrites one entry of the table that node n describes. */
    method Write(n: Node<E>, ghost k: nat, ghost region: nat, i: nat, e: E)
      requires Valid() && At(n, k, region) && i < n.virt.Length
      modifies this`contents, n.virt
      ensures Valid() && At(n, k, region)
      ensures Tables() == old(Tables())[region := Tab(n.phys, old(n.virt[..])[i := e])]
      ensures contents == old(contents)[k := Desc(region, Tab(n.phys, n.virt[..]))]
        && n.virt[..] == old(n.virt[..])[i := e]
    {
      hide ByRegion;
      ByRegionUpdate(contents, k, Tab(n.phys, n.virt[..][i := e]));
      assert forall j :: 0 <= j < |nodes| && j != k ==> nodes[j].virt != n.virt;
      n.virt[i] := e;
      assert n.virt[..] == old(n.virt[..])[i := e];
      assert old(Holds(n, contents[k]));
      contents := contents[k := contents[k].(tab := Tab(n.phys, n.virt[..]))];
    }

    /** Rewrites every entry of every table, descriptor by descriptor. */
    method Transform(f: E -> E)
      requires Valid()
      modifies Repr
      ensures Valid() && Repr == old(Repr) && Tables() == MapTabs(old(Tables()), f)
    {
      hide ByRegion, MapSeq, Holds;
      var n := head;
      ghost var k := 0;
      ghost var was := contents;
      while n != null
        invariant Valid() && Repr == old(Repr) && k <= |nodes|
        invariant n == if k < |nodes| then nodes[k] else null
        invariant |contents| == |was|
        invariant forall j :: 0 <= j < k ==> contents[j] == Mapped(was[j], f)
        invariant forall j :: k <= j < |was| ==> contents[j] == was[j]
        decreases |nodes| - k
      {
        TransformTable(n, k, f);
        n, k := n.next, k + 1;
      }
      ByRegionMap(was, contents, f);
    }

    static ghost function Mapped(d: Desc<E>, f: E -> E): (m: Desc<E>) {
      Desc(d.region, Tab(d.tab.phys, MapSeq(d.tab.entries, f)))
    }

    method TransformTable(n: Node<E>, ghost k: nat, f: E -> E)
      requires Valid() && k < |nodes| && nodes[k] == n
      modifies this`contents, n.virt
      ensures Valid()
      ensures contents == old(contents)[k := Mapped(old(contents)[k], f)]
    {
      hide ByRegion;
      assert Holds(n, contents[k]);
      ByRegionAt(contents, k);
      TransformEntries(n, k, contents[k].region, f);
    }

    method TransformEntries(n: Node<E>, ghost k: nat, ghost region: nat, f: E -> E)
      requires Valid() && At(n, k, region) && contents[k] == Desc(region, Tab(n.phys, n.virt[..]))
      modifies this`contents, n.virt
      ensures Valid()
      ensures contents == old(contents)[k := Mapped(old(contents)[k], f)]
    {
      hide ByRegion, Valid, Holds, Distinct;
      ghost var was, entries := contents, n.virt[..];
      for i := 0 to n.virt.Length
        invariant Valid() && At(n, k, region)
        invariant forall j :: 0 <= j < i ==> n.virt[j] == f(entries[j])
        invariant forall j :: i <= j < n.virt.Length ==> n.virt[j] == entries[j]
        invariant contents == was[k := Desc(region, Tab(n.phys, n.virt[..]))]
        modifies this`contents, n.virt
      {
        Write(n, k, region, i, f(n.virt[i]));
      }
      assert n.virt[..] == MapSeq(entries, f);
    }
  }
}
