/** The compressed adjacency rows handed to the graph partitioner
    (`toCSR`, ps3tool-core/GraphTools.cpp:52-71). */
module CsrGraph {
  import opened FlowGraph

  type Entry = (nat, nat)  // a neighbour and the weight of the edge

  /** `out_edges(v)` and `in_edges(v)`, in the order the edges were added. */
  function OutEntries(edges: seq<Edge>, v: nat): seq<Entry> {
    if edges == [] then []
    else
      var e := edges[|edges| - 1];
      OutEntries(edges[..|edges| - 1], v) + (if e.src == v then [(e.dst, e.weight)] else [])
  }

  function InEntries(edges: seq<Edge>, v: nat): seq<Entry> {
    if edges == [] then []
    else
      var e := edges[|edges| - 1];
      InEntries(edges[..|edges| - 1], v) + (if e.dst == v then [(e.src, e.weight)] else [])
  }

  function Row(edges: seq<Edge>, v: nat): seq<Entry> {
    OutEntries(edges, v) + InEntries(edges, v)
  }

  /** The number of entries in the rows before `v`. */
  function Offset(edges: seq<Edge>, v: nat): nat {
    if v == 0 then 0 else Offset(edges, v - 1) + |Row(edges, v - 1)|
  }

  lemma {:induction false} OffsetOfEdge(edges: seq<Edge>, v: nat)
    requires edges != []
    ensures var last := |edges| - 1;
      Offset(edges, v) == Offset(edges[..last], v)
        + (if edges[last].src < v then 1 else 0) + (if edges[last].dst < v then 1 else 0)
  {
    if v > 0 {
      OffsetOfEdge(edges, v - 1);
    }
  }

  /** The degrees of all vertices add up to twice the number of edges. */
  lemma {:induction false} DegreeSum(edges: seq<Edge>, n: nat)
    requires forall k :: 0 <= k < |edges| ==> edges[k].src < n && edges[k].dst < n
    ensures Offset(edges, n) == 2 * |edges|
    decreases |edges|
  {
    if edges == [] {
      NoEntries(n);
    } else {
      OffsetOfEdge(edges, n);
      DegreeSum(edges[..|edges| - 1], n);
    }
  }

  lemma {:induction false} NoEntries(n: nat)
    ensures Offset([], n) == 0
  {
    if n > 0 {
      NoEntries(n - 1);
    }
  }

  lemma {:induction false} OffsetsAscend(edges: seq<Edge>, u: nat, v: nat)
    requires u <= v
    ensures Offset(edges, u) <= Offset(edges, v)
    decreases v
  {
    if u < v {
      OffsetsAscend(edges, u, v - 1);
    }
  }

  /** The rows of the first `n` vertices, one after the other. */
  function Flat(edges: seq<Edge>, n: nat): (flat: seq<Entry>)
    ensures |flat| == Offset(edges, n)
  {
    if n == 0 then [] else Flat(edges, n - 1) + Row(edges, n - 1)
  }

  /** Row `v` lies between its own offset and the next one. */
  lemma {:induction false} RowInFlat(edges: seq<Edge>, v: nat, n: nat)
    requires v < n
    ensures Offset(edges, v) <= Offset(edges, v + 1) <= Offset(edges, n)
    ensures Flat(edges, n)[Offset(edges, v)..Offset(edges, v + 1)] == Row(edges, v)
  {
    if v < n - 1 {
      RowInFlat(edges, v, n - 1);
      SliceOfPrefix(Flat(edges, n - 1), Row(edges, n - 1), Offset(edges, v), Offset(edges, v + 1));
    } else {
      assert Flat(edges, n) == Flat(edges, v) + Row(edges, v);
    }
  }

  lemma SliceOfPrefix<A>(a: seq<A>, b: seq<A>, i: nat, j: nat)
    requires i <= j <= |a|
    ensures (a + b)[i..j] == a[i..j]
  {}

  ghost predicate Holds(es: array<nat>, ews: array<nat>, entries: seq<Entry>)
    reads es, ews
  {
    |entries| <= es.Length == ews.Length &&
    forall i :: 0 <= i < |entries| ==> es[i] == entries[i].0 && ews[i] == entries[i].1
  }

  ghost predicate OffsetsUpTo(vs: array<nat>, edges: seq<Edge>, n: nat)
    reads vs
  {
    n <= vs.Length && forall v {:trigger vs[v]} :: 0 <= v < n ==> vs[v] == Offset(edges, v)
  }

  /** Each row is in place between consecutive offsets, and all 2|E| entries are used; the writes
      stay inside the arrays. */
  method ToCSR(n: nat, edges: seq<Edge>) returns (vs: array<nat>, es: array<nat>, ews: array<nat>)
    requires forall k :: 0 <= k < |edges| ==> edges[k].src < n && edges[k].dst < n
    ensures vs.Length == n + 1 && es.Length == ews.Length == 2 * |edges|
    ensures OffsetsUpTo(vs, edges, n + 1)
    ensures Offset(edges, n) == 2 * |edges|
    ensures Holds(es, ews, Flat(edges, n))
  {
    vs, es, ews := new nat[n + 1], new nat[2 * |edges|], new nat[2 * |edges|];
    DegreeSum(edges, n);
    FillRows(n, edges, vs, es, ews);
  }

  method FillRows(n: nat, edges: seq<Edge>, vs: array<nat>, es: array<nat>, ews: array<nat>)
    requires vs != es && vs != ews && es != ews
    requires vs.Length == n + 1 && es.Length == ews.Length == Offset(edges, n)
    modifies vs, es, ews
    ensures OffsetsUpTo(vs, edges, n + 1) && Holds(es, ews, Flat(edges, n))
  {
    var edge: nat := 0;
    for v := 0 to n
      invariant edge == Offset(edges, v)
      invariant OffsetsUpTo(vs, edges, v)
      invariant Holds(es, ews, Flat(edges, v))
    {
      OffsetsAscend(edges, v + 1, n);
      SetOffset(vs, edges, v, edge);
      FlatNext(edges, v);
      edge := WriteBoth(es, ews, edge, OutEntries(edges, v), InEntries(edges, v), Flat(edges, v));
    }
    SetOffset(vs, edges, n, edge);
  }

  method SetOffset(vs: array<nat>, edges: seq<Edge>, v: nat, edge: nat)
    requires v < vs.Length && OffsetsUpTo(vs, edges, v) && edge == Offset(edges, v)
    modifies vs
    ensures OffsetsUpTo(vs, edges, v + 1)
  {
    vs[v] := edge;
  }

  lemma FlatNext(edges: seq<Edge>, v: nat)
    ensures Flat(edges, v + 1) == Flat(edges, v) + OutEntries(edges, v) + InEntries(edges, v)
    ensures Offset(edges, v + 1) == Offset(edges, v) + |OutEntries(edges, v)| + |InEntries(edges, v)|
  {}

  /** A row: first the outgoing edges, then the incoming ones. */
  method WriteBoth(es: array<nat>, ews: array<nat>, from: nat, outs: seq<Entry>, ins: seq<Entry>,
                   ghost before: seq<Entry>)
    returns (edge: nat)
    requires es != ews && es.Length == ews.Length && from + |outs| + |ins| <= es.Length
    requires from == |before| && Holds(es, ews, before)
    modifies es, ews
    ensures edge == from + |outs| + |ins| && Holds(es, ews, before + outs + ins)
  {
    edge := WriteRow(es, ews, from, outs, before);
    edge := WriteRow(es, ews, edge, ins, before + outs);
  }

  /** One of the two inner loops: appends `row` to what the arrays hold so far. */
  method WriteRow(es: array<nat>, ews: array<nat>, from: nat, row: seq<Entry>, ghost before: seq<Entry>)
    returns (edge: nat)
    requires es != ews && es.Length == ews.Length && from + |row| <= es.Length
    requires from == |before| && Holds(es, ews, before)
    modifies es, ews
    ensures edge == from + |row| && Holds(es, ews, before + row)
  {
    edge := from;
    for k := 0 to |row|
      invariant edge == from + k
      invariant Holds(es, ews, before + row[..k])
    {
      es[edge], ews[edge] := row[k].0, row[k].1;
      edge := edge + 1;
      assert row[..k + 1] == row[..k] + [row[k]];
    }
    assert row[..|row|] == row;
  }

  /** The rows are symmetric in multiplicity and weight, parallel edges and self-loops included. */
  lemma {:induction false} RowsAreSymmetric(edges: seq<Edge>, v: nat, w: nat, weight: nat)
    ensures multiset(Row(edges, v))[(w, weight)] == multiset(Row(edges, w))[(v, weight)]
    decreases |edges|
  {
    if edges != [] {
      RowsAreSymmetric(edges[..|edges| - 1], v, w, weight);
      RowGrows(edges, v, (w, weight));
      RowGrows(edges, w, (v, weight));
    }
  }

  /** A row has an entry for each end of each edge at the vertex, with the other end and the weight of
      the edge, and no others. */
  lemma {:induction false} RowCounts(edges: seq<Edge>, v: nat, w: nat, weight: nat)
    ensures multiset(Row(edges, v))[(w, weight)] ==
      multiset(edges)[Edge(v, w, weight)] + multiset(edges)[Edge(w, v, weight)]
    decreases |edges|
  {
    if edges != [] {
      var last := |edges| - 1;
      RowCounts(edges[..last], v, w, weight);
      RowGrows(edges, v, (w, weight));
      CountLast(edges, Edge(v, w, weight));
      CountLast(edges, Edge(w, v, weight));
    }
  }

  lemma CountLast(edges: seq<Edge>, e: Edge)
    requires edges != []
    ensures multiset(edges)[e] == multiset(edges[..|edges| - 1])[e] + (if edges[|edges| - 1] == e then 1 else 0)
  {
    assert edges == edges[..|edges| - 1] + [edges[|edges| - 1]];
  }

  lemma RowGrows(edges: seq<Edge>, v: nat, x: Entry)
    requires edges != []
    ensures var e := edges[|edges| - 1];
      multiset(Row(edges, v))[x] == multiset(Row(edges[..|edges| - 1], v))[x]
        + (if e.src == v && x == (e.dst, e.weight) then 1 else 0)
        + (if e.dst == v && x == (e.src, e.weight) then 1 else 0)
  {
    var e, before := edges[|edges| - 1], edges[..|edges| - 1];
    var outs, ins := OutEntries(before, v), InEntries(before, v);
    CountOneMore(outs, (e.dst, e.weight), e.src == v, x);
    CountOneMore(ins, (e.src, e.weight), e.dst == v, x);
    CountBoth(outs, ins, x);
    CountBoth(OutEntries(edges, v), InEntries(edges, v), x);
  }

  lemma CountOneMore(row: seq<Entry>, entry: Entry, added: bool, x: Entry)
    ensures multiset(row + (if added then [entry] else []))[x] ==
      multiset(row)[x] + (if added && x == entry then 1 else 0)
  {
    assert row + [] == row;
  }

  lemma CountBoth(outs: seq<Entry>, ins: seq<Entry>, x: Entry)
    ensures multiset(outs + ins)[x] == multiset(outs)[x] + multiset(ins)[x]
  {}
}
