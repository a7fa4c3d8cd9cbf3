/** The temporal graph of the reference specification (bdd/python/reference.py): traversal by
    frontier sets, against paths. */
module Graph {
  import opened Wrappers
  import opened Ordering

  type Id = nat

  datatype Edge = Edge(from: Id, kind: string, to: Id, validFrom: Option<int>, validTo: Option<int>)

  datatype Direction = Out | In

  datatype Hop = Hop(kind: string, direction: Direction)

  /** The half-open window holds the instant; with no instant every edge counts. */
  predicate ValidAt(edge: Edge, at: Option<int>) {
    at.None? || ((edge.validFrom.None? || at.value >= edge.validFrom.value)
                 && (edge.validTo.None? || at.value < edge.validTo.value))
  }

  /** The edge takes the hop from `a` to `b`. */
  predicate Follows(edge: Edge, hop: Hop, at: Option<int>, a: Id, b: Id) {
    && edge.kind == hop.kind && ValidAt(edge, at)
    && match hop.direction
       case Out => edge.from == a && edge.to == b
       case In => edge.to == a && edge.from == b
  }

  // ----- Paths -----

  /** `stops` visits one node per hop after the first, each reached along an edge for that hop. */
  ghost predicate IsPath(edges: seq<Edge>, hops: seq<Hop>, at: Option<int>, stops: seq<Id>) {
    && |stops| == |hops| + 1
    && forall i :: 0 <= i < |hops| ==> Linked(edges, hops[i], at, stops[i], stops[i + 1])
  }

  ghost predicate Linked(edges: seq<Edge>, hop: Hop, at: Option<int>, a: Id, b: Id) {
    exists e :: e in edges && Follows(e, hop, at, a, b)
  }

  ghost predicate Reaches(edges: seq<Edge>, hops: seq<Hop>, at: Option<int>, start: Id, end: Id) {
    exists stops :: IsPath(edges, hops, at, stops) && stops[0] == start && stops[|hops|] == end
  }

  function Flip(direction: Direction): Direction {
    if direction.Out? then In else Out
  }

  /** The hops walked backwards. */
  function Reversed(hops: seq<Hop>): (reversed: seq<Hop>)
    ensures |reversed| == |hops|
    ensures forall i :: 0 <= i < |hops| ==>
      reversed[i] == Hop(hops[|hops| - 1 - i].kind, Flip(hops[|hops| - 1 - i].direction))
  {
    seq(|hops|, i requires 0 <= i < |hops| => Hop(hops[|hops| - 1 - i].kind, Flip(hops[|hops| - 1 - i].direction)))
  }

  lemma ReversePath(edges: seq<Edge>, hops: seq<Hop>, at: Option<int>, start: Id, end: Id)
    requires Reaches(edges, hops, at, start, end)
    ensures Reaches(edges, Reversed(hops), at, end, start)
  {
    var stops :| IsPath(edges, hops, at, stops) && stops[0] == start && stops[|hops|] == end;
    var n := |hops|;
    var back := seq(n + 1, i requires 0 <= i <= n => stops[n - i]);
    var reversed := Reversed(hops);
    forall i | 0 <= i < n ensures Linked(edges, reversed[i], at, back[i], back[i + 1]) {
      assert Linked(edges, hops[n - 1 - i], at, stops[n - 1 - i], stops[n - 1 - i + 1]);
      var e :| e in edges && Follows(e, hops[n - 1 - i], at, stops[n - 1 - i], stops[n - i]);
      assert Follows(e, reversed[i], at, back[i], back[i + 1]);
    }
    assert IsPath(edges, reversed, at, back);
  }

  /** A node is reached from a start exactly when the start is reached back along the reversed hops. */
  lemma ReachesIffReversed(edges: seq<Edge>, hops: seq<Hop>, at: Option<int>, start: Id, end: Id)
    ensures Reaches(edges, hops, at, start, end) <==> Reaches(edges, Reversed(hops), at, end, start)
  {
    if Reaches(edges, hops, at, start, end) {
      ReversePath(edges, hops, at, start, end);
    }
    if Reaches(edges, Reversed(hops), at, end, start) {
      ReversePath(edges, Reversed(hops), at, end, start);
      assert Reversed(Reversed(hops)) == hops;
    }
  }

  /** Adding edges, and dropping the instant, only adds reachable nodes. */
  lemma ReachesMonotone(edges: seq<Edge>, more: seq<Edge>, hops: seq<Hop>, at: Option<int>, start: Id, end: Id)
    requires Reaches(edges, hops, at, start, end)
    ensures Reaches(edges + more, hops, at, start, end) && Reaches(edges + more, hops, None, start, end)
  {
    var stops :| IsPath(edges, hops, at, stops) && stops[0] == start && stops[|hops|] == end;
    forall i | 0 <= i < |hops|
      ensures Linked(edges + more, hops[i], at, stops[i], stops[i + 1])
      ensures Linked(edges + more, hops[i], None, stops[i], stops[i + 1])
    {
      assert Linked(edges, hops[i], at, stops[i], stops[i + 1]);
      var e :| e in edges && Follows(e, hops[i], at, stops[i], stops[i + 1]);
      assert e in edges + more && Follows(e, hops[i], None, stops[i], stops[i + 1]);
    }
    assert IsPath(edges + more, hops, at, stops) && IsPath(edges + more, hops, None, stops);
  }

  /** One hop more extends every path by one stop. */
  lemma ReachesOneMore(edges: seq<Edge>, hops: seq<Hop>, k: nat, at: Option<int>, start: Id, end: Id)
    requires k < |hops|
    ensures Reaches(edges, hops[..k + 1], at, start, end)
        <==> exists mid :: Reaches(edges, hops[..k], at, start, mid) && Linked(edges, hops[k], at, mid, end)
  {
    if Reaches(edges, hops[..k + 1], at, start, end) {
      var stops :| IsPath(edges, hops[..k + 1], at, stops) && stops[0] == start && stops[k + 1] == end;
      assert Linked(edges, hops[..k + 1][k], at, stops[k], stops[k + 1]);
      assert forall i :: 0 <= i < k ==> hops[..k][i] == hops[..k + 1][i];
      assert IsPath(edges, hops[..k], at, stops[..k + 1]);
    }
    if mid :| Reaches(edges, hops[..k], at, start, mid) && Linked(edges, hops[k], at, mid, end) {
      var stops :| IsPath(edges, hops[..k], at, stops) && stops[0] == start && stops[k] == mid;
      assert forall i :: 0 <= i < k ==> hops[..k][i] == hops[..k + 1][i];
      assert IsPath(edges, hops[..k + 1], at, stops + [end]);
    }
  }

  // ----- The engine -----

  type EdgeKey = (Id, string, Id)

  datatype Written<K> = Written(key: K, source: string)

  /** Every key that was written holds its first source. */
  ghost predicate HoldsFirst<K(!new)>(sources: map<K, string>, records: seq<Written<K>>) {
    && (forall key :: key in sources <==> exists i :: 0 <= i < |records| && records[i].key == key)
    && forall i :: 0 <= i < |records| && (forall j :: 0 <= j < i ==> records[j].key != records[i].key) ==>
         records[i].key in sources && sources[records[i].key] == records[i].source
  }

  /** Every key that was written holds its last source. */
  ghost predicate HoldsLast<K(!new)>(sources: map<K, string>, records: seq<Written<K>>) {
    && (forall key :: key in sources <==> exists i :: 0 <= i < |records| && records[i].key == key)
    && forall i :: 0 <= i < |records| && (forall j :: i < j < |records| ==> records[j].key != records[i].key) ==>
         records[i].key in sources && sources[records[i].key] == records[i].source
  }

  lemma WriteFirst<K(!new)>(sources: map<K, string>, records: seq<Written<K>>, key: K, source: string)
    requires HoldsFirst(sources, records)
    ensures HoldsFirst(if key in sources then sources else sources[key := source], records + [Written(key, source)])
  {
    var all := records + [Written(key, source)];
    assert forall i :: 0 <= i < |records| ==> all[i] == records[i];
    assert all[|records|].key == key;
  }

  lemma WriteLast<K(!new)>(sources: map<K, string>, records: seq<Written<K>>, key: K, source: string)
    requires HoldsLast(sources, records)
    ensures HoldsLast(sources[key := source], records + [Written(key, source)])
  {
    var all := records + [Written(key, source)];
    assert forall i :: 0 <= i < |records| ==> all[i] == records[i];
    assert all[|records|].key == key;
  }

  lemma {:induction false} FirstOf<K(!new)>(records: seq<Written<K>>, key: K) returns (i: nat)
    requires exists k :: 0 <= k < |records| && records[k].key == key
    ensures i < |records| && records[i].key == key && forall j :: 0 <= j < i ==> records[j].key != key
  {
    i := 0;
    while records[i].key != key
      invariant i < |records| && forall j :: 0 <= j < i ==> records[j].key != key
      decreases |records| - i
    {
      i := i + 1;
    }
  }

  lemma {:induction false} LastOf<K(!new)>(records: seq<Written<K>>, key: K) returns (i: nat)
    requires exists k :: 0 <= k < |records| && records[k].key == key
    ensures i < |records| && records[i].key == key && forall j :: i < j < |records| ==> records[j].key != key
  {
    i := |records| - 1;
    while records[i].key != key
      invariant i < |records| && forall j :: i < j < |records| ==> records[j].key != key
      decreases i
    {
      i := i - 1;
    }
  }

  class GraphEngine {
    const nodeId: string -> Id
    var nodes: map<Id, string>
    var edges: seq<Edge>
    var nodeSources: map<Id, string>
    var edgeSources: map<EdgeKey, string>

    ghost var nodeRecords: seq<Written<Id>>
    ghost var edgeRecords: seq<Written<EdgeKey>>

    /** Every node sits under the id of its value; a node keeps its first source, an edge its last. */
    ghost predicate Valid()
      reads this
    {
      && (forall id :: id in nodes ==> nodeId(nodes[id]) == id)
      && HoldsFirst(nodeSources, nodeRecords) && HoldsLast(edgeSources, edgeRecords)
    }

    constructor (nodeId: string -> Id)
      ensures Valid() && nodes == map[] && edges == [] && this.nodeId == nodeId
      ensures nodeRecords == [] && edgeRecords == []
    {
      this.nodeId := nodeId;
      nodes, edges, nodeSources, edgeSources, nodeRecords, edgeRecords := map[], [], map[], map[], [], [];
    }

    /** Re-adding a value is the same node, and the first value and source under an id stay. */
    method UpsertNode(value: string, source: Option<string>) returns (id: Id)
      requires Valid()
      modifies this`nodes, this`nodeSources, this`nodeRecords
      ensures Valid() && id == nodeId(value) && id in nodes
      ensures nodes == if id in old(nodes) then old(nodes) else old(nodes)[id := value]
      ensures nodeRecords == old(nodeRecords) + if source.Some? then [Written(id, source.value)] else []
    {
      id := nodeId(value);
      if id !in nodes {
        nodes := nodes[id := value];
      }
      if source.Some? {
        WriteFirst(nodeSources, nodeRecords, id, source.value);
        nodeRecords := nodeRecords + [Written(id, source.value)];
        if id !in nodeSources {
          nodeSources := nodeSources[id := source.value];
        }
      }
    }

    /** Edges accumulate, and the last source of an edge replaces earlier ones. */
    method AddEdge(edge: Edge, source: Option<string>)
      requires Valid()
      modifies this`edges, this`edgeSources, this`edgeRecords
      ensures Valid() && edges == old(edges) + [edge]
      ensures edgeRecords ==
        old(edgeRecords) + if source.Some? then [Written((edge.from, edge.kind, edge.to), source.value)] else []
    {
      edges := edges + [edge];
      if source.Some? {
        var key := (edge.from, edge.kind, edge.to);
        WriteLast(edgeSources, edgeRecords, key, source.value);
        edgeRecords := edgeRecords + [Written(key, source.value)];
        edgeSources := edgeSources[key := source.value];
      }
    }

    /** The source of a node is that of the first record it was seen in. */
    method NodeSource(value: string) returns (source: Option<string>)
      requires Valid()
      ensures source.None? <==> forall i :: 0 <= i < |nodeRecords| ==> nodeRecords[i].key != nodeId(value)
      ensures source.Some? ==>
        exists i :: 0 <= i < |nodeRecords| && nodeRecords[i] == Written(nodeId(value), source.value) &&
          forall j :: 0 <= j < i ==> nodeRecords[j].key != nodeId(value)
    {
      var id := nodeId(value);
      source := if id in nodeSources then Some(nodeSources[id]) else None;
      if id in nodeSources {
        ghost var i := FirstOf(nodeRecords, id);
      }
    }

    /** The source of an edge is that of the last record that asserted it. */
    method EdgeSource(from: string, kind: string, to: string) returns (source: Option<string>)
      requires Valid()
      ensures
        var key := (nodeId(from), kind, nodeId(to));
        && (source.None? <==> forall i :: 0 <= i < |edgeRecords| ==> edgeRecords[i].key != key)
        && (source.Some? ==>
              exists i :: 0 <= i < |edgeRecords| && edgeRecords[i] == Written(key, source.value) &&
                forall j :: i < j < |edgeRecords| ==> edgeRecords[j].key != key)
    {
      var key := (nodeId(from), kind, nodeId(to));
      source := if key in edgeSources then Some(edgeSources[key]) else None;
      if key in edgeSources {
        ghost var i := LastOf(edgeRecords, key);
      }
    }

    /** The sorted values of exactly the known nodes at the end of a path along the hops. */
    method Traverse(start: string, hops: seq<Hop>, asOf: Option<int>) returns (values: seq<string>)
      requires Valid()
      ensures SortedBy(values, TextLeq)
      ensures Distinct(values)
      ensures forall v :: v in values <==>
        exists id :: id in nodes && nodes[id] == v && Reaches(edges, hops, asOf, nodeId(start), id)
    {
      ghost var origin := nodeId(start);
      var frontier := {nodeId(start)};
      assert IsPath(edges, hops[..0], asOf, [origin]);
      var k := 0;
      while k < |hops|
        invariant 0 <= k <= |hops|
        invariant forall id :: id in frontier <==> Reaches(edges, hops[..k], asOf, origin, id)
      {
        var next := Step(frontier, hops[k], asOf);
        forall id ensures id in next <==> Reaches(edges, hops[..k + 1], asOf, origin, id) {
          ReachesOneMore(edges, hops, k, asOf, origin, id);
        }
        frontier := next;
        k := k + 1;
      }
      assert hops[..k] == hops;
      values := Known(frontier);
    }

    /** The far ends of the edges that take the hop from the frontier. */
    method Step(frontier: set<Id>, hop: Hop, asOf: Option<int>) returns (next: set<Id>)
      ensures forall b :: b in next <==> exists a :: a in frontier && Linked(edges, hop, asOf, a, b)
    {
      next := {};
      var j := 0;
      while j < |edges|
        invariant 0 <= j <= |edges|
        invariant forall b :: b in next <==> exists a :: a in frontier && Linked(edges[..j], hop, asOf, a, b)
      {
        var edge := edges[j];
        ghost var before := next;
        assert edges[..j + 1] == edges[..j] + [edge];
        if edge.kind == hop.kind && ValidAt(edge, asOf) {
          if hop.direction.Out? && edge.from in frontier {
            next := next + {edge.to};
          }
          if hop.direction.In? && edge.to in frontier {
            next := next + {edge.from};
          }
        }
        forall b ensures b in next <==> exists a :: a in frontier && Linked(edges[..j + 1], hop, asOf, a, b) {
          StepOverEdge(frontier, edges[..j], edge, hop, asOf, b);
        }
        j := j + 1;
      }
      assert edges[..j] == edges;
    }

    method Known(ids: set<Id>) returns (values: seq<string>)
      requires Valid()
      ensures SortedBy(values, TextLeq)
      ensures Distinct(values)
      ensures forall v :: v in values <==> exists id :: id in ids && id in nodes && nodes[id] == v
    {
      var left := ids;
      var found: seq<string> := [];
      while left != {}
        invariant left <= ids
        invariant Distinct(found)
        invariant forall v :: v in found <==> exists id :: id in ids - left && id in nodes && nodes[id] == v
        decreases left
      {
        var id :| id in left;
        assert ids - (left - {id}) == (ids - left) + {id};
        left := left - {id};
        if id in nodes {
          forall i | 0 <= i < |found| ensures found[i] != nodes[id] {
            assert found[i] in found;
          }
          found := found + [nodes[id]];
        }
      }
      values := Sort(found, TextLeq);
      TextLeqPreorder();
      SortSorts(found, TextLeq);
      SortContents(found, TextLeq);
      DistinctPermutation(found, values);
    }
  }

  lemma StepOverEdge(frontier: set<Id>, before: seq<Edge>, edge: Edge, hop: Hop, at: Option<int>, b: Id)
    ensures (exists a :: a in frontier && Linked(before + [edge], hop, at, a, b)) <==>
      ((exists a :: a in frontier && Linked(before, hop, at, a, b))
          || (edge.kind == hop.kind && ValidAt(edge, at)
              && ((hop.direction.Out? && edge.from in frontier && edge.to == b)
                  || (hop.direction.In? && edge.to in frontier && edge.from == b))))
  {
    if a :| a in frontier && Linked(before + [edge], hop, at, a, b) {
      var e :| e in before + [edge] && Follows(e, hop, at, a, b);
      assert e in before ==> Linked(before, hop, at, a, b);
    }
    if a :| a in frontier && Linked(before, hop, at, a, b) {
      var e :| e in before && Follows(e, hop, at, a, b);
      assert e in before + [edge];
      assert Linked(before + [edge], hop, at, a, b);
    }
    var near := if hop.direction.Out? then edge.from else edge.to;
    var far := if hop.direction.Out? then edge.to else edge.from;
    if edge.kind == hop.kind && ValidAt(edge, at) && near in frontier && far == b {
      assert edge in before + [edge] && Follows(edge, hop, at, near, b);
      assert Linked(before + [edge], hop, at, near, b);
    }
  }
}
