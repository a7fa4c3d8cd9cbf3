/** The agent-memory store of the reference specification (bdd/python/reference.py). */
module Memory {
  import opened ContentId
  import opened Octets
  import opened Ordering

  type Id = string

  const MEMORY_KIND: byte := 1

  datatype Item = Item(id: Id, body: Bytes)

  function Score(feedback: map<Id, real>, id: Id): real {
    if id in feedback then feedback[id] else 0.0
  }

  /** Higher feedback first. */
  function ByFeedback(feedback: map<Id, real>): (Item, Item) -> bool {
    (x: Item, y: Item) => Score(feedback, x.id) >= Score(feedback, y.id)
  }

  predicate Holds(items: seq<Item>, id: Id) {
    exists i :: 0 <= i < |items| && items[i].id == id
  }

  /** `n` in `width` bytes, most significant first. */
  function BigEndian(n: nat, width: nat): Bytes {
    if width == 0 then [] else BigEndian(n / 256, width - 1) + [(n % 256) as byte]
  }

  /** The items not forgotten, newest first. */
  function NewestFirst(items: seq<Item>, forgotten: set<Id>): seq<Item> {
    if items == [] then []
    else
      var rest := NewestFirst(items[1..], forgotten);
      if items[0].id in forgotten then rest else rest + [items[0]]
  }

  // ----- What recall ranks, by arrival index -----

  ghost function LiveIndices(items: seq<Item>, forgotten: set<Id>, from: nat): seq<nat>
    requires from <= |items|
    decreases |items| - from
  {
    if from == |items| then []
    else
      var rest := LiveIndices(items, forgotten, from + 1);
      if items[from].id in forgotten then rest else rest + [from]
  }

  ghost predicate Newer(i: nat, j: nat) {
    i > j
  }

  ghost function ItemAt(items: seq<Item>): nat -> Item {
    (i: nat) => if i < |items| then items[i] else Item("", [])
  }

  lemma {:induction false} MapAppend<S, T>(f: S -> T, xs: seq<S>, x: S)
    ensures Map(f, xs + [x]) == Map(f, xs) + [f(x)]
  {
    MapAt(f, xs);
    MapAt(f, xs + [x]);
  }

  lemma {:induction false} LiveIndicesAre(items: seq<Item>, forgotten: set<Id>, from: nat)
    requires from <= |items|
    ensures SortedBy(LiveIndices(items, forgotten, from), Newer)
    ensures forall i: nat :: i in LiveIndices(items, forgotten, from) <==>
      from <= i < |items| && items[i].id !in forgotten
    decreases |items| - from
  {
    if from < |items| {
      var rest := LiveIndices(items, forgotten, from + 1);
      LiveIndicesAre(items, forgotten, from + 1);
      NewerAppend(rest, from);
    }
  }

  lemma NewerAppend(indices: seq<nat>, i: nat)
    requires SortedBy(indices, Newer) && forall j :: j in indices ==> j > i
    ensures SortedBy(indices + [i], Newer)
  {
    assert forall k :: 0 <= k < |indices| ==> indices[k] in indices;
  }

  lemma {:induction false} LiveIndicesProject(items: seq<Item>, forgotten: set<Id>, from: nat)
    requires from <= |items|
    ensures Map(ItemAt(items), LiveIndices(items, forgotten, from)) == NewestFirst(items[from..], forgotten)
    decreases |items| - from
  {
    if from < |items| {
      LiveIndicesProject(items, forgotten, from + 1);
      assert items[from..][1..] == items[from + 1..];
      MapAppend(ItemAt(items), LiveIndices(items, forgotten, from + 1), from);
    }
  }

  /** `a` is recalled before `b`: more feedback, or the same and newer. */
  ghost predicate Ahead(items: seq<Item>, feedback: map<Id, real>, a: nat, b: nat)
    requires a < |items| && b < |items|
  {
    var sa, sb := Score(feedback, items[a].id), Score(feedback, items[b].id);
    sa > sb || (sa == sb && a > b)
  }

  /** The ranking behind a recall: every live item once, each ahead of the ones after it. */
  ghost predicate IsRanking(items: seq<Item>, forgotten: set<Id>, feedback: map<Id, real>, ranks: seq<nat>) {
    && (forall p :: 0 <= p < |ranks| ==> ranks[p] < |items|)
    && (forall i: nat :: i in ranks <==> i < |items| && items[i].id !in forgotten)
    && (forall p, q :: 0 <= p < q < |ranks| ==> Ahead(items, feedback, ranks[p], ranks[q]))
  }

  ghost function Ranked(items: seq<Item>, forgotten: set<Id>, feedback: map<Id, real>): seq<Item> {
    Sort(NewestFirst(items, forgotten), ByFeedback(feedback))
  }

  ghost function ScoreAt(items: seq<Item>, feedback: map<Id, real>, i: nat): real {
    if i < |items| then Score(feedback, items[i].id) else 0.0
  }

  ghost function IndexOrder(items: seq<Item>, feedback: map<Id, real>): (nat, nat) -> bool {
    (i: nat, j: nat) => ScoreAt(items, feedback, i) >= ScoreAt(items, feedback, j)
  }

  ghost function Ranks(items: seq<Item>, forgotten: set<Id>, feedback: map<Id, real>): seq<nat> {
    Sort(LiveIndices(items, forgotten, 0), IndexOrder(items, feedback))
  }

  lemma RanksProject(items: seq<Item>, forgotten: set<Id>, feedback: map<Id, real>)
    ensures Ranked(items, forgotten, feedback) == Map(ItemAt(items), Ranks(items, forgotten, feedback))
  {
    LiveIndicesProject(items, forgotten, 0);
    LiveIndicesAre(items, forgotten, 0);
    assert items[0..] == items;
    SortMap(ItemAt(items), LiveIndices(items, forgotten, 0), IndexOrder(items, feedback), ByFeedback(feedback));
  }

  lemma IndexOrderIsPreorder(items: seq<Item>, feedback: map<Id, real>)
    ensures TotalPreorder(IndexOrder(items, feedback))
  {
  }

  lemma RanksMembers(items: seq<Item>, forgotten: set<Id>, feedback: map<Id, real>)
    ensures forall i: nat :: i in Ranks(items, forgotten, feedback) <==> i < |items| && items[i].id !in forgotten
  {
    var live, order := LiveIndices(items, forgotten, 0), IndexOrder(items, feedback);
    LiveIndicesAre(items, forgotten, 0);
    SortContents(live, order);
    forall i: nat ensures i in Sort(live, order) <==> i in live {
      assert i in Sort(live, order) <==> i in multiset(Sort(live, order));
      assert i in live <==> i in multiset(live);
    }
  }

  /** Stable-sorting the newest-first list by feedback ranks by feedback, then recency. */
  lemma RanksAreRanking(items: seq<Item>, forgotten: set<Id>, feedback: map<Id, real>)
    ensures IsRanking(items, forgotten, feedback, Ranks(items, forgotten, feedback))
  {
    var live, ranks := LiveIndices(items, forgotten, 0), Ranks(items, forgotten, feedback);
    var order := IndexOrder(items, feedback);
    RanksMembers(items, forgotten, feedback);
    assert forall p :: 0 <= p < |ranks| ==> ranks[p] in ranks;
    LiveIndicesAre(items, forgotten, 0);
    assert SortedThen(ranks, order, Newer) by {
      IndexOrderIsPreorder(items, feedback);
      SortIsStable(live, order, Newer);
    }
    forall p, q | 0 <= p < q < |ranks| ensures Ahead(items, feedback, ranks[p], ranks[q]) {
      var a, b := ranks[p], ranks[q];
      assert Then(order, Newer, a, b);
      assert order(a, b) == (Score(feedback, items[a].id) >= Score(feedback, items[b].id));
      assert order(b, a) == (Score(feedback, items[b].id) >= Score(feedback, items[a].id));
    }
  }

  lemma {:induction false} SortOfTied<T>(xs: seq<T>, leq: (T, T) -> bool)
    requires forall a, b :: a in xs && b in xs ==> leq(a, b)
    ensures Sort(xs, leq) == xs
  {
    if xs != [] {
      SortOfTied(xs[1..], leq);
      assert xs == [xs[0]] + xs[1..];
    }
  }

  lemma TiedWithoutFeedback(live: seq<Item>)
    ensures Sort(live, ByFeedback(map[])) == live
  {
    var order := ByFeedback(map[]);
    forall x, y ensures order(x, y) {
      assert Score(map[], x.id) == 0.0 == Score(map[], y.id);
    }
    SortOfTied(live, order);
  }

  /** There is only one ranking. */
  lemma RankingIsUnique(items: seq<Item>, forgotten: set<Id>, feedback: map<Id, real>, ranks: seq<nat>, other: seq<nat>)
    requires IsRanking(items, forgotten, feedback, ranks) && IsRanking(items, forgotten, feedback, other)
    ensures ranks == other
  {
    var leq := (a: nat, b: nat) =>
      var scoreA, scoreB := ScoreAt(items, feedback, a), ScoreAt(items, feedback, b);
      scoreA > scoreB || (scoreA == scoreB && a >= b);
    assert Distinct(ranks) && Distinct(other);
    SameMembersPermute(ranks, other);
    SortedPermutationUnique(ranks, other, leq);
  }

  ghost predicate AreTop(bodies: seq<Bytes>, items: seq<Item>, ranks: seq<nat>, limit: nat)
    requires forall p :: 0 <= p < |ranks| ==> ranks[p] < |items|
  {
    && |bodies| == (if limit <= |ranks| then limit else |ranks|)
    && forall k :: 0 <= k < |bodies| ==> bodies[k] == items[ranks[k]].body
  }

  class MemoryEngine {
    const agent: Bytes
    var items: seq<Item>
    var forgotten: set<Id>
    var feedback: map<Id, real>
    var counter: nat

    constructor (agent: Bytes)
      ensures items == [] && forgotten == {} && feedback == map[] && counter == 0 && this.agent == agent
    {
      this.agent := agent;
      items, forgotten, feedback, counter := [], {}, map[], 0;
    }

    /** A deduplicated body goes under its content id, once; any other under an id salted by a fresh count. */
    method Remember(body: Bytes, dedup: bool) returns (id: Id)
      modifies this`items, this`counter
      ensures counter == old(counter) + if dedup then 0 else 1
      ensures id == MemoryContentId(agent, MEMORY_KIND, if dedup then body else body + BigEndian(counter, 16))
      ensures items == if dedup && Holds(old(items), id) then old(items) else old(items) + [Item(id, body)]
    {
      if dedup {
        id := MemoryContentId(agent, MEMORY_KIND, body);
        if Holds(items, id) {
          return;
        }
      } else {
        counter := counter + 1;
        id := MemoryContentId(agent, MEMORY_KIND, body + BigEndian(counter, 16));
      }
      items := items + [Item(id, body)];
    }

    method Improve(target: Id, weight: real)
      modifies this`feedback
      ensures Score(feedback, target) == Score(old(feedback), target) + weight
      ensures forall id :: id != target ==> Score(feedback, id) == Score(old(feedback), id)
    {
      feedback := feedback[target := Score(feedback, target) + weight];
    }

    method Forget(id: Id)
      modifies this`forgotten
      ensures forgotten == old(forgotten) + {id}
    {
      forgotten := forgotten + {id};
    }

    /** The first `limit` bodies of the one ranking by feedback, then recency. */
    method Recall(limit: nat) returns (bodies: seq<Bytes>)
      ensures forall ranks :: IsRanking(items, forgotten, feedback, ranks) ==> AreTop(bodies, items, ranks, limit)
    {
      var live := NewestFirst(items, forgotten);
      if feedback != map[] {
        live := Sort(live, ByFeedback(feedback));
      } else {
        TiedWithoutFeedback(live);
      }
      var top := if limit <= |live| then live[..limit] else live;
      bodies := seq(|top|, i requires 0 <= i < |top| => top[i].body);
      ghost var own := Ranks(items, forgotten, feedback);
      RanksProject(items, forgotten, feedback);
      RanksAreRanking(items, forgotten, feedback);
      MapAt(ItemAt(items), own);
      forall ranks | IsRanking(items, forgotten, feedback, ranks) ensures ranks == own {
        RankingIsUnique(items, forgotten, feedback, ranks, own);
      }
    }
  }
}
