/** Pruned decoding for filters (wire/src/filter/eval.rs): a trie of the paths a filter reads, and a
    decoder that keeps only what lies on them. */
module FilterPaths {
  import opened Wrappers
  import opened Json

  datatype Segment = Key(key: string) | Index(index: nat)

  type Path = seq<Segment>

  /** A location inside a value, if it exists. */
  function Resolve(value: Value, path: Path): Option<Value>
    decreases |path|
  {
    if path == [] then Some(value)
    else match (path[0], value)
      case (Key(key), Object(fields)) => if key in fields then Resolve(fields[key], path[1..]) else None
      case (Index(index), Array(items)) => if index < |items| then Resolve(items[index], path[1..]) else None
      case _ => None
  }

  // ----- Documents -----

  /** A document as the parser delivers it: members in order, keys possibly repeated. */
  datatype Raw =
    | RawScalar(scalar: Value)
    | RawArray(items: seq<Raw>)
    | RawObject(members: seq<Member>)

  datatype Member = Member(key: string, raw: Raw)

  /** The plain decoder: a repeated key keeps its last value. */
  function Decode(raw: Raw): Value
    decreases raw, 0
  {
    match raw
    case RawScalar(scalar) => scalar
    case RawArray(items) => Array(seq(|items|, i requires 0 <= i < |items| => Decode(items[i])))
    case RawObject(members) => Object(DecodeMembers(members, |members|))
  }

  function DecodeMembers(members: seq<Member>, n: nat): map<string, Value>
    requires n <= |members|
    decreases members, n
  {
    if n == 0 then map[]
    else DecodeMembers(members, n - 1)[members[n - 1].key := Decode(members[n - 1].raw)]
  }

  // ----- The trie -----

  datatype Trie = Trie(whole: bool, indices: map<nat, Trie>, keys: map<string, Trie>)

  const EMPTY := Trie(false, map[], map[])

  function Child(trie: Trie, segment: Segment): Option<Trie> {
    match segment
    case Key(key) => if key in trie.keys then Some(trie.keys[key]) else None
    case Index(index) => if index in trie.indices then Some(trie.indices[index]) else None
  }

  function WithChild(trie: Trie, segment: Segment, child: Trie): Trie {
    match segment
    case Key(key) => trie.(keys := trie.keys[key := child])
    case Index(index) => trie.(indices := trie.indices[index := child])
  }

  /** Adds a path. A node that keeps its whole value absorbs every longer path. */
  function Insert(trie: Trie, path: Path): Trie
    decreases |path|
  {
    if path == [] then Trie(true, map[], map[])
    else if trie.whole then trie
    else
      var child := Child(trie, path[0]);
      WithChild(trie, path[0], Insert(if child.Some? then child.value else EMPTY, path[1..]))
  }

  /** The trie keeps what the path reads. */
  ghost predicate Covers(trie: Trie, path: Path)
    decreases |path|
  {
    trie.whole || (path != [] && Child(trie, path[0]).Some? && Covers(Child(trie, path[0]).value, path[1..]))
  }

  lemma {:induction false} InsertCovers(trie: Trie, path: Path)
    ensures Covers(Insert(trie, path), path)
    decreases |path|
  {
    if path != [] && !trie.whole {
      var child := Child(trie, path[0]);
      InsertCovers(if child.Some? then child.value else EMPTY, path[1..]);
    }
  }

  lemma {:induction false} InsertKeeps(trie: Trie, path: Path, other: Path)
    requires Covers(trie, other)
    ensures Covers(Insert(trie, path), other)
    decreases |path|
  {
    if path != [] && !trie.whole && other[0] == path[0] {
      InsertKeeps(Child(trie, path[0]).value, path[1..], other[1..]);
    }
  }

  // ----- Pruned decoding -----

  /** Keeps only the values on the trie's paths. Strings off them become null, array positions stay
      where they are, and an array ends at its last kept position. */
  function Prune(trie: Trie, raw: Raw): Value
    decreases raw, 0
  {
    if trie.whole then Decode(raw)
    else match raw
      case RawScalar(scalar) => if scalar.String? then Null else scalar
      case RawArray(items) => Array(PruneItems(trie, items, |items|))
      case RawObject(members) => Object(PruneMembers(trie, members, |members|))
  }

  function PruneItems(trie: Trie, items: seq<Raw>, n: nat): (kept: seq<Value>)
    requires n <= |items|
    ensures |kept| <= n
    decreases items, n
  {
    if n == 0 then []
    else
      var before := PruneItems(trie, items, n - 1);
      if n - 1 !in trie.indices then before
      else before + seq(n - 1 - |before|, _ => Null) + [Prune(trie.indices[n - 1], items[n - 1])]
  }

  function PruneMembers(trie: Trie, members: seq<Member>, n: nat): map<string, Value>
    requires n <= |members|
    decreases members, n
  {
    if n == 0 then map[]
    else
      var before, member := PruneMembers(trie, members, n - 1), members[n - 1];
      if member.key !in trie.keys then before
      else before[member.key := Prune(trie.keys[member.key], member.raw)]
  }

  lemma {:induction false} PrunedItem(trie: Trie, items: seq<Raw>, n: nat, i: nat)
    requires n <= |items| && i in trie.indices
    ensures i < n ==>
      i < |PruneItems(trie, items, n)| && PruneItems(trie, items, n)[i] == Prune(trie.indices[i], items[i])
    decreases n
  {
    if n > 0 {
      PrunedItem(trie, items, n - 1, i);
    }
  }

  /** The last member with the key, if any. */
  ghost function LastWith(members: seq<Member>, n: nat, key: string): Option<Raw>
    requires n <= |members|
  {
    if n == 0 then None
    else if members[n - 1].key == key then Some(members[n - 1].raw)
    else LastWith(members, n - 1, key)
  }

  lemma {:induction false} PrunedMember(trie: Trie, members: seq<Member>, n: nat, key: string)
    requires n <= |members| && key in trie.keys
    ensures
      var last, kept := LastWith(members, n, key), PruneMembers(trie, members, n);
      (key in kept <==> last.Some?) && (last.Some? ==> kept[key] == Prune(trie.keys[key], last.value))
    decreases n
  {
    if n > 0 {
      PrunedMember(trie, members, n - 1, key);
    }
  }

  lemma {:induction false} DecodedMember(members: seq<Member>, n: nat, key: string)
    requires n <= |members|
    ensures
      var last, all := LastWith(members, n, key), DecodeMembers(members, n);
      (key in all <==> last.Some?) && (last.Some? ==> all[key] == Decode(last.value))
    decreases n
  {
    if n > 0 {
      DecodedMember(members, n - 1, key);
    }
  }

  /** Every path the trie covers reads the same from the pruned value as from the whole document. */
  lemma {:induction false} PruneKeepsPaths(trie: Trie, raw: Raw, path: Path)
    requires Covers(trie, path)
    ensures Resolve(Prune(trie, raw), path) == Resolve(Decode(raw), path)
    decreases |path|
  {
    if !trie.whole {
      var child, rest := Child(trie, path[0]).value, path[1..];
      match (path[0], raw) {
        case (Key(key), RawObject(members)) =>
          PrunedMember(trie, members, |members|, key);
          DecodedMember(members, |members|, key);
          var last := LastWith(members, |members|, key);
          if last.Some? {
            PruneKeepsPaths(child, last.value, rest);
          }
        case (Index(index), RawArray(items)) =>
          PrunedItem(trie, items, |items|, index);
          if index < |items| {
            PruneKeepsPaths(child, items[index], rest);
          }
        case _ =>
      }
    }
  }
}
