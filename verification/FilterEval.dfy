/** Filter evaluation (wire/src/filter/eval.rs): three-valued logic, header predicates first, stop at
    the first decisive child, decode the payload only when reached. */
module FilterEval {
  import opened Wrappers
  import opened Json
  import opened FilterPaths

  datatype Truth = Match | NoMatch | Unknown

  /** What a leaf sees: its truth, and whether a value had a type it cannot compare. */
  datatype Sight = Sight(truth: Truth, mismatched: bool)

  type Headers = map<string, Value>

  /** A filter. A payload leaf looks at one path; a header leaf only at the headers. */
  datatype Expr =
    | All(children: seq<Expr>)
    | Any(children: seq<Expr>)
    | Not(child: Expr)
    | Payload(path: Path, look: Option<Value> -> Sight)
    | Header(probe: Headers -> Sight)

  datatype Fault = ForeignCodec | TooLarge | TooDeep | Malformed | TypeMismatch

  predicate ReadsPayload(expr: Expr) {
    match expr
    case All(children) => exists i :: 0 <= i < |children| && ReadsPayload(children[i])
    case Any(children) => exists i :: 0 <= i < |children| && ReadsPayload(children[i])
    case Not(child) => ReadsPayload(child)
    case Payload(_, _) => true
    case Header(_) => false
  }

  function Negate(truth: Truth): Truth {
    match truth
    case Match => NoMatch
    case NoMatch => Match
    case Unknown => Unknown
  }

  // ----- Evaluation as the code runs it -----

  /** Children that read no payload come first, each group in its own order. */
  function HeaderFirst(children: seq<Expr>): seq<nat> {
    Pick(children, |children|, false) + Pick(children, |children|, true)
  }

  function Pick(children: seq<Expr>, n: nat, payload: bool): seq<nat>
    requires n <= |children|
  {
    if n == 0 then []
    else Pick(children, n - 1, payload) + (if ReadsPayload(children[n - 1]) == payload then [n - 1] else [])
  }

  /** A truth or the fault met, and whether a mismatch was seen on the way. */
  datatype Run = Run(result: Result<Truth, Fault>, mismatched: bool)

  function Evaluate(expr: Expr, payload: Result<Value, Fault>, headers: Headers): Run
    decreases expr, 0
  {
    match expr
    case All(children) => Combine(children, HeaderFirst(children), NoMatch, Match, false, payload, headers)
    case Any(children) => Combine(children, HeaderFirst(children), Match, NoMatch, false, payload, headers)
    case Not(child) =>
      var run := Evaluate(child, payload, headers);
      if run.result.Ok? then Run(Ok(Negate(run.result.value)), run.mismatched) else run
    case Payload(path, look) =>
      (match payload
       case Err(fault) => Run(Err(fault), false)
       case Ok(value) => var sight := look(Resolve(value, path)); Run(Ok(sight.truth), sight.mismatched))
    case Header(probe) => var sight := probe(headers); Run(Ok(sight.truth), sight.mismatched)
  }

  /** Runs the children in the given order until one is decisive or faults. */
  function Combine(children: seq<Expr>, order: seq<nat>, decisive: Truth, otherwise: Truth, unknown: bool,
                   payload: Result<Value, Fault>, headers: Headers): Run
    decreases children, |order|
  {
    if order == [] || order[0] >= |children| then Run(Ok(if unknown then Unknown else otherwise), false)
    else
      var run := Evaluate(children[order[0]], payload, headers);
      if run.result.Err? || run.result.value == decisive then run
      else
        var unknown' := unknown || run.result.value.Unknown?;
        var rest := Combine(children, order[1..], decisive, otherwise, unknown', payload, headers);
        Run(rest.result, run.mismatched || rest.mismatched)
  }

  // ----- Three-valued meaning -----

  /** The truth of a filter with every node evaluated, as an explanation folds it. */
  ghost function Meaning(expr: Expr, value: Value, headers: Headers): Truth {
    match expr
    case All(children) =>
      Fold(seq(|children|, i requires 0 <= i < |children| => Meaning(children[i], value, headers)),
           NoMatch, Match)
    case Any(children) =>
      Fold(seq(|children|, i requires 0 <= i < |children| => Meaning(children[i], value, headers)),
           Match, NoMatch)
    case Not(child) => Negate(Meaning(child, value, headers))
    case Payload(path, look) => look(Resolve(value, path)).truth
    case Header(probe) => probe(headers).truth
  }

  ghost function Fold(truths: seq<Truth>, decisive: Truth, otherwise: Truth): Truth {
    if decisive in truths then decisive else if Unknown in truths then Unknown else otherwise
  }

  // ----- Short-circuiting keeps the meaning -----

  lemma {:induction false} PickMembers(children: seq<Expr>, n: nat, payload: bool)
    requires n <= |children|
    ensures forall i: nat :: i in Pick(children, n, payload) <==> i < n && ReadsPayload(children[i]) == payload
  {
    if n > 0 {
      PickMembers(children, n - 1, payload);
    }
  }

  lemma HeaderFirstMembers(children: seq<Expr>)
    ensures forall i: nat :: i in HeaderFirst(children) <==> i < |children|
    ensures forall k :: 0 <= k < |HeaderFirst(children)| ==> HeaderFirst(children)[k] < |children|
  {
    PickMembers(children, |children|, false);
    PickMembers(children, |children|, true);
    var order := HeaderFirst(children);
    forall k | 0 <= k < |order| ensures order[k] < |children| {
      assert order[k] in order;
    }
  }

  /** With a decoded payload the run ends in the meaning of the filter. */
  lemma {:induction false} EvaluateMeans(expr: Expr, value: Value, headers: Headers)
    ensures Evaluate(expr, Ok(value), headers).result == Ok(Meaning(expr, value, headers))
    decreases expr, 0
  {
    match expr
    case All(children) =>
      HeaderFirstMembers(children);
      CombineMeans(children, HeaderFirst(children), NoMatch, Match, false, value, headers);
      FoldInOrder(children, value, headers);
    case Any(children) =>
      HeaderFirstMembers(children);
      CombineMeans(children, HeaderFirst(children), Match, NoMatch, false, value, headers);
      FoldInOrder(children, value, headers);
    case Not(child) =>
      EvaluateMeans(child, value, headers);
    case _ =>
  }

  /** The truths of the children an order visits. */
  ghost predicate Visited(children: seq<Expr>, order: seq<nat>, value: Value, headers: Headers, truth: Truth)
    requires forall k :: 0 <= k < |order| ==> order[k] < |children|
  {
    exists k :: 0 <= k < |order| && Meaning(children[order[k]], value, headers) == truth
  }

  lemma {:induction false} CombineMeans(children: seq<Expr>, order: seq<nat>, decisive: Truth, otherwise: Truth,
                                        unknown: bool, value: Value, headers: Headers)
    requires forall k :: 0 <= k < |order| ==> order[k] < |children|
    requires !decisive.Unknown?
    ensures Combine(children, order, decisive, otherwise, unknown, Ok(value), headers).result == Ok(
      if Visited(children, order, value, headers, decisive) then decisive
      else if unknown || Visited(children, order, value, headers, Unknown) then Unknown else otherwise)
    decreases children, |order|
  {
    if order != [] {
      EvaluateMeans(children[order[0]], value, headers);
      var truth, rest := Meaning(children[order[0]], value, headers), order[1..];
      VisitedFirst(children, order, value, headers, decisive);
      VisitedFirst(children, order, value, headers, Unknown);
      if truth != decisive {
        CombineMeans(children, rest, decisive, otherwise, unknown || truth.Unknown?, value, headers);
      }
    }
  }

  lemma VisitedFirst(children: seq<Expr>, order: seq<nat>, value: Value, headers: Headers, truth: Truth)
    requires order != [] && forall k :: 0 <= k < |order| ==> order[k] < |children|
    ensures Visited(children, order, value, headers, truth) <==>
      Meaning(children[order[0]], value, headers) == truth || Visited(children, order[1..], value, headers, truth)
  {
  }

  lemma {:induction false} VisitsAll(children: seq<Expr>, order: seq<nat>, truths: seq<Truth>, value: Value,
                                     headers: Headers, truth: Truth)
    requires forall k :: 0 <= k < |order| ==> order[k] < |children|
    requires forall i: nat :: i < |children| ==> i in order
    requires |truths| == |children|
    requires forall i :: 0 <= i < |children| ==> truths[i] == Meaning(children[i], value, headers)
    ensures truth in truths <==> Visited(children, order, value, headers, truth)
  {
    if truth in truths {
      var i: nat :| i < |children| && truths[i] == truth;
      assert i in order;
      var k :| 0 <= k < |order| && order[k] == i;
    }
    if Visited(children, order, value, headers, truth) {
      var k :| 0 <= k < |order| && Meaning(children[order[k]], value, headers) == truth;
      assert truths[order[k]] == truth;
    }
  }

  lemma {:induction false} FoldInOrder(children: seq<Expr>, value: Value, headers: Headers)
    requires forall k :: 0 <= k < |HeaderFirst(children)| ==> HeaderFirst(children)[k] < |children|
    ensures
      var truths := seq(|children|, i requires 0 <= i < |children| => Meaning(children[i], value, headers));
      forall truth :: truth in truths <==> Visited(children, HeaderFirst(children), value, headers, truth)
  {
    HeaderFirstMembers(children);
    var truths := seq(|children|, i requires 0 <= i < |children| => Meaning(children[i], value, headers));
    forall truth ensures truth in truths <==> Visited(children, HeaderFirst(children), value, headers, truth) {
      VisitsAll(children, HeaderFirst(children), truths, value, headers, truth);
    }
  }

  /** The order of the children, and how often one is repeated, do not matter. */
  lemma ChildOrderIsFree(children: seq<Expr>, others: seq<Expr>, value: Value, headers: Headers)
    requires forall child :: child in children <==> child in others
    ensures Evaluate(All(children), Ok(value), headers).result == Evaluate(All(others), Ok(value), headers).result
    ensures Evaluate(Any(children), Ok(value), headers).result == Evaluate(Any(others), Ok(value), headers).result
  {
    EvaluateMeans(All(children), value, headers);
    EvaluateMeans(All(others), value, headers);
    EvaluateMeans(Any(children), value, headers);
    EvaluateMeans(Any(others), value, headers);
    SameTruths(children, others, value, headers);
    SameTruths(others, children, value, headers);
  }

  lemma SameTruths(children: seq<Expr>, others: seq<Expr>, value: Value, headers: Headers)
    requires forall child :: child in children ==> child in others
    ensures
      var truths := seq(|children|, i requires 0 <= i < |children| => Meaning(children[i], value, headers));
      var theirs := seq(|others|, i requires 0 <= i < |others| => Meaning(others[i], value, headers));
      forall truth :: truth in truths ==> truth in theirs
  {
    var truths := seq(|children|, i requires 0 <= i < |children| => Meaning(children[i], value, headers));
    var theirs := seq(|others|, i requires 0 <= i < |others| => Meaning(others[i], value, headers));
    forall truth | truth in truths ensures truth in theirs {
      var i :| 0 <= i < |children| && truths[i] == truth;
      assert children[i] in others;
      var j :| 0 <= j < |others| && others[j] == children[i];
      assert theirs[j] == truth;
    }
  }

  // ----- Pruned payloads -----

  /** The paths of a filter, added to a trie in order. */
  function Collect(expr: Expr, trie: Trie): Trie
    decreases expr, 0
  {
    match expr
    case All(children) => CollectAll(children, |children|, trie)
    case Any(children) => CollectAll(children, |children|, trie)
    case Not(child) => Collect(child, trie)
    case Payload(path, _) => Insert(trie, path)
    case Header(_) => trie
  }

  function CollectAll(children: seq<Expr>, n: nat, trie: Trie): Trie
    requires n <= |children|
    decreases children, n
  {
    if n == 0 then trie else Collect(children[n - 1], CollectAll(children, n - 1, trie))
  }

  ghost predicate Covered(expr: Expr, trie: Trie) {
    match expr
    case All(children) => forall i :: 0 <= i < |children| ==> Covered(children[i], trie)
    case Any(children) => forall i :: 0 <= i < |children| ==> Covered(children[i], trie)
    case Not(child) => Covered(child, trie)
    case Payload(path, _) => Covers(trie, path)
    case Header(_) => true
  }

  /** Collecting never uncovers a path. */
  lemma {:induction false} CollectKeeps(expr: Expr, trie: Trie, path: Path)
    requires Covers(trie, path)
    ensures Covers(Collect(expr, trie), path)
    decreases expr, 0
  {
    match expr
    case All(children) => CollectAllKeeps(children, |children|, trie, path);
    case Any(children) => CollectAllKeeps(children, |children|, trie, path);
    case Not(child) => CollectKeeps(child, trie, path);
    case Payload(own, _) => InsertKeeps(trie, own, path);
    case Header(_) =>
  }

  lemma {:induction false} CollectAllKeeps(children: seq<Expr>, n: nat, trie: Trie, path: Path)
    requires n <= |children| && Covers(trie, path)
    ensures Covers(CollectAll(children, n, trie), path)
    decreases children, n
  {
    if n > 0 {
      CollectAllKeeps(children, n - 1, trie, path);
      CollectKeeps(children[n - 1], CollectAll(children, n - 1, trie), path);
    }
  }

  lemma {:induction false} CoveredKeeps(inner: Expr, expr: Expr, trie: Trie)
    requires Covered(inner, trie)
    ensures Covered(inner, Collect(expr, trie))
    decreases inner
  {
    match inner
    case All(children) =>
      forall i | 0 <= i < |children| ensures Covered(children[i], Collect(expr, trie)) {
        CoveredKeeps(children[i], expr, trie);
      }
    case Any(children) =>
      forall i | 0 <= i < |children| ensures Covered(children[i], Collect(expr, trie)) {
        CoveredKeeps(children[i], expr, trie);
      }
    case Not(child) => CoveredKeeps(child, expr, trie);
    case Payload(path, _) => CollectKeeps(expr, trie, path);
    case Header(_) =>
  }

  lemma {:induction false} CollectCovers(expr: Expr, trie: Trie)
    ensures Covered(expr, Collect(expr, trie))
    decreases expr, 0
  {
    match expr
    case All(children) => CollectAllCovers(children, |children|, trie);
    case Any(children) => CollectAllCovers(children, |children|, trie);
    case Not(child) => CollectCovers(child, trie);
    case Payload(path, _) => InsertCovers(trie, path);
    case Header(_) =>
  }

  lemma {:induction false} CollectAllCovers(children: seq<Expr>, n: nat, trie: Trie)
    requires n <= |children|
    ensures forall i :: 0 <= i < n ==> Covered(children[i], CollectAll(children, n, trie))
    decreases children, n
  {
    if n > 0 {
      var before := CollectAll(children, n - 1, trie);
      CollectAllCovers(children, n - 1, trie);
      CollectCovers(children[n - 1], before);
      forall i | 0 <= i < n - 1 ensures Covered(children[i], CollectAll(children, n, trie)) {
        CoveredKeeps(children[i], children[n - 1], before);
      }
    }
  }

  /** Every path the filter reads finds the same in both values. */
  ghost predicate LooksAlike(expr: Expr, value: Value, other: Value) {
    match expr
    case All(children) => forall i :: 0 <= i < |children| ==> LooksAlike(children[i], value, other)
    case Any(children) => forall i :: 0 <= i < |children| ==> LooksAlike(children[i], value, other)
    case Not(child) => LooksAlike(child, value, other)
    case Payload(path, _) => Resolve(value, path) == Resolve(other, path)
    case Header(_) => true
  }

  /** Then it runs the same on both, mismatches included. */
  lemma {:induction false} AlikeRuns(expr: Expr, value: Value, other: Value, headers: Headers)
    requires LooksAlike(expr, value, other)
    ensures Evaluate(expr, Ok(value), headers) == Evaluate(expr, Ok(other), headers)
    decreases expr, 0
  {
    match expr
    case All(children) => AlikeCombines(children, HeaderFirst(children), NoMatch, Match, false, value, other, headers);
    case Any(children) => AlikeCombines(children, HeaderFirst(children), Match, NoMatch, false, value, other, headers);
    case Not(child) => AlikeRuns(child, value, other, headers);
    case _ =>
  }

  predicate IsUnknown(run: Run) {
    run.result.Ok? && run.result.value.Unknown?
  }

  /** Where the first child and the rest run the same over two payloads, so does the combination. */
  lemma CombineAgrees(children: seq<Expr>, order: seq<nat>, decisive: Truth, otherwise: Truth, unknown: bool,
                      payload: Result<Value, Fault>, other: Result<Value, Fault>, headers: Headers)
    requires order != [] && order[0] < |children|
    requires Evaluate(children[order[0]], payload, headers) == Evaluate(children[order[0]], other, headers)
    requires var seen := unknown || IsUnknown(Evaluate(children[order[0]], payload, headers));
      Combine(children, order[1..], decisive, otherwise, seen, payload, headers)
        == Combine(children, order[1..], decisive, otherwise, seen, other, headers)
    ensures Combine(children, order, decisive, otherwise, unknown, payload, headers)
         == Combine(children, order, decisive, otherwise, unknown, other, headers)
  {
  }

  lemma {:induction false} AlikeCombines(children: seq<Expr>, order: seq<nat>, decisive: Truth, otherwise: Truth,
                                         unknown: bool, value: Value, other: Value, headers: Headers)
    requires forall i :: 0 <= i < |children| ==> LooksAlike(children[i], value, other)
    ensures Combine(children, order, decisive, otherwise, unknown, Ok(value), headers)
         == Combine(children, order, decisive, otherwise, unknown, Ok(other), headers)
    decreases children, |order|
  {
    if order != [] && order[0] < |children| {
      var first := children[order[0]];
      AlikeRuns(first, value, other, headers);
      AlikeCombines(children, order[1..], decisive, otherwise,
                    unknown || IsUnknown(Evaluate(first, Ok(value), headers)),
                    value, other, headers);
      CombineAgrees(children, order, decisive, otherwise, unknown, Ok(value), Ok(other), headers);
    }
  }

  lemma {:induction false} CoveredLooksAlike(expr: Expr, trie: Trie, raw: Raw)
    requires Covered(expr, trie)
    ensures LooksAlike(expr, Prune(trie, raw), Decode(raw))
  {
    match expr
    case All(children) =>
      forall i | 0 <= i < |children| ensures LooksAlike(children[i], Prune(trie, raw), Decode(raw)) {
        CoveredLooksAlike(children[i], trie, raw);
      }
    case Any(children) =>
      forall i | 0 <= i < |children| ensures LooksAlike(children[i], Prune(trie, raw), Decode(raw)) {
        CoveredLooksAlike(children[i], trie, raw);
      }
    case Not(child) => CoveredLooksAlike(child, trie, raw);
    case Payload(path, _) => PruneKeepsPaths(trie, raw, path);
    case Header(_) =>
  }

  /** Decoding only the paths a filter names never changes what the filter does. */
  lemma PruningIsInvisible(expr: Expr, raw: Raw, headers: Headers)
    ensures Evaluate(expr, Ok(Prune(Collect(expr, EMPTY), raw)), headers) == Evaluate(expr, Ok(Decode(raw)), headers)
  {
    var trie := Collect(expr, EMPTY);
    CollectCovers(expr, EMPTY);
    CoveredLooksAlike(expr, trie, raw);
    AlikeRuns(expr, Prune(trie, raw), Decode(raw), headers);
  }

  // ----- Undecodable payloads -----

  /** What the headers alone settle, whatever the payload says. */
  ghost function Settled(expr: Expr, headers: Headers): Option<Truth> {
    match expr
    case All(children) =>
      SettledFold(seq(|children|, i requires 0 <= i < |children| => Settled(children[i], headers)),
                  NoMatch, Match)
    case Any(children) =>
      SettledFold(seq(|children|, i requires 0 <= i < |children| => Settled(children[i], headers)),
                  Match, NoMatch)
    case Not(child) => var truth := Settled(child, headers); if truth.Some? then Some(Negate(truth.value)) else None
    case Payload(_, _) => None
    case Header(probe) => Some(probe(headers).truth)
  }

  ghost function SettledFold(truths: seq<Option<Truth>>, decisive: Truth, otherwise: Truth): Option<Truth> {
    if Some(decisive) in truths then Some(decisive)
    else if None in truths then None
    else if Some(Unknown) in truths then Some(Unknown)
    else Some(otherwise)
  }

  /** What the headers settle is the meaning for every payload. */
  lemma {:induction false} SettledMeans(expr: Expr, value: Value, headers: Headers)
    ensures Settled(expr, headers).Some? ==> Settled(expr, headers).value == Meaning(expr, value, headers)
  {
    match expr
    case All(children) => SettledChildren(children, value, headers);
    case Any(children) => SettledChildren(children, value, headers);
    case Not(child) => SettledMeans(child, value, headers);
    case _ =>
  }

  lemma {:induction false} SettledChildren(children: seq<Expr>, value: Value, headers: Headers)
    ensures
      var settled := seq(|children|, i requires 0 <= i < |children| => Settled(children[i], headers));
      var truths := seq(|children|, i requires 0 <= i < |children| => Meaning(children[i], value, headers));
      && (forall truth :: Some(truth) in settled ==> truth in truths)
      && (None !in settled ==> forall truth :: truth in truths ==> Some(truth) in settled)
  {
    var settled := seq(|children|, i requires 0 <= i < |children| => Settled(children[i], headers));
    var truths := seq(|children|, i requires 0 <= i < |children| => Meaning(children[i], value, headers));
    forall i | 0 <= i < |children| ensures settled[i].Some? ==> settled[i].value == truths[i] {
      SettledMeans(children[i], value, headers);
    }
    forall truth | Some(truth) in settled ensures truth in truths {
      var i :| 0 <= i < |children| && settled[i] == Some(truth);
      assert truths[i] == truth;
    }
    if None !in settled {
      forall truth | truth in truths ensures Some(truth) in settled {
        var i :| 0 <= i < |children| && truths[i] == truth;
        assert settled[i] in settled;
      }
    }
  }

  /** The truth of the child at a position of the order, as far as the headers settle it. */
  ghost function SettledAt(children: seq<Expr>, order: seq<nat>, k: nat, headers: Headers): Option<Truth>
    requires k < |order| && order[k] < |children|
  {
    Settled(children[order[k]], headers)
  }

  ghost predicate Indexes(order: seq<nat>, children: seq<Expr>) {
    forall k :: 0 <= k < |order| ==> order[k] < |children|
  }

  /** Over an undecodable payload a run ends in what the headers settle, or in the payload's fault. */
  lemma {:induction false} FaultedRun(expr: Expr, fault: Fault, headers: Headers)
    ensures
      var result := Evaluate(expr, Err(fault), headers).result;
      if result.Ok? then Settled(expr, headers) == Some(result.value) else result.error == fault
    decreases expr, 0
  {
    match expr
    case All(children) =>
      HeaderFirstMembers(children);
      FaultedCombine(children, HeaderFirst(children), NoMatch, Match, false, fault, headers);
      SettledInOrder(children, headers);
    case Any(children) =>
      HeaderFirstMembers(children);
      FaultedCombine(children, HeaderFirst(children), Match, NoMatch, false, fault, headers);
      SettledInOrder(children, headers);
    case Not(child) => FaultedRun(child, fault, headers);
    case _ =>
  }

  lemma {:induction false} FaultedCombine(children: seq<Expr>, order: seq<nat>, decisive: Truth, otherwise: Truth,
                                          unknown: bool, fault: Fault, headers: Headers)
    requires Indexes(order, children) && !decisive.Unknown?
    ensures
      var result := Combine(children, order, decisive, otherwise, unknown, Err(fault), headers).result;
      var settled := seq(|order|, k requires 0 <= k < |order| => SettledAt(children, order, k, headers));
      if result.Err? then result.error == fault
      else if Some(decisive) in settled then result.value == decisive
      else None !in settled && result.value == (if unknown || Some(Unknown) in settled then Unknown else otherwise)
    decreases children, |order|
  {
    if order != [] {
      var first, rest := children[order[0]], order[1..];
      FaultedRun(first, fault, headers);
      var settled := seq(|order|, k requires 0 <= k < |order| => SettledAt(children, order, k, headers));
      var later := seq(|rest|, k requires 0 <= k < |rest| => SettledAt(children, rest, k, headers));
      assert settled == [Settled(first, headers)] + later;
      var run := Evaluate(first, Err(fault), headers);
      if run.result.Ok? && run.result.value != decisive {
        FaultedCombine(children, rest, decisive, otherwise, unknown || run.result.value.Unknown?, fault, headers);
      }
    }
  }

  lemma SettledInOrder(children: seq<Expr>, headers: Headers)
    requires Indexes(HeaderFirst(children), children)
    ensures
      var order := HeaderFirst(children);
      var truths := seq(|children|, i requires 0 <= i < |children| => Settled(children[i], headers));
      var settled := seq(|order|, k requires 0 <= k < |order| => SettledAt(children, order, k, headers));
      forall truth :: truth in truths <==> truth in settled
  {
    HeaderFirstMembers(children);
    var order := HeaderFirst(children);
    var truths := seq(|children|, i requires 0 <= i < |children| => Settled(children[i], headers));
    var settled := seq(|order|, k requires 0 <= k < |order| => SettledAt(children, order, k, headers));
    forall truth ensures truth in truths <==> truth in settled {
      if truth in truths {
        var i: nat :| i < |children| && truths[i] == truth;
        assert i in order;
        var k :| 0 <= k < |order| && order[k] == i;
        assert settled[k] == truth;
      }
      if truth in settled {
        var k :| 0 <= k < |order| && settled[k] == truth;
        assert truths[order[k]] == truth;
      }
    }
  }

  /** An answer over an undecodable payload is the answer for every payload there could have been. */
  lemma FaultedAnswersAreSound(expr: Expr, fault: Fault, headers: Headers, value: Value)
    requires Evaluate(expr, Err(fault), headers).result.Ok?
    ensures Evaluate(expr, Err(fault), headers).result == Evaluate(expr, Ok(value), headers).result
  {
    FaultedRun(expr, fault, headers);
    SettledMeans(expr, value, headers);
    EvaluateMeans(expr, value, headers);
  }

  /** A filter that reads no payload runs the same over any payload, decodable or not. */
  lemma {:induction false} HeaderFilterIgnoresPayload(expr: Expr, headers: Headers, payload: Result<Value, Fault>,
                                                      other: Result<Value, Fault>)
    requires !ReadsPayload(expr)
    ensures Evaluate(expr, payload, headers) == Evaluate(expr, other, headers)
    decreases expr, 0
  {
    match expr
    case All(children) =>
      HeaderCombine(children, HeaderFirst(children), NoMatch, Match, false, headers, payload, other);
    case Any(children) =>
      HeaderCombine(children, HeaderFirst(children), Match, NoMatch, false, headers, payload, other);
    case Not(child) => HeaderFilterIgnoresPayload(child, headers, payload, other);
    case _ =>
  }

  lemma {:induction false} HeaderCombine(children: seq<Expr>, order: seq<nat>, decisive: Truth, otherwise: Truth,
                                         unknown: bool, headers: Headers, payload: Result<Value, Fault>,
                                         other: Result<Value, Fault>)
    requires forall i :: 0 <= i < |children| ==> !ReadsPayload(children[i])
    ensures Combine(children, order, decisive, otherwise, unknown, payload, headers)
         == Combine(children, order, decisive, otherwise, unknown, other, headers)
    decreases children, |order|
  {
    if order != [] && order[0] < |children| {
      var first := children[order[0]];
      HeaderFilterIgnoresPayload(first, headers, payload, other);
      HeaderCombine(children, order[1..], decisive, otherwise, unknown || IsUnknown(Evaluate(first, payload, headers)),
                    headers, payload, other);
      CombineAgrees(children, order, decisive, otherwise, unknown, payload, other, headers);
    }
  }

  /** It always answers. */
  lemma HeaderFilterAnswers(expr: Expr, headers: Headers, payload: Result<Value, Fault>)
    requires !ReadsPayload(expr)
    ensures Evaluate(expr, payload, headers).result == Ok(Meaning(expr, Null, headers))
  {
    EvaluateMeans(expr, Null, headers);
    HeaderFilterIgnoresPayload(expr, headers, payload, Ok(Null));
  }

  // ----- When headers win over an undecodable payload -----

  /** The documented promise: what the headers settle is answered without the payload. */
  ghost predicate HeadersWin(expr: Expr, fault: Fault, headers: Headers) {
    Settled(expr, headers).Some? ==> Evaluate(expr, Err(fault), headers).result.Ok?
  }

  /** The run needs the payload: a leaf reads it, and a combination meets such a child before one the
      headers settle to the decisive truth. It can be told from the filter and the headers alone. */
  ghost predicate Stuck(expr: Expr, headers: Headers)
    decreases expr, 1
  {
    match expr
    case All(children) => StuckIn(children, HeaderFirst(children), NoMatch, headers)
    case Any(children) => StuckIn(children, HeaderFirst(children), Match, headers)
    case Not(child) => Stuck(child, headers)
    case Payload(_, _) => true
    case Header(_) => false
  }

  ghost predicate StuckIn(children: seq<Expr>, order: seq<nat>, decisive: Truth, headers: Headers)
    decreases children, 0
  {
    Meets(order, (i: nat) => i < |children| && Stuck(children[i], headers),
          (i: nat) => i < |children| && Settled(children[i], headers) == Some(decisive))
  }

  /** In the given order, a child that blocks comes before every child that ends the combination. */
  ghost predicate Meets(order: seq<nat>, blocks: nat -> bool, ends: nat -> bool) {
    exists k :: 0 <= k < |order| && blocks(order[k]) && forall j :: 0 <= j < k ==> !blocks(order[j]) && !ends(order[j])
  }

  lemma MeetsStep(order: seq<nat>, blocks: nat -> bool, ends: nat -> bool)
    requires order != []
    ensures Meets(order, blocks, ends) <==> blocks(order[0]) || (!ends(order[0]) && Meets(order[1..], blocks, ends))
  {
    var rest := order[1..];
    if !blocks(order[0]) && !ends(order[0]) && Meets(rest, blocks, ends) {
      var k :| 0 <= k < |rest| && blocks(rest[k]) && forall j :: 0 <= j < k ==> !blocks(rest[j]) && !ends(rest[j]);
      assert forall j :: 0 < j < k + 1 ==> order[j] == rest[j - 1];
      assert blocks(order[k + 1]);
    }
    if Meets(order, blocks, ends) && !blocks(order[0]) {
      var k :| 0 <= k < |order| && blocks(order[k]) && forall j :: 0 <= j < k ==> !blocks(order[j]) && !ends(order[j]);
      assert rest[k - 1] == order[k] && forall j :: 0 <= j < k - 1 ==> rest[j] == order[j + 1];
    }
  }

  lemma StuckStep(children: seq<Expr>, order: seq<nat>, decisive: Truth, headers: Headers)
    requires Indexes(order, children) && order != []
    ensures
      var first := children[order[0]];
      var later := Settled(first, headers) != Some(decisive) && StuckIn(children, order[1..], decisive, headers);
      StuckIn(children, order, decisive, headers) <==> Stuck(first, headers) || later
  {
    MeetsStep(order, (i: nat) => i < |children| && Stuck(children[i], headers),
              (i: nat) => i < |children| && Settled(children[i], headers) == Some(decisive));
  }

  /** Over an undecodable payload a run faults exactly when it needs the payload. */
  lemma {:induction false} FaultsIffStuck(expr: Expr, fault: Fault, headers: Headers)
    ensures Evaluate(expr, Err(fault), headers).result.Err? <==> Stuck(expr, headers)
    decreases expr, 0
  {
    match expr
    case All(children) =>
      HeaderFirstMembers(children);
      CombineFaultsIff(children, HeaderFirst(children), NoMatch, Match, false, fault, headers);
    case Any(children) =>
      HeaderFirstMembers(children);
      CombineFaultsIff(children, HeaderFirst(children), Match, NoMatch, false, fault, headers);
    case Not(child) => FaultsIffStuck(child, fault, headers);
    case _ =>
  }

  lemma {:induction false} CombineFaultsIff(children: seq<Expr>, order: seq<nat>, decisive: Truth, otherwise: Truth,
                                            unknown: bool, fault: Fault, headers: Headers)
    requires Indexes(order, children)
    ensures Combine(children, order, decisive, otherwise, unknown, Err(fault), headers).result.Err? <==>
      StuckIn(children, order, decisive, headers)
    decreases children, |order|
  {
    if order != [] {
      var first := children[order[0]];
      FaultsIffStuck(first, fault, headers);
      FaultedRun(first, fault, headers);
      StuckStep(children, order, decisive, headers);
      var run := Evaluate(first, Err(fault), headers);
      if run.result.Ok? && run.result.value != decisive {
        var unknown' := unknown || run.result.value.Unknown?;
        CombineFaultsIff(children, order[1..], decisive, otherwise, unknown', fault, headers);
      }
    }
  }

  /** The promise holds of a filter and its headers exactly when the run does not need the payload for
      what the headers settle. */
  lemma HeadersWinIff(expr: Expr, fault: Fault, headers: Headers)
    ensures HeadersWin(expr, fault, headers) <==> (Settled(expr, headers).Some? ==> !Stuck(expr, headers))
  {
    FaultsIffStuck(expr, fault, headers);
  }

  /** A settled decisive child comes before every child the headers leave open. */
  ghost predicate DecisiveFirst(children: seq<Expr>, order: seq<nat>, decisive: Truth, headers: Headers)
    requires Indexes(order, children)
  {
    exists k :: 0 <= k < |order| && SettledAt(children, order, k, headers) == Some(decisive) &&
      forall j :: 0 <= j < k ==> SettledAt(children, order, j, headers).Some?
  }

  ghost predicate AllSettled(children: seq<Expr>, order: seq<nat>, headers: Headers)
    requires Indexes(order, children)
  {
    forall k :: 0 <= k < |order| ==> SettledAt(children, order, k, headers).Some?
  }

  lemma {:induction false} CombineAnswersIff(children: seq<Expr>, order: seq<nat>, decisive: Truth, otherwise: Truth,
                                             unknown: bool, fault: Fault, headers: Headers)
    requires Indexes(order, children) && !decisive.Unknown?
    requires forall i :: 0 <= i < |children| ==> HeadersWin(children[i], fault, headers)
    ensures Combine(children, order, decisive, otherwise, unknown, Err(fault), headers).result.Ok? <==>
      DecisiveFirst(children, order, decisive, headers) || AllSettled(children, order, headers)
    decreases |order|
  {
    if order != [] {
      var first, rest := children[order[0]], order[1..];
      FaultedRun(first, fault, headers);
      assert HeadersWin(first, fault, headers);
      DecisiveStep(children, order, decisive, headers);
      AllSettledStep(children, order, headers);
      var run := Evaluate(first, Err(fault), headers);
      if run.result.Ok? && run.result.value != decisive {
        CombineAnswersIff(children, rest, decisive, otherwise, unknown || run.result.value.Unknown?, fault, headers);
      }
    }
  }

  lemma {:induction false} SettledLater(children: seq<Expr>, order: seq<nat>, k: nat, headers: Headers)
    requires Indexes(order, children) && 0 < k < |order|
    ensures SettledAt(children, order[1..], k - 1, headers) == SettledAt(children, order, k, headers)
  {
  }

  lemma {:induction false} AllSettledStep(children: seq<Expr>, order: seq<nat>, headers: Headers)
    requires Indexes(order, children) && order != []
    ensures AllSettled(children, order, headers) <==>
      SettledAt(children, order, 0, headers).Some? && AllSettled(children, order[1..], headers)
  {
    forall k | 0 < k < |order|
      ensures SettledAt(children, order[1..], k - 1, headers) == SettledAt(children, order, k, headers)
    {
      SettledLater(children, order, k, headers);
    }
    forall k | 0 <= k < |order| - 1
      ensures SettledAt(children, order[1..], k, headers) == SettledAt(children, order, k + 1, headers)
    {
      SettledLater(children, order, k + 1, headers);
    }
  }

  lemma {:induction false} DecisiveStep(children: seq<Expr>, order: seq<nat>, decisive: Truth, headers: Headers)
    requires Indexes(order, children) && order != []
    ensures
      var first := SettledAt(children, order, 0, headers);
      DecisiveFirst(children, order, decisive, headers) <==>
      first == Some(decisive) || (first.Some? && DecisiveFirst(children, order[1..], decisive, headers))
  {
    var rest, first := order[1..], SettledAt(children, order, 0, headers);
    forall k | 0 < k < |order|
      ensures SettledAt(children, rest, k - 1, headers) == SettledAt(children, order, k, headers)
    {
      SettledLater(children, order, k, headers);
    }
    if first.Some? && DecisiveFirst(children, rest, decisive, headers) {
      var k :| 0 <= k < |rest| && SettledAt(children, rest, k, headers) == Some(decisive) &&
        forall j :: 0 <= j < k ==> SettledAt(children, rest, j, headers).Some?;
      assert SettledAt(children, order, k + 1, headers) == Some(decisive);
    }
    if DecisiveFirst(children, order, decisive, headers) && first != Some(decisive) {
      var k :| 0 <= k < |order| && SettledAt(children, order, k, headers) == Some(decisive) &&
        forall j :: 0 <= j < k ==> SettledAt(children, order, j, headers).Some?;
      forall j | 0 <= j < k - 1 ensures SettledAt(children, rest, j, headers).Some? {
        assert SettledAt(children, order, j + 1, headers).Some?;
      }
      assert SettledAt(children, rest, k - 1, headers) == Some(decisive);
    }
  }

  lemma {:induction false} OrderShows(children: seq<Expr>, order: seq<nat>, settled: seq<Option<Truth>>,
                                      decisive: Truth, headers: Headers)
    requires Indexes(order, children) && |settled| == |order|
    requires forall k :: 0 <= k < |order| ==> settled[k] == SettledAt(children, order, k, headers)
    ensures AllSettled(children, order, headers) <==> None !in settled
    ensures DecisiveFirst(children, order, decisive, headers) ==> Some(decisive) in settled
    ensures AllSettled(children, order, headers) && Some(decisive) in settled ==>
      DecisiveFirst(children, order, decisive, headers)
  {
    if Some(decisive) in settled {
      var k :| 0 <= k < |order| && settled[k] == Some(decisive);
      assert SettledAt(children, order, k, headers) == Some(decisive);
    }
    if !AllSettled(children, order, headers) {
      var k :| 0 <= k < |order| && SettledAt(children, order, k, headers).None?;
      assert settled[k] == None;
    }
  }

  /** How a combination's settled truth shows in its order. */
  lemma {:induction false} OpenOrDecisive(children: seq<Expr>, decisive: Truth, otherwise: Truth, headers: Headers)
    requires Indexes(HeaderFirst(children), children) && !decisive.Unknown? && otherwise != decisive
    ensures
      var order := HeaderFirst(children);
      var whole := SettledFold(seq(|children|, i requires 0 <= i < |children| => Settled(children[i], headers)),
                               decisive, otherwise);
      && (whole.Some? <==> AllSettled(children, order, headers) || whole == Some(decisive))
      && (DecisiveFirst(children, order, decisive, headers) ==> whole == Some(decisive))
      && (AllSettled(children, order, headers) && whole == Some(decisive) ==>
          DecisiveFirst(children, order, decisive, headers))
  {
    SettledInOrder(children, headers);
    var order := HeaderFirst(children);
    var settled := seq(|order|, k requires 0 <= k < |order| => SettledAt(children, order, k, headers));
    OrderShows(children, order, settled, decisive, headers);
  }

  /** Where every child keeps the promise, `all` keeps it exactly when a settled `no_match` is not
      behind a child the headers leave open. */
  lemma AllKeepsPromiseIff(children: seq<Expr>, fault: Fault, headers: Headers)
    ensures Indexes(HeaderFirst(children), children)
    ensures (forall i :: 0 <= i < |children| ==> HeadersWin(children[i], fault, headers)) ==>
      (HeadersWin(All(children), fault, headers) <==>
       (Settled(All(children), headers) == Some(NoMatch) ==>
        DecisiveFirst(children, HeaderFirst(children), NoMatch, headers)))
  {
    HeaderFirstMembers(children);
    if forall i :: 0 <= i < |children| ==> HeadersWin(children[i], fault, headers) {
      SettledInOrder(children, headers);
      CombineAnswersIff(children, HeaderFirst(children), NoMatch, Match, false, fault, headers);
      OpenOrDecisive(children, NoMatch, Match, headers);
    }
  }

  /** The same of `any` and a settled `match`. */
  lemma AnyKeepsPromiseIff(children: seq<Expr>, fault: Fault, headers: Headers)
    ensures Indexes(HeaderFirst(children), children)
    ensures (forall i :: 0 <= i < |children| ==> HeadersWin(children[i], fault, headers)) ==>
      (HeadersWin(Any(children), fault, headers) <==>
       (Settled(Any(children), headers) == Some(Match) ==>
        DecisiveFirst(children, HeaderFirst(children), Match, headers)))
  {
    HeaderFirstMembers(children);
    if forall i :: 0 <= i < |children| ==> HeadersWin(children[i], fault, headers) {
      SettledInOrder(children, headers);
      CombineAnswersIff(children, HeaderFirst(children), Match, NoMatch, false, fault, headers);
      OpenOrDecisive(children, Match, NoMatch, headers);
    }
  }

  /** No two children read the payload. */
  ghost predicate AtMostOneReader(children: seq<Expr>) {
    forall i, j :: 0 <= i < j < |children| ==> !ReadsPayload(children[i]) || !ReadsPayload(children[j])
  }

  /** Every combination has at most one child that reads the payload. */
  ghost predicate Linear(expr: Expr) {
    match expr
    case All(children) => AtMostOneReader(children) && forall i :: 0 <= i < |children| ==> Linear(children[i])
    case Any(children) => AtMostOneReader(children) && forall i :: 0 <= i < |children| ==> Linear(children[i])
    case Not(child) => Linear(child)
    case _ => true
  }

  lemma ReadersComeLast(children: seq<Expr>, j: nat, k: nat)
    requires j < k < |HeaderFirst(children)| && Indexes(HeaderFirst(children), children)
    requires ReadsPayload(children[HeaderFirst(children)[j]])
    ensures ReadsPayload(children[HeaderFirst(children)[k]])
  {
    PickMembers(children, |children|, false);
    PickMembers(children, |children|, true);
    var quiet, readers := Pick(children, |children|, false), Pick(children, |children|, true);
    assert HeaderFirst(children) == quiet + readers;
    assert forall t :: 0 <= t < |quiet| ==> quiet[t] in quiet;
    assert forall t :: 0 <= t < |readers| ==> readers[t] in readers;
  }

  lemma LoneReaderIsLast(children: seq<Expr>, decisive: Truth, fault: Fault, headers: Headers)
    requires AtMostOneReader(children) && Indexes(HeaderFirst(children), children)
    requires exists i :: 0 <= i < |children| && Settled(children[i], headers) == Some(decisive)
    ensures DecisiveFirst(children, HeaderFirst(children), decisive, headers)
  {
    HeaderFirstMembers(children);
    var order := HeaderFirst(children);
    var i: nat :| i < |children| && Settled(children[i], headers) == Some(decisive);
    assert i in order;
    var k :| 0 <= k < |order| && order[k] == i;
    forall j | 0 <= j < k ensures SettledAt(children, order, j, headers).Some? {
      if ReadsPayload(children[order[j]]) {
        ReadersComeLast(children, j, k);
      } else {
        HeaderFilterAnswers(children[order[j]], headers, Err(fault));
        FaultedRun(children[order[j]], fault, headers);
      }
    }
    assert SettledAt(children, order, k, headers) == Some(decisive);
  }

  /** With at most one payload reader in each combination, headers always win. */
  lemma {:induction false} LinearKeepsPromise(expr: Expr, fault: Fault, headers: Headers)
    requires Linear(expr)
    ensures HeadersWin(expr, fault, headers)
  {
    match expr
    case All(children) =>
      forall i | 0 <= i < |children| ensures HeadersWin(children[i], fault, headers) {
        LinearKeepsPromise(children[i], fault, headers);
      }
      AllKeepsPromiseIff(children, fault, headers);
      if Settled(expr, headers) == Some(NoMatch) {
        LoneReaderIsLast(children, NoMatch, fault, headers);
      }
    case Any(children) =>
      forall i | 0 <= i < |children| ensures HeadersWin(children[i], fault, headers) {
        LinearKeepsPromise(children[i], fault, headers);
      }
      AnyKeepsPromiseIff(children, fault, headers);
      if Settled(expr, headers) == Some(Match) {
        LoneReaderIsLast(children, Match, fault, headers);
      }
    case Not(child) => LinearKeepsPromise(child, fault, headers);
    case _ =>
  }

  /** Two readers break it: here a header already rejects the record, yet the fault is reported. */
  lemma NestedHeaderLoses(leaf: Expr, rejecting: Expr, fault: Fault, headers: Headers)
    requires leaf.Payload? && rejecting.Header? && rejecting.probe(headers).truth.NoMatch?
    ensures
      var expr := All([leaf, All([rejecting, leaf])]);
      Settled(expr, headers) == Some(NoMatch) && Evaluate(expr, Err(fault), headers).result == Err(fault)
  {
    var inner := All([rejecting, leaf]);
    SettledAll(inner.children, 0, headers);
    assert ReadsPayload(inner) by { assert inner.children[1] == leaf; }
    var children := [leaf, inner];
    SettledAll(children, 1, headers);
    BothRead(children);
    assert Evaluate(leaf, Err(fault), headers).result == Err(fault);
    assert Combine(children, [0, 1], NoMatch, Match, false, Err(fault), headers).result == Err(fault);
  }

  lemma SettledAll(children: seq<Expr>, i: nat, headers: Headers)
    requires i < |children| && Settled(children[i], headers) == Some(NoMatch)
    ensures Settled(All(children), headers) == Some(NoMatch)
  {
    var truths := seq(|children|, k requires 0 <= k < |children| => Settled(children[k], headers));
    assert truths[i] == Some(NoMatch);
  }

  lemma BothRead(children: seq<Expr>)
    requires |children| == 2 && ReadsPayload(children[0]) && ReadsPayload(children[1])
    ensures HeaderFirst(children) == [0, 1]
  {
    assert Pick(children, 0, false) == Pick(children, 0, true) == [];
    assert Pick(children, 1, false) == [] && Pick(children, 1, true) == [0];
  }
}
