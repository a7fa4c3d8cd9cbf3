/** The in-memory query engine of the reference specification (bdd/python/reference.py):
    filter, sort by one stable pass per key, cut a page. */
module Query {
  import opened Wrappers
  import opened Ordering

  const MAX_PAGE_SIZE: nat := 1000

  type Row = map<string, string>

  /** What `float` yields, without NaN. */
  datatype Number = NegativeInfinity | Finite(value: real) | PositiveInfinity

  predicate NumberLeq(a: Number, b: Number) {
    a.NegativeInfinity? || b.PositiveInfinity? || (a.Finite? && b.Finite? && a.value <= b.value)
  }

  /** How field text reads as a number, if it does. */
  type NumberOf = string -> Option<Number>

  // ----- Predicates -----

  datatype Op = Eq | Ne | Lt | Lte | Gt | Gte

  datatype Bound = NumberBound(number: Number) | TextBound(text: string)

  datatype Test =
    | Contains(text: string)
    | Prefix(text: string)
    | In(items: seq<string>)
    | Compare(op: Op, bound: Bound)

  datatype Predicate = Predicate(field: string, test: Test)

  predicate OccursIn(needle: string, text: string) {
    exists i :: 0 <= i <= |text| && needle <= text[i..]
  }

  /** The sign of `field` against the bound, or `None` when a numeric bound meets text that is no number. */
  function OrderOf(numberOf: NumberOf, field: string, bound: Bound): Option<int> {
    match bound
    case NumberBound(right) =>
      (match numberOf(field)
       case None => None
       case Some(left) => Some(Sign(NumberLeq(left, right), NumberLeq(right, left))))
    case TextBound(text) => Some(Sign(TextLeq(field, text), TextLeq(text, field)))
  }

  function Sign(below: bool, above: bool): int {
    (if above && !below then 1 else 0) - (if below && !above then 1 else 0)
  }

  predicate Holds(op: Op, order: int) {
    match op
    case Eq => order == 0
    case Ne => order != 0
    case Lt => order < 0
    case Lte => order <= 0
    case Gt => order > 0
    case Gte => order >= 0
  }

  predicate PassesTest(numberOf: NumberOf, field: string, test: Test) {
    match test
    case Contains(text) => OccursIn(text, field)
    case Prefix(text) => text <= field
    case In(items) => field in items
    case Compare(op, bound) =>
      var order := OrderOf(numberOf, field, bound);
      order.Some? && Holds(op, order.value)
  }

  predicate MatchesPredicate(numberOf: NumberOf, row: Row, predicate_: Option<Predicate>) {
    predicate_.None? || (predicate_.value.field in row
                         && PassesTest(numberOf, row[predicate_.value.field], predicate_.value.test))
  }

  /** Against a comparable bound exactly one of less, equal, greater holds and the other three
      operators are their combinations; against an incomparable one even `ne` fails. */
  lemma CompareTrichotomy(numberOf: NumberOf, field: string, bound: Bound)
    ensures
      var holds := (op: Op) => PassesTest(numberOf, field, Compare(op, bound));
      if bound.NumberBound? && numberOf(field).None? then forall op :: !holds(op)
      else
        && (holds(Lt) || holds(Eq) || holds(Gt))
        && !(holds(Lt) && holds(Eq)) && !(holds(Lt) && holds(Gt)) && !(holds(Eq) && holds(Gt))
        && (holds(Lte) <==> holds(Lt) || holds(Eq)) && (holds(Gte) <==> holds(Gt) || holds(Eq))
        && (holds(Ne) <==> !holds(Eq))
  {
  }

  // ----- Sort keys -----

  /** Numbers come before other text. */
  datatype SortKey = Numeric(number: Number) | Lexical(text: string)

  function KeyOf(numberOf: NumberOf, row: Row, field: string): SortKey {
    var text := if field in row then row[field] else "";
    match numberOf(text)
    case Some(number) => Numeric(number)
    case None => Lexical(text)
  }

  predicate KeyLeq(a: SortKey, b: SortKey) {
    match (a, b)
    case (Numeric(x), Numeric(y)) => NumberLeq(x, y)
    case (Numeric(_), Lexical(_)) => true
    case (Lexical(_), Numeric(_)) => false
    case (Lexical(x), Lexical(y)) => TextLeq(x, y)
  }

  lemma KeyLeqPreorder()
    ensures TotalPreorder(KeyLeq)
  {
    TextLeqPreorder();
    assert TotalPreorder(NumberLeq);
    forall x, y ensures KeyLeq(x, y) || KeyLeq(y, x) {
      if x.Lexical? && y.Lexical? { TextLeqTotal(x.text, y.text); }
    }
    forall x, y, z | KeyLeq(x, y) && KeyLeq(y, z) ensures KeyLeq(x, z) {
      if x.Lexical? && z.Lexical? { TextLeqTransitive(x.text, y.text, z.text); }
    }
  }

  datatype OrderBy = OrderBy(field: string, descending: bool)

  /** Rows by one key; descending turns the comparison around, so equal rows still keep arrival order. */
  function RowOrder(numberOf: NumberOf, key: OrderBy): (Row, Row) -> bool {
    if key.descending
    then (x: Row, y: Row) => KeyLeq(KeyOf(numberOf, y, key.field), KeyOf(numberOf, x, key.field))
    else (x: Row, y: Row) => KeyLeq(KeyOf(numberOf, x, key.field), KeyOf(numberOf, y, key.field))
  }

  function Orders(numberOf: NumberOf, order: seq<OrderBy>): (orders: seq<(Row, Row) -> bool>)
    ensures |orders| == |order|
    ensures forall i :: 0 <= i < |order| ==> orders[i] == RowOrder(numberOf, order[i])
  {
    seq(|order|, i requires 0 <= i < |order| => RowOrder(numberOf, order[i]))
  }

  lemma OrdersArePreorders(numberOf: NumberOf, order: seq<OrderBy>)
    ensures AllPreorders(Orders(numberOf, order))
  {
    KeyLeqPreorder();
    forall i | 0 <= i < |order| ensures TotalPreorder(Orders(numberOf, order)[i]) {
      var leq := RowOrder(numberOf, order[i]);
      forall x, y ensures leq(x, y) || leq(y, x) {
      }
      forall x, y, z | leq(x, y) && leq(y, z) ensures leq(x, z) {
      }
    }
  }

  // ----- Answers -----

  function Select(numberOf: NumberOf, rows: seq<Row>, filter: Option<Predicate>): seq<Row> {
    if rows == [] then []
    else (if MatchesPredicate(numberOf, rows[0], filter) then [rows[0]] else [])
         + Select(numberOf, rows[1..], filter)
  }

  /** What a query denotes: the matching rows in one stable lexicographic order over all its keys. */
  ghost function Answer(numberOf: NumberOf, rows: seq<Row>, filter: Option<Predicate>, order: seq<OrderBy>): seq<Row> {
    Sort(Select(numberOf, rows, filter), Lex(Orders(numberOf, order)))
  }

  /** The answer is a permutation of the matches, in lexicographic key order, and rows that agree on
      every key stay in insertion order. Together these determine it. */
  lemma AnswerIsStableOrder(numberOf: NumberOf, rows: seq<Row>, filter: Option<Predicate>, order: seq<OrderBy>)
    ensures
      var answer, matched := Answer(numberOf, rows, filter, order), Select(numberOf, rows, filter);
      var leq := Lex(Orders(numberOf, order));
      && multiset(answer) == multiset(matched)
      && SortedBy(answer, leq)
      && SameClasses(answer, matched, leq)
      && forall other :: SortedBy(other, leq) && SameClasses(other, matched, leq) ==> other == answer
  {
    var answer, matched := Answer(numberOf, rows, filter, order), Select(numberOf, rows, filter);
    var leq := Lex(Orders(numberOf, order));
    OrdersArePreorders(numberOf, order);
    LexPreorder(Orders(numberOf, order));
    SortContents(matched, leq);
    SortSorts(matched, leq);
    forall x ensures Class(answer, leq, x) == Class(matched, leq, x) {
      ClassIsLexClass(leq, x);
      SortKeepsClass(matched, leq, leq, x);
    }
    forall other | SortedBy(other, leq) && SameClasses(other, matched, leq) ensures other == answer {
      StableSortUnique(other, answer, leq);
    }
  }

  datatype Page = Page(rows: seq<Row>, total: nat, limit: nat, offset: nat, hasMore: bool)

  function Min(a: nat, b: nat): nat {
    if a <= b then a else b
  }

  class QueryEngine {
    var indexes: map<string, seq<Row>>

    constructor ()
      ensures indexes == map[]
    {
      indexes := map[];
    }

    ghost function Rows(index: string): seq<Row>
      reads this
    {
      if index in indexes then indexes[index] else []
    }

    method Insert(index: string, row: Row)
      modifies this
      ensures indexes.Keys == old(indexes.Keys) + {index}
      ensures Rows(index) == old(Rows(index)) + [row]
      ensures forall other :: other != index ==> Rows(other) == old(Rows(other))
    {
      var rows := if index in indexes then indexes[index] else [];
      indexes := indexes[index := rows + [row]];
    }

    method Execute(numberOf: NumberOf, index: string, filter: Option<Predicate>, order: seq<OrderBy>, limit: nat,
                   offset: nat) returns (page: Page)
      ensures index !in indexes ==> page == Page([], 0, limit, offset, false)
      ensures index in indexes ==>
        var answer := Answer(numberOf, indexes[index], filter, order);
        && page.total == |answer|
        && page.limit == (if limit == 0 then MAX_PAGE_SIZE else limit)
        && page.offset == offset
        && page.rows == answer[Min(offset, |answer|)..Min(offset + page.limit, |answer|)]
        && (page.hasMore <==> offset + page.limit < |answer|)
    {
      if index !in indexes {
        return Page([], 0, limit, offset, false);
      }
      ghost var orders := Orders(numberOf, order);
      var matched := Select(numberOf, indexes[index], filter);
      ghost var selected := matched;
      var i := |order|;
      while i > 0
        invariant 0 <= i <= |order|
        invariant matched == Passes(selected, orders[i..])
      {
        i := i - 1;
        assert orders[i..][1..] == orders[i + 1..];
        matched := Sort(matched, RowOrder(numberOf, order[i]));
      }
      assert orders[0..] == orders;
      OrdersArePreorders(numberOf, order);
      PassesAreOneSort(selected, orders);
      var total := |matched|;
      var pageLimit := if limit == 0 then MAX_PAGE_SIZE else limit;
      var rows := matched[Min(offset, total)..Min(offset + pageLimit, total)];
      page := Page(rows, total, pageLimit, offset, offset + |rows| < total);
    }
  }

  /** Following `offset += len(rows)` while `has_more` reads the whole answer once, in order, and stops. */
  method ReadAll(engine: QueryEngine, numberOf: NumberOf, index: string, filter: Option<Predicate>, order: seq<OrderBy>,
                 limit: nat) returns (rows: seq<Row>)
    ensures rows == Answer(numberOf, engine.Rows(index), filter, order)
  {
    rows := [];
    ghost var answer := Answer(numberOf, engine.Rows(index), filter, order);
    var more := true;
    while more
      invariant |rows| <= |answer| && rows == answer[..|rows|]
      invariant !more ==> |rows| == |answer|
      decreases more, |answer| - |rows|
    {
      var page := engine.Execute(numberOf, index, filter, order, limit, |rows|);
      rows := rows + page.rows;
      more := page.hasMore;
    }
  }
}
