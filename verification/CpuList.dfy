/** CPU lists: the parser of kernel range lists (bench/src/host.rs, `parse_cpu_list`) and the printer
    of CPU sets (bench/src/ui.rs, `format_cpu_set`). */
module CpuList {
  import opened Wrappers
  import opened Decimals
  import opened Ordering

  // ----- Splitting -----

  function Split(text: string, separator: char): (parts: seq<string>)
    ensures parts != []
  {
    if text == "" then [""]
    else
      var rest := Split(text[1..], separator);
      if text[0] == separator then [""] + rest else [[text[0]] + rest[0]] + rest[1..]
  }

  function Join(parts: seq<string>, separator: char): string {
    if parts == [] then "" else if |parts| == 1 then parts[0]
    else parts[0] + [separator] + Join(parts[1..], separator)
  }

  lemma {:induction false} SplitFirst(head: string, tail: string, separator: char)
    requires separator !in head
    ensures Split(head, separator) == [head]
    ensures Split(head + [separator] + tail, separator) == [head] + Split(tail, separator)
  {
    var all := head + [separator] + tail;
    if head == "" {
      assert all[1..] == tail;
    } else {
      SplitFirst(head[1..], tail, separator);
      assert all[1..] == head[1..] + [separator] + tail;
      assert [head[0]] + head[1..] == head;
    }
  }

  lemma {:induction false} SplitJoin(parts: seq<string>, separator: char)
    requires parts != [] && forall p :: p in parts ==> separator !in p
    ensures Split(Join(parts, separator), separator) == parts
  {
    if |parts| == 1 {
      SplitFirst(parts[0], "", separator);
    } else {
      SplitJoin(parts[1..], separator);
      SplitFirst(parts[0], Join(parts[1..], separator), separator);
    }
  }

  /** The position of the first separator, or the length. */
  function Find(text: string, c: char): (i: nat)
    ensures i <= |text| && c !in text[..i] && (i < |text| ==> text[i] == c)
  {
    if text == "" || text[0] == c then 0 else 1 + Find(text[1..], c)
  }

  lemma {:induction false} FindFirst(head: string, c: char, tail: string)
    requires c !in head
    ensures Find(head + [c] + tail, c) == |head| && Find(head, c) == |head|
  {
    if head != "" {
      FindFirst(head[1..], c, tail);
      assert (head + [c] + tail)[1..] == head[1..] + [c] + tail;
    }
  }

  // ----- Trimming -----

  predicate IsWhitespace(c: char) {
    || '\U{9}' <= c <= '\U{D}' || c == ' ' || c == '\U{85}' || c == '\U{A0}' || c == '\U{1680}'
    || '\U{2000}' <= c <= '\U{200A}' || c == '\U{2028}' || c == '\U{2029}' || c == '\U{202F}'
    || c == '\U{205F}' || c == '\U{3000}'
  }

  function TrimStart(text: string): string {
    if text != "" && IsWhitespace(text[0]) then TrimStart(text[1..]) else text
  }

  function TrimEnd(text: string): string {
    if text != "" && IsWhitespace(text[|text| - 1]) then TrimEnd(text[..|text| - 1]) else text
  }

  function Trim(text: string): string {
    TrimEnd(TrimStart(text))
  }

  // ----- What a list denotes -----

  datatype Range = Range(start: nat, end: nat)

  predicate Holds(range: Range, cpu: nat) {
    range.start <= cpu <= range.end
  }

  function Cpus(range: Range): (cpus: set<nat>)
    ensures forall cpu: nat :: cpu in cpus <==> Holds(range, cpu)
  {
    set cpu: nat | range.start <= cpu <= range.end && Holds(range, cpu)
  }

  /** One item: a number, or two around the first dash in ascending order. */
  function ItemRange(item: string): Option<Range> {
    var dash := Find(item, '-');
    if dash == |item| then
      match ParseU32(item)
      case None => None
      case Some(n) => Some(Range(n, n))
    else
      match (ParseU32(item[..dash]), ParseU32(item[dash + 1..]))
      case (Some(start), Some(end)) => if start > end then None else Some(Range(start, end))
      case _ => None
  }

  function Items(text: string): seq<string> {
    Split(Trim(text), ',')
  }

  ghost predicate WellFormed(items: seq<string>) {
    forall i :: 0 <= i < |items| ==> items[i] == "" || ItemRange(items[i]).Some?
  }

  ghost predicate Denotes(items: seq<string>, cpu: nat) {
    exists i :: 0 <= i < |items| && items[i] != "" && ItemRange(items[i]).Some? && Holds(ItemRange(items[i]).value, cpu)
  }

  ghost predicate Ascending(cpus: seq<nat>) {
    forall i, j :: 0 <= i < j < |cpus| ==> cpus[i] < cpus[j]
  }

  /** The ascending list of what the items denote. */
  ghost predicate ListOf(cpus: seq<nat>, items: seq<string>) {
    Ascending(cpus) && forall cpu :: cpu in cpus <==> Denotes(items, cpu)
  }

  /** The members of a set in ascending order, as a `BTreeSet` yields them. */
  method InOrder(cpus: set<nat>) returns (list: seq<nat>)
    ensures Ascending(list) && forall cpu :: cpu in list <==> cpu in cpus
  {
    list := [];
    var left := cpus;
    while left != {}
      invariant left <= cpus && Ascending(list)
      invariant forall cpu :: cpu in list <==> cpu in cpus - left
      invariant forall a, b :: a in list && b in left ==> a < b
      decreases left
    {
      var least := Least(left);
      assert forall k :: 0 <= k < |list| ==> list[k] in list;
      list := list + [least];
      left := left - {least};
    }
  }

  method Least(cpus: set<nat>) returns (least: nat)
    requires cpus != {}
    ensures least in cpus && forall cpu :: cpu in cpus ==> least <= cpu
  {
    least :| least in cpus;
    var left := cpus - {least};
    while left != {}
      invariant left <= cpus && least in cpus
      invariant forall cpu :: cpu in cpus - left ==> least <= cpu
      decreases left
    {
      var cpu :| cpu in left;
      assert cpus - (left - {cpu}) == (cpus - left) + {cpu};
      if cpu < least {
        least := cpu;
      }
      left := left - {cpu};
    }
    assert cpus - left == cpus;
  }

  /** Any text parses to the ascending list of the CPUs it denotes, or is refused for a malformed item. */
  method ParseCpuList(text: string) returns (result: Result<seq<nat>, ()>)
    ensures result.Ok? <==> WellFormed(Items(text))
    ensures result.Ok? ==> ListOf(result.value, Items(text))
  {
    var items := Items(text);
    var cpus: set<nat> := {};
    var i := 0;
    while i < |items|
      invariant 0 <= i <= |items| && WellFormed(items[..i])
      invariant forall cpu :: cpu in cpus <==> Denotes(items[..i], cpu)
    {
      var item := items[i];
      assert items[..i + 1] == items[..i] + [item];
      ghost var before := cpus;
      if item != "" {
        var range := ItemRange(item);
        if range.None? {
          return Err(());
        }
        cpus := cpus + Cpus(range.value);
      }
      forall cpu ensures cpu in cpus <==> Denotes(items[..i + 1], cpu) {
        DenotesOneMore(items[..i], item, cpu);
      }
      i := i + 1;
    }
    assert items[..i] == items;
    var list := InOrder(cpus);
    result := Ok(list);
  }

  lemma DenotesOneMore(items: seq<string>, item: string, cpu: nat)
    ensures Denotes(items + [item], cpu) <==>
      Denotes(items, cpu) || (item != "" && ItemRange(item).Some? && Holds(ItemRange(item).value, cpu))
  {
    var all := items + [item];
    if i :| 0 <= i < |items| && items[i] != "" && ItemRange(items[i]).Some? && Holds(ItemRange(items[i]).value, cpu) {
      assert all[i] == items[i];
    }
    assert all[|items|] == item;
  }

  // ----- Printing -----

  function SaturatingNext(cpu: nat): nat {
    if cpu < U32_MAX then cpu + 1 else U32_MAX
  }

  /** `format_cpu_range` */
  function RangeText(range: Range): string {
    if range.start == range.end then Decimal(range.start) else Decimal(range.start) + "-" + Decimal(range.end)
  }

  function RangeTexts(runs: seq<Range>): (texts: seq<string>)
    ensures |texts| == |runs| && forall i :: 0 <= i < |runs| ==> texts[i] == RangeText(runs[i])
  {
    seq(|runs|, i requires 0 <= i < |runs| => RangeText(runs[i]))
  }

  ghost function Expand(range: Range): seq<nat>
    requires range.start <= range.end
    decreases range.end - range.start
  {
    if range.start == range.end then [range.start] else [range.start] + Expand(Range(range.start + 1, range.end))
  }

  ghost predicate Ordered(runs: seq<Range>) {
    forall i :: 0 <= i < |runs| ==> runs[i].start <= runs[i].end
  }

  ghost function ExpandAll(runs: seq<Range>): seq<nat>
    requires Ordered(runs)
  {
    if runs == [] then [] else ExpandAll(runs[..|runs| - 1]) + Expand(runs[|runs| - 1])
  }

  /** Neighbouring runs are separated by a gap, so no two could be printed as one. */
  ghost predicate Maximal(runs: seq<Range>) {
    Ordered(runs) && forall i, j {:trigger Apart(runs[i], runs[j])} :: 0 <= i < j < |runs| ==> Apart(runs[i], runs[j])
  }

  predicate Apart(run: Range, later: Range) {
    run.end + 1 < later.start
  }

  lemma {:induction false} ExpandExtends(range: Range)
    requires range.start <= range.end
    ensures Expand(Range(range.start, range.end + 1)) == Expand(range) + [range.end + 1]
    decreases range.end - range.start
  {
    if range.start < range.end {
      ExpandExtends(Range(range.start + 1, range.end));
    }
  }

  ghost predicate FitU32(cpus: seq<nat>) {
    forall i :: 0 <= i < |cpus| ==> cpus[i] <= U32_MAX
  }

  lemma ExpandAllAppend(runs: seq<Range>, range: Range)
    requires Ordered(runs) && range.start <= range.end
    ensures Ordered(runs + [range]) && ExpandAll(runs + [range]) == ExpandAll(runs) + Expand(range)
  {
  }

  ghost predicate Closed(runs: seq<Range>, start: nat, end: nat) {
    && Maximal(runs) && start <= end
    && forall i :: 0 <= i < |runs| ==> runs[i].end + 1 < start
  }

  /** The closed runs and the open one spell out the CPUs read so far. */
  ghost predicate Spells(read: seq<nat>, runs: seq<Range>, start: nat, end: nat) {
    && Closed(runs, start, end)
    && read != [] && read[|read| - 1] == end
    && read == ExpandAll(runs) + Expand(Range(start, end))
  }

  lemma SpellsNext(read: seq<nat>, runs: seq<Range>, start: nat, end: nat)
    requires Spells(read, runs, start, end)
    ensures Spells(read + [end + 1], runs, start, end + 1)
  {
    ExpandExtends(Range(start, end));
  }

  lemma SpellsBreak(read: seq<nat>, runs: seq<Range>, start: nat, end: nat, cpu: nat)
    requires Spells(read, runs, start, end) && cpu > end + 1
    ensures Spells(read + [cpu], runs + [Range(start, end)], cpu, cpu)
  {
    ExpandAllAppend(runs, Range(start, end));
  }

  lemma SpellsEnd(read: seq<nat>, runs: seq<Range>, start: nat, end: nat)
    requires Spells(read, runs, start, end)
    ensures Maximal(runs + [Range(start, end)]) && ExpandAll(runs + [Range(start, end)]) == read
  {
    ExpandAllAppend(runs, Range(start, end));
  }

  /** One CPU more: the next one extends the open run, any other closes it. */
  method AddCpu(runs: seq<Range>, start: nat, end: nat, cpu: nat, ghost read: seq<nat>, ghost nice: bool)
    returns (runs': seq<Range>, start': nat, end': nat)
    requires nice ==> Spells(read, runs, start, end) && end < cpu <= U32_MAX
    ensures nice ==> Spells(read + [cpu], runs', start', end')
  {
    if cpu == SaturatingNext(end) {
      if nice {
        SpellsNext(read, runs, start, end);
      }
      return runs, start, cpu;
    }
    if nice {
      SpellsBreak(read, runs, start, end, cpu);
    }
    return runs + [Range(start, end)], cpu, cpu;
  }

  lemma SpellsFirst(cpu: nat)
    ensures Spells([cpu], [], cpu, cpu)
  {
    assert [cpu] == ExpandAll([]) + Expand(Range(cpu, cpu));
  }

  /** The loop of `format_cpu_set`: ascending CPUs fall into maximal runs that spell them out again. */
  method RunsOf(cpus: seq<nat>) returns (runs: seq<Range>)
    requires cpus != []
    ensures Ascending(cpus) && FitU32(cpus) ==> Maximal(runs) && ExpandAll(runs) == cpus
  {
    runs := [];
    var start: nat, end: nat := cpus[0], cpus[0];
    ghost var nice := Ascending(cpus) && FitU32(cpus);
    var i := 1;
    ghost var read := [cpus[0]];
    SpellsFirst(cpus[0]);
    while i < |cpus|
      invariant 1 <= i == |read| <= |cpus| && forall k :: 0 <= k < i ==> read[k] == cpus[k]
      invariant nice ==> Spells(read, runs, start, end)
    {
      assert nice ==> end == cpus[i - 1] < cpus[i] <= U32_MAX;
      runs, start, end := AddCpu(runs, start, end, cpus[i], read, nice);
      read := read + [cpus[i]];
      i := i + 1;
    }
    if nice {
      SpellsEnd(read, runs, start, end);
      assert read == cpus;
    }
    runs := runs + [Range(start, end)];
  }

  method FormatCpuSet(cpus: seq<nat>) returns (text: string, ghost runs: seq<Range>)
    ensures cpus == [] ==> text == "0 logical"
    ensures cpus != [] ==> text == Decimal(|cpus|) + " logical (" + Join(RangeTexts(runs), ',') + ")"
    ensures cpus != [] && Ascending(cpus) && FitU32(cpus) ==> Maximal(runs) && ExpandAll(runs) == cpus
  {
    runs := [];
    if cpus == [] {
      return "0 logical", runs;
    }
    var printed := RunsOf(cpus);
    runs := printed;
    text := Decimal(|cpus|) + " logical (" + Join(RangeTexts(printed), ',') + ")";
  }

  // ----- Printing, then parsing -----

  lemma DigitsAreClean(text: string)
    requires AllDigits(text)
    ensures ',' !in text && '-' !in text
    ensures forall i :: 0 <= i < |text| ==> !IsWhitespace(text[i])
  {
  }

  lemma SingleItem(text: string, n: nat)
    requires '-' !in text && ParseU32(text) == Some(n)
    ensures ItemRange(text) == Some(Range(n, n))
  {
  }

  lemma PairItem(first: string, second: string, start: nat, end: nat)
    requires '-' !in first && ParseU32(first) == Some(start) && ParseU32(second) == Some(end) && start <= end
    ensures ItemRange(first + "-" + second) == Some(Range(start, end))
  {
    var text := first + ['-'] + second;
    FindFirst(first, '-', second);
    assert text[..|first|] == first && text[|first| + 1..] == second;
    assert first + "-" + second == text;
  }

  ghost predicate Clean(text: string) {
    text != "" && ',' !in text && !IsWhitespace(text[0]) && !IsWhitespace(text[|text| - 1])
  }

  lemma PrintedRange(range: Range)
    requires range.start <= range.end <= U32_MAX
    ensures ItemRange(RangeText(range)) == Some(range) && Clean(RangeText(range))
  {
    var first, second := Decimal(range.start), Decimal(range.end);
    DecimalReads(range.start);
    DecimalReads(range.end);
    DigitsAreClean(first);
    DigitsAreClean(second);
    ParseDecimal(range.start);
    ParseDecimal(range.end);
    if range.start == range.end {
      SingleItem(first, range.start);
    } else {
      PairItem(first, second, range.start, range.end);
      CleanPair(first, second);
    }
  }

  lemma CleanPair(first: string, second: string)
    requires Clean(first) && Clean(second)
    ensures Clean(first + "-" + second)
  {
  }

  lemma {:induction false} JoinedEnds(parts: seq<string>, separator: char)
    requires parts != [] && forall p :: p in parts ==> Clean(p)
    ensures
      var text := Join(parts, separator);
      text != "" && !IsWhitespace(text[0]) && !IsWhitespace(text[|text| - 1])
  {
    assert Clean(parts[0]);
    if |parts| > 1 {
      JoinedEnds(parts[1..], separator);
    }
  }

  lemma PrintedItems(runs: seq<Range>)
    requires runs != [] && Ordered(runs) && forall i :: 0 <= i < |runs| ==> runs[i].end <= U32_MAX
    ensures Items(Join(RangeTexts(runs), ',')) == RangeTexts(runs)
  {
    var texts := RangeTexts(runs);
    forall p | p in texts ensures Clean(p) {
      var i :| 0 <= i < |texts| && texts[i] == p;
      PrintedRange(runs[i]);
    }
    JoinedEnds(texts, ',');
    SplitJoin(texts, ',');
  }

  lemma {:induction false} ExpandHolds(range: Range, cpu: nat)
    requires range.start <= range.end
    ensures cpu in Expand(range) <==> Holds(range, cpu)
    decreases range.end - range.start
  {
    if range.start < range.end {
      ExpandHolds(Range(range.start + 1, range.end), cpu);
    }
  }

  ghost predicate SomeHolds(runs: seq<Range>, cpu: nat) {
    exists i :: 0 <= i < |runs| && Holds(runs[i], cpu)
  }

  lemma LastHolds(runs: seq<Range>, cpu: nat)
    requires runs != []
    ensures SomeHolds(runs, cpu) <==> SomeHolds(runs[..|runs| - 1], cpu) || Holds(runs[|runs| - 1], cpu)
  {
    var init := runs[..|runs| - 1];
    if i :| 0 <= i < |init| && Holds(init[i], cpu) {
      assert Holds(runs[i], cpu);
    }
    if i :| 0 <= i < |runs| && Holds(runs[i], cpu) {
      assert i < |init| ==> Holds(init[i], cpu);
    }
  }

  lemma {:induction false} ExpandAllHolds(runs: seq<Range>, cpu: nat)
    requires Ordered(runs)
    ensures cpu in ExpandAll(runs) <==> SomeHolds(runs, cpu)
  {
    if runs != [] {
      var n := |runs| - 1;
      ExpandAllHolds(runs[..n], cpu);
      ExpandHolds(runs[n], cpu);
      LastHolds(runs, cpu);
    }
  }

  lemma RunsWithin(runs: seq<Range>, cpus: seq<nat>)
    requires Ordered(runs) && ExpandAll(runs) == cpus && FitU32(cpus)
    ensures forall i :: 0 <= i < |runs| ==> runs[i].end <= U32_MAX
  {
    forall i | 0 <= i < |runs| ensures runs[i].end <= U32_MAX {
      ExpandAllHolds(runs, runs[i].end);
      assert Holds(runs[i], runs[i].end);
    }
  }

  /** The text printed for an ascending CPU list parses back to that list. */
  lemma PrintedParsesBack(cpus: seq<nat>, runs: seq<Range>)
    requires cpus != [] && Ascending(cpus) && FitU32(cpus) && Maximal(runs) && ExpandAll(runs) == cpus
    ensures
      var items := Items(Join(RangeTexts(runs), ','));
      && WellFormed(items) && ListOf(cpus, items)
      && forall list :: ListOf(list, items) ==> list == cpus
  {
    assert runs != [];
    RunsWithin(runs, cpus);
    PrintedItems(runs);
    var items := RangeTexts(runs);
    forall i | 0 <= i < |items| ensures items[i] != "" && ItemRange(items[i]) == Some(runs[i]) {
      PrintedRange(runs[i]);
    }
    forall cpu ensures cpu in cpus <==> Denotes(items, cpu) {
      ExpandAllHolds(runs, cpu);
      if i :| 0 <= i < |runs| && Holds(runs[i], cpu) {
        assert ItemRange(items[i]).Some? && items[i] != "";
      }
    }
    forall list | ListOf(list, items) ensures list == cpus {
      AscendingUnique(list, cpus);
    }
  }

  lemma AscendingUnique(xs: seq<nat>, ys: seq<nat>)
    requires Ascending(xs) && Ascending(ys) && forall cpu :: cpu in xs <==> cpu in ys
    ensures xs == ys
  {
    SameMembersPermute(xs, ys);
    SortedPermutationUnique(xs, ys, (a, b) => a <= b);
  }
}
