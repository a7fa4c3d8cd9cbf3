/** Acknowledgment progress of a filtered reader (sdk/src/filters/progress.rs), over the pages that
    pass the reader's own validation (sdk/src/filters/reader.rs). */
module Progress {
  import opened Wrappers

  datatype Start = Next | First | Last | Offset(offset: nat) | Timestamp(micros: nat) | Continue(next: nat)

  datatype Stop = Filled | Budget | EndOfVisible | Faulted | OversizedRecord

  /** A page as the server reports it. `owner` stands for the group, the history and the owner it was read under. */
  datatype Page = Page(nextScan: Option<nat>, safeAck: Option<nat>, frontier: nat, examined: nat, matched: nat,
                       stop: Stop, fault: Option<nat>, owner: nat, offsets: seq<nat>)

  datatype AckTarget = AckTarget(offset: nat, owner: nat)

  datatype Pending = Pending(sequence: nat, target: Option<AckTarget>, outstanding: set<nat>)

  /** The offset a selector starts from, when the selector alone names it. */
  function StartOffset(start: Start): Option<nat> {
    match start
    case Continue(next) => Some(next)
    case Offset(offset) => Some(offset)
    case First => Some(0)
    case _ => None
  }

  // ----- Page validation -----

  ghost predicate Ascending(offsets: seq<nat>) {
    forall i, j :: 0 <= i < j < |offsets| ==> offsets[i] < offsets[j]
  }

  /** Records ascend, lie at or after the start, and at or before the safe offset and the head. */
  ghost predicate RecordsFit(start: Start, page: Page) {
    && Ascending(page.offsets)
    && forall o :: o in page.offsets ==>
         && (StartOffset(start).Some? ==> StartOffset(start).value <= o)
         && page.safeAck.Some? && o <= page.safeAck.value && o <= page.frontier
  }

  /** The page's boundary matches its request: it offers exactly the last offset it examined, never
      moves backwards, and a fault lies beyond what it offers. */
  ghost predicate WellScanned(start: Start, page: Page) {
    && page.matched == |page.offsets| <= page.examined
    && (if page.examined == 0 then page.safeAck.None? && page.nextScan == StartOffset(start)
        else page.safeAck.Some? && page.nextScan == Some(page.safeAck.value + 1))
    && (page.nextScan.Some? ==> page.nextScan.value <= page.frontier + 1)
    && (page.nextScan.Some? && StartOffset(start).Some? ==> StartOffset(start).value <= page.nextScan.value)
    && RecordsFit(start, page)
    && (page.stop in {Faulted, OversizedRecord} <==> page.fault.Some?)
    && (page.fault.Some? && page.nextScan.Some? ==> page.nextScan.value <= page.fault.value)
  }

  method ValidatePage(start: Start, page: Page) returns (valid: bool)
    ensures valid <==> WellScanned(start, page)
  {
    if page.matched != |page.offsets| || page.matched > page.examined {
      return false;
    }
    var from := StartOffset(start);
    var scannedTo: Option<nat> :=
      if page.nextScan.Some? && page.nextScan.value >= 1 then Some(page.nextScan.value - 1) else None;
    if page.examined == 0 {
      if page.safeAck.Some? || page.nextScan != from {
        return false;
      }
    } else if scannedTo.None? || page.safeAck != scannedTo {
      return false;
    }
    if scannedTo.Some? && scannedTo.value > page.frontier {
      return false;
    }
    if from.Some? && page.nextScan.Some? && page.nextScan.value < from.value {
      return false;
    }
    var fit := CheckRecords(start, page, scannedTo);
    if !fit {
      assert page.offsets != [] ==> page.safeAck == scannedTo;
      return false;
    }
    if (page.stop in {Faulted, OversizedRecord}) != page.fault.Some? {
      return false;
    }
    if page.fault.Some? && scannedTo.Some? && scannedTo.value >= page.fault.value {
      return false;
    }
    return true;
  }

  method CheckRecords(start: Start, page: Page, scannedTo: Option<nat>) returns (fit: bool)
    requires page.offsets != [] ==> page.safeAck == scannedTo
    ensures fit <==> RecordsFit(start, page)
  {
    var from := StartOffset(start);
    for i := 0 to |page.offsets|
      invariant forall k, l :: 0 <= k < l < i ==> page.offsets[k] < page.offsets[l]
      invariant forall k :: 0 <= k < i ==>
        && (from.Some? ==> from.value <= page.offsets[k])
        && scannedTo.Some? && page.offsets[k] <= scannedTo.value && page.offsets[k] <= page.frontier
    {
      var offset := page.offsets[i];
      if i > 0 && offset <= page.offsets[i - 1] {
        return false;
      }
      if (from.Some? && offset < from.value) || scannedTo.None? || offset > scannedTo.value || offset > page.frontier {
        assert page.offsets[i] in page.offsets;
        return false;
      }
    }
    return true;
  }

  // ----- Queued pages -----

  /** The page has no target only while it holds no records. */
  ghost predicate PageFits(page: Pending) {
    && (page.outstanding != {} ==> page.target.Some?)
    && (page.target.Some? ==> forall o :: o in page.outstanding ==> o <= page.target.value.offset)
  }

  /** An earlier page's target lies below everything a later page still owes. */
  ghost predicate Before(page: Pending, later: Pending) {
    && page.sequence < later.sequence
    && (page.target.Some? ==>
          && (forall o :: o in later.outstanding ==> page.target.value.offset < o)
          && (later.target.Some? ==> page.target.value.offset <= later.target.value.offset))
  }

  ghost predicate Queue(pages: seq<Pending>) {
    && (forall i :: 0 <= i < |pages| ==> PageFits(pages[i]) && (|pages| > 1 ==> pages[i].target.Some?))
    && (forall i, j :: 0 <= i < j < |pages| ==> Before(pages[i], pages[j]))
  }

  ghost predicate Open(pages: seq<Pending>, offset: nat) {
    exists i :: 0 <= i < |pages| && offset in pages[i].outstanding
  }

  /** The open records are exactly the returned ones not handled. */
  ghost predicate Tracks(pages: seq<Pending>, returned: set<nat>, handled: set<nat>) {
    && handled <= returned
    && forall o: nat :: Open(pages, o) <==> o in returned && o !in handled
  }

  /** Acknowledging the offset covers no unfinished record. */
  ghost predicate Safe(offset: nat, returned: set<nat>, handled: set<nat>) {
    forall o :: o in returned && o <= offset ==> o in handled
  }

  /** Everything returned or offered so far lies before where reading continues. */
  ghost predicate Behind(start: Start, pages: seq<Pending>, returned: set<nat>, issued: set<AckTarget>) {
    match StartOffset(start)
    case None => returned == {} && issued == {} && forall i :: 0 <= i < |pages| ==> pages[i].target.None?
    case Some(bound) =>
      && (forall o :: o in returned ==> o < bound)
      && (forall target :: target in issued ==> target.offset < bound)
      && (forall i :: 0 <= i < |pages| && pages[i].target.Some? ==> pages[i].target.value.offset < bound)
  }

  /** Every sequence that delivered records is queued, or settled at or after the first. */
  ghost predicate Remembers(pages: seq<Pending>, first: Option<nat>, settled: nat, delivered: set<nat>) {
    && (forall i :: 0 <= i < |pages| ==> first.Some? && first.value <= pages[i].sequence && settled < pages[i].sequence)
    && forall s :: s in delivered ==>
         first.Some? && first.value <= s && (s <= settled || exists i :: 0 <= i < |pages| && pages[i].sequence == s)
  }

  /** The newest offer is held by the last queued page, waits to be stored, or is stored. */
  ghost predicate KeepsNewest(pages: seq<Pending>, unstored: Option<AckTarget>, stored: Option<nat>,
                              newest: Option<AckTarget>) {
    newest.Some? ==>
      if pages != [] && pages[|pages| - 1].target.Some? then pages[|pages| - 1].target == newest
      else unstored == newest || (stored.Some? && newest.value.offset <= stored.value)
  }

  ghost predicate Offered(unstored: Option<AckTarget>, pages: seq<Pending>, issued: set<AckTarget>) {
    unstored.Some? ==>
      && unstored.value in issued
      && (pages != [] && pages[0].target.Some? ==> unstored.value.offset <= pages[0].target.value.offset)
  }

  ghost predicate Consistent(start: Start, pages: seq<Pending>, unstored: Option<AckTarget>, stored: Option<nat>,
                             newest: Option<AckTarget>, returned: set<nat>, handled: set<nat>, issued: set<AckTarget>) {
    && Queue(pages)
    && Tracks(pages, returned, handled)
    && (forall target :: target in issued ==> Safe(target.offset, returned, handled))
    && Behind(start, pages, returned, issued)
    && Offered(unstored, pages, issued)
    && (stored.Some? ==> exists target :: target in issued && target.offset == stored.value)
    && KeepsNewest(pages, unstored, stored, newest)
  }

  ghost predicate LastOf(pages: seq<Pending>, before: seq<Pending>) {
    |pages| <= |before| && forall i :: 0 <= i < |pages| ==> pages[i] == before[|before| - |pages| + i]
  }

  /** Only completed pages left the front; the offer covers their targets and never moves back. */
  ghost predicate Retired(before: seq<Pending>, pages: seq<Pending>, had: Option<AckTarget>, has: Option<AckTarget>) {
    && LastOf(pages, before)
    && (forall i :: 0 <= i < |before| - |pages| ==>
          && before[i].outstanding == {}
          && (before[i].target.Some? ==> has.Some? && before[i].target.value.offset <= has.value.offset))
    && (had.Some? ==> has.Some? && had.value.offset <= has.value.offset)
    && (|pages| == |before| ==> has == had)
  }

  lemma RetiredNext(before: seq<Pending>, pages: seq<Pending>, had: Option<AckTarget>, has: Option<AckTarget>)
    requires Retired(before, pages, had, has) && pages != [] && pages[0].outstanding == {}
    requires has.Some? && pages[0].target.Some? ==> has.value.offset <= pages[0].target.value.offset
    ensures Retired(before, pages[1..], had, if pages[0].target.Some? then pages[0].target else has)
  {
    assert pages[0] == before[|before| - |pages|];
  }

  lemma PopKeeps(pages: seq<Pending>, returned: set<nat>, handled: set<nat>)
    requires pages != [] && pages[0].outstanding == {} && Queue(pages) && Tracks(pages, returned, handled)
    ensures Queue(pages[1..]) && Tracks(pages[1..], returned, handled)
    ensures pages[0].target.Some? ==> Safe(pages[0].target.value.offset, returned, handled)
    ensures pages[0].target.Some? && |pages| > 1 && pages[1].target.Some? ==>
      pages[0].target.value.offset <= pages[1].target.value.offset
  {
    forall o: nat | Open(pages, o) ensures Open(pages[1..], o) {
      var i :| 0 <= i < |pages| && o in pages[i].outstanding;
      assert pages[1..][i - 1] == pages[i];
    }
    assert |pages| > 1 ==> Before(pages[0], pages[1]);
  }

  /** Same pages, each owing no more than before. */
  ghost predicate Shrunk(pages: seq<Pending>, before: seq<Pending>) {
    && |pages| == |before|
    && forall i :: 0 <= i < |pages| ==>
         && pages[i].sequence == before[i].sequence && pages[i].target == before[i].target
         && pages[i].outstanding <= before[i].outstanding
  }

  /** Returned records no page owes. */
  ghost function Finished(pages: seq<Pending>, returned: set<nat>): set<nat> {
    set o | o in returned && !Open(pages, o)
  }

  lemma ShrinkKeeps(pages: seq<Pending>, before: seq<Pending>, returned: set<nat>, handled: set<nat>)
    requires Shrunk(pages, before) && Queue(before) && Tracks(before, returned, handled)
    ensures Queue(pages) && Tracks(pages, returned, Finished(pages, returned)) && handled <= Finished(pages, returned)
  {
    forall o: nat | Open(pages, o) ensures Open(before, o) {
      var i :| 0 <= i < |pages| && o in pages[i].outstanding;
      assert o in before[i].outstanding;
    }
    forall i, j | 0 <= i < j < |pages| ensures Before(pages[i], pages[j]) {
      assert Before(before[i], before[j]);
    }
  }

  /** One partition's acknowledgment state. The ghost fields are the history of the run. */
  class PartitionProgress {
    const original: Start
    var start: Start
    var pages: seq<Pending>
    var unstored: Option<AckTarget>
    var storedOffset: Option<nat>
    var firstSequence: Option<nat>
    var settledSequence: nat

    ghost var returned: set<nat>
    ghost var handled: set<nat>
    ghost var issued: set<AckTarget>
    ghost var delivered: set<nat>
    ghost var newest: Option<AckTarget>
    ghost var lastSequence: nat

    ghost predicate Core()
      reads this
    {
      && Consistent(start, pages, unstored, storedOffset, newest, returned, handled, issued)
      && Remembers(pages, firstSequence, settledSequence, delivered)
      && settledSequence <= lastSequence && (firstSequence.Some? ==> firstSequence.value <= lastSequence)
      && (forall i :: 0 <= i < |pages| ==> pages[i].sequence <= lastSequence)
      && (StartOffset(original).Some? ==> StartOffset(start).Some?)
      && (StartOffset(start).None? ==> start == original)
    }

    ghost predicate Valid()
      reads this
    {
      && Core()
      && (pages != [] ==> pages[0].outstanding != {})
      && (forall i :: 0 <= i < |pages| ==> pages[i].target.Some?)
    }

    constructor (from: Start)
      ensures Valid() && original == start == from
      ensures pages == [] && unstored == None && storedOffset == None
      ensures returned == handled == {} && issued == {} && delivered == {} && newest == None && lastSequence == 0
    {
      original, start, pages, unstored, storedOffset := from, from, [], None, None;
      firstSequence, settledSequence := None, 0;
      returned, handled, issued, delivered, newest, lastSequence := {}, {}, {}, {}, None, 0;
    }

    /** Retires the completed prefix. */
    method Settle()
      requires Core()
      modifies this`pages, this`unstored, this`settledSequence, this`issued
      ensures Valid() && old(issued) <= issued
      ensures Retired(old(pages), pages, old(unstored), unstored)
    {
      while pages != [] && pages[0].outstanding == {}
        invariant Core() && old(issued) <= issued
        invariant Retired(old(pages), pages, old(unstored), unstored)
        decreases |pages|
      {
        PopKeeps(pages, returned, handled);
        RetiredNext(old(pages), pages, old(unstored), unstored);
        RetireFirst();
      }
    }

    method RetireFirst()
      requires Core() && pages != [] && pages[0].outstanding == {}
      requires Queue(pages[1..]) && Tracks(pages[1..], returned, handled)
      requires pages[0].target.Some? ==> Safe(pages[0].target.value.offset, returned, handled)
      modifies this`pages, this`unstored, this`settledSequence, this`issued
      ensures Core() && pages == old(pages)[1..]
      ensures unstored == if old(pages)[0].target.Some? then old(pages)[0].target else old(unstored)
      ensures settledSequence == old(pages)[0].sequence
      ensures old(issued) <= issued
    {
      var page := pages[0];
      assert |pages| > 1 ==> Before(pages[0], pages[1]);
      RetireRemembers(pages, firstSequence, settledSequence, delivered);
      pages, settledSequence := pages[1..], page.sequence;
      if page.target.Some? {
        unstored, issued := page.target, issued + {page.target.value};
      }
    }

    /** Replaces what the pages owe; what no page owes any more is handled. */
    method Shrink(next: seq<Pending>)
      requires Valid() && Shrunk(next, pages)
      modifies this`pages, this`handled
      ensures Core() && pages == next && old(handled) <= handled == Finished(next, returned)
    {
      ShrinkKeeps(next, pages, returned, handled);
      ShrinkRemembers(next, pages, firstSequence, settledSequence, delivered);
      pages := next;
      handled := Finished(next, returned);
    }

    method Find(sequence: nat) returns (at: Option<nat>)
      requires Valid()
      ensures at.Some? ==> at.value < |pages| && pages[at.value].sequence == sequence
      ensures at.None? ==> forall i :: 0 <= i < |pages| ==> pages[i].sequence != sequence
    {
      for i := 0 to |pages|
        invariant forall k :: 0 <= k < i ==> pages[k].sequence != sequence
      {
        if pages[i].sequence == sequence {
          return Some(i);
        }
      }
      return None;
    }

    /** Leaves one page owing only the remaining records. */
    method Reduce(at: nat, remaining: set<nat>)
      requires Valid() && at < |pages| && remaining <= pages[at].outstanding
      modifies this`pages, this`handled
      ensures Core()
      ensures forall o: nat :: o in handled <==>
        o in old(handled) || (Owes(old(pages), old(pages[at].sequence), o) && o !in remaining)
    {
      var next := pages[at := pages[at].(outstanding := remaining)];
      RemovedFromOne(next, pages, at, returned, handled);
      Shrink(next);
    }

    /** Marks one record handled, and nothing else. */
    method CompleteRecord(sequence: nat, offset: nat)
      requires Valid()
      modifies this`pages, this`unstored, this`settledSequence, this`issued, this`handled
      ensures Valid()
      ensures forall o: nat :: o in handled <==> o in old(handled) || (o == offset && Owes(old(pages), sequence, o))
      ensures old(unstored).Some? ==> unstored.Some? && old(unstored).value.offset <= unstored.value.offset
    {
      var at := Find(sequence);
      if at.Some? {
        OwedByOne(pages, at.value);
        Reduce(at.value, pages[at.value].outstanding - {offset});
      }
      Settle();
    }

    /** Marks the records of one page handled, and nothing else. */
    method CompletePage(sequence: nat)
      requires Valid()
      modifies this`pages, this`unstored, this`settledSequence, this`issued, this`handled
      ensures Valid()
      ensures forall o: nat :: o in handled <==> o in old(handled) || Owes(old(pages), sequence, o)
      ensures old(unstored).Some? ==> unstored.Some? && old(unstored).value.offset <= unstored.value.offset
    {
      var at := Find(sequence);
      if at.Some? {
        Reduce(at.value, {});
      }
      Settle();
    }

    /** Tracks a validated page and continues after it. */
    method Record(sequence: nat, page: Page)
      requires Valid() && WellScanned(start, page) && lastSequence < sequence
      modifies this
      ensures Valid()
      ensures returned == old(returned) + Offsets(page) && old(returned) !! Offsets(page)
      ensures handled == old(handled) && storedOffset == old(storedOffset)
      ensures delivered == old(delivered) + (if page.offsets == [] then {} else {sequence})
      ensures newest == if page.safeAck.Some? then PageTarget(page) else old(newest)
      ensures start == NextStart(page, original) && lastSequence == sequence
      ensures old(unstored).Some? ==> unstored.Some? && old(unstored).value.offset <= unstored.value.offset
      ensures old(issued) <= issued
    {
      Track(sequence, page);
      Settle();
    }

    method Track(sequence: nat, page: Page)
      requires Core() && WellScanned(start, page) && lastSequence < sequence
      requires forall i :: 0 <= i < |pages| ==> pages[i].target.Some?
      modifies this`pages, this`start, this`firstSequence, this`returned, this`delivered, this`newest, this`lastSequence
      ensures Core()
      ensures returned == old(returned) + Offsets(page) && old(returned) !! Offsets(page)
      ensures delivered == old(delivered) + (if page.offsets == [] then {} else {sequence})
      ensures newest == if page.safeAck.Some? then PageTarget(page) else old(newest)
      ensures start == NextStart(page, original) && lastSequence == sequence
    {
      EnqueueKeeps(start, original, pages, sequence, page, unstored, storedOffset, newest, returned, handled, issued);
      EnqueueRemembers(pages, sequence, page, firstSequence, settledSequence, delivered);
      Advance(Enqueue(pages, sequence, PageTarget(page), Offsets(page)), sequence, page);
    }

    method Advance(next: seq<Pending>, sequence: nat, page: Page)
      requires Consistent(NextStart(page, original), next, unstored, storedOffset,
                          if page.safeAck.Some? then PageTarget(page) else newest,
                          returned + Offsets(page), handled, issued)
      requires Remembers(next, if firstSequence.Some? then firstSequence else Some(sequence), settledSequence,
                         delivered + (if page.offsets == [] then {} else {sequence}))
      requires forall i :: 0 <= i < |next| ==> next[i].sequence <= sequence
      requires settledSequence <= sequence && (firstSequence.Some? ==> firstSequence.value <= sequence)
      requires StartOffset(original).Some? ==> StartOffset(NextStart(page, original)).Some?
      requires StartOffset(NextStart(page, original)).None? ==> NextStart(page, original) == original
      modifies this`pages, this`start, this`firstSequence, this`returned, this`delivered, this`newest, this`lastSequence
      ensures Core()
      ensures returned == old(returned) + Offsets(page)
      ensures delivered == old(delivered) + (if page.offsets == [] then {} else {sequence})
      ensures newest == if page.safeAck.Some? then PageTarget(page) else old(newest)
      ensures start == NextStart(page, original) && lastSequence == sequence
    {
      pages, start := next, NextStart(page, original);
      firstSequence := if firstSequence.Some? then firstSequence else Some(sequence);
      Log(sequence, page);
    }

    /** The history of the run, one page longer. */
    ghost method Log(sequence: nat, page: Page)
      modifies this`returned, this`delivered, this`newest, this`lastSequence
      ensures returned == old(returned) + Offsets(page) && lastSequence == sequence
      ensures delivered == old(delivered) + (if page.offsets == [] then {} else {sequence})
      ensures newest == if page.safeAck.Some? then PageTarget(page) else old(newest)
    {
      returned, delivered := returned + Offsets(page), delivered + (if page.offsets == [] then {} else {sequence});
      newest, lastSequence := if page.safeAck.Some? then PageTarget(page) else newest, sequence;
    }

    /** The pages through a position of one page, cleared. */
    method ClearThrough(sequence: nat, offset: nat) returns (next: seq<Pending>)
      ensures |next| == |pages| && forall i :: 0 <= i < |pages| ==> next[i] == Cleared(pages[i], sequence, offset)
    {
      next := [];
      for i := 0 to |pages|
        invariant |next| == i && forall k :: 0 <= k < i ==> next[k] == Cleared(pages[k], sequence, offset)
      {
        next := next + [Cleared(pages[i], sequence, offset)];
      }
    }

    method FinishThrough(at: nat, offset: nat) returns (next: seq<Pending>)
      requires Valid() && at < |pages| && offset <= pages[at].target.value.offset
      modifies this`pages, this`handled
      ensures Core() && pages == next && Shrunk(next, old(pages))
      ensures forall i :: 0 <= i < at ==> next[i].outstanding == {}
      ensures forall o: nat :: o in handled <==>
        o in old(handled) || OwesThrough(old(pages), old(pages[at].sequence), offset, o)
      ensures Safe(offset, returned, handled)
    {
      next := ClearThrough(pages[at].sequence, offset);
      ClearedThrough(next, pages, at, offset, returned, handled);
      Shrink(next);
    }

    /** Offers an offset unless a newer one already waits. */
    method Offer(target: AckTarget)
      requires Valid() && Safe(target.offset, returned, handled)
      requires StartOffset(start).Some? && target.offset < StartOffset(start).value
      requires if pages == [] then unstored.Some? && target.offset <= unstored.value.offset
               else target.offset <= pages[0].target.value.offset
      modifies this`unstored, this`issued
      ensures Valid() && unstored.Some? && target.offset <= unstored.value.offset
      ensures old(unstored).Some? ==> old(unstored).value.offset <= unstored.value.offset
      ensures old(issued) <= issued
    {
      if unstored.None? || unstored.value.offset < target.offset {
        unstored := Some(target);
        issued := issued + {target};
      }
    }

    /** Marks every record through an offset of a page handled. Refuses an offset past the page. */
    method CompleteThrough(sequence: nat, offset: nat) returns (within: bool)
      requires Valid()
      modifies this`pages, this`unstored, this`settledSequence, this`issued, this`handled
      ensures Valid()
      ensures within <==> forall i :: 0 <= i < |old(pages)| && old(pages)[i].sequence == sequence ==>
        offset <= old(pages)[i].target.value.offset
      ensures
        var queued := exists i :: 0 <= i < |old(pages)| && old(pages)[i].sequence == sequence;
        if queued && within then
          && (forall o: nat :: o in handled <==> o in old(handled) || OwesThrough(old(pages), sequence, offset, o))
          && unstored.Some? && offset <= unstored.value.offset
        else pages == old(pages) && handled == old(handled) && unstored == old(unstored) && issued == old(issued)
      ensures old(unstored).Some? ==> unstored.Some? && old(unstored).value.offset <= unstored.value.offset
    {
      var at := Find(sequence);
      if at.None? {
        return true;
      }
      OneSequence(pages, at.value);
      if offset > pages[at.value].target.value.offset {
        return false;
      }
      CompleteUpTo(at.value, offset);
      return true;
    }

    method CompleteUpTo(at: nat, offset: nat)
      requires Valid() && at < |pages| && offset <= pages[at].target.value.offset
      modifies this`pages, this`unstored, this`settledSequence, this`issued, this`handled
      ensures Valid()
      ensures forall o: nat :: o in handled <==>
        o in old(handled) || OwesThrough(old(pages), old(pages[at].sequence), offset, o)
      ensures unstored.Some? && offset <= unstored.value.offset
      ensures old(unstored).Some? ==> old(unstored).value.offset <= unstored.value.offset
    {
      var target := pages[at].target.value;
      ghost var next := FinishThrough(at, offset);
      Settle();
      FrontReaches(pages, next, at, offset);
      Offer(target.(offset := offset));
    }

    /** A target handed out earlier is stored. */
    method MarkStored(target: AckTarget)
      requires Valid() && target in issued
      modifies this`unstored, this`storedOffset
      ensures Valid()
      ensures storedOffset.Some? && Safe(storedOffset.value, returned, handled)
      ensures storedOffset == Some(Later(old(storedOffset), target.offset))
      ensures unstored == if old(unstored) == Some(target) then None else old(unstored)
    {
      storedOffset := Some(Later(storedOffset, target.offset));
      if unstored == Some(target) {
        unstored := None;
      }
    }

    method Knows(sequence: nat) returns (known: bool)
      requires Valid()
      ensures sequence in delivered ==> known
      ensures known ==> firstSequence.Some? && firstSequence.value <= sequence <= lastSequence
    {
      var at := Find(sequence);
      return at.Some? || (firstSequence.Some? && firstSequence.value <= sequence <= settledSequence);
    }
  }

  function Offsets(page: Page): set<nat> {
    set o | o in page.offsets
  }

  function PageTarget(page: Page): Option<AckTarget> {
    if page.safeAck.Some? then Some(AckTarget(page.safeAck.value, page.owner)) else None
  }

  /** Continue after the page, or repeat the original selector when nothing was examined. */
  function NextStart(page: Page, original: Start): Start {
    if page.nextScan.Some? then Continue(page.nextScan.value) else original
  }

  /** A page without records behind an unfinished one folds its target into the newest page. */
  function Enqueue(pages: seq<Pending>, sequence: nat, target: Option<AckTarget>, outstanding: set<nat>): seq<Pending> {
    if pages != [] && outstanding == {} then
      if target.Some? then pages[|pages| - 1 := pages[|pages| - 1].(target := target)] else pages
    else pages + [Pending(sequence, target, outstanding)]
  }

  function Cleared(page: Pending, sequence: nat, offset: nat): Pending {
    if page.sequence < sequence then page.(outstanding := {})
    else if page.sequence == sequence then page.(outstanding := set o | o in page.outstanding && o > offset)
    else page
  }

  ghost predicate OwesThrough(pages: seq<Pending>, sequence: nat, offset: nat, o: nat) {
    exists i :: 0 <= i < |pages| && o in pages[i].outstanding &&
      (pages[i].sequence < sequence || (pages[i].sequence == sequence && o <= offset))
  }

  /** Completing through one of the page's own records marks exactly the open records up to it. */
  lemma ThroughIsExact(pages: seq<Pending>, at: nat, offset: nat, o: nat)
    requires Queue(pages) && at < |pages| && offset in pages[at].outstanding
    ensures OwesThrough(pages, pages[at].sequence, offset, o) <==> Open(pages, o) && o <= offset
  {
    forall i | 0 <= i < |pages| && o in pages[i].outstanding && i != at
      ensures pages[i].sequence < pages[at].sequence <==> o <= offset
    {
      assert if i < at then Before(pages[i], pages[at]) else Before(pages[at], pages[i]);
    }
  }

  /** What the state of any run promises: no offer and no stored offset covers an unfinished record,
      and once nothing is open everything scanned is stored or waits to be. */
  lemma AcknowledgmentsAreSafe(progress: PartitionProgress)
    requires progress.Valid()
    ensures progress.unstored.Some? ==> Safe(progress.unstored.value.offset, progress.returned, progress.handled)
    ensures progress.storedOffset.Some? ==> Safe(progress.storedOffset.value, progress.returned, progress.handled)
    ensures progress.pages == [] <==> progress.returned == progress.handled
    ensures progress.pages == [] && progress.newest.Some? ==>
      progress.unstored == progress.newest ||
      (progress.storedOffset.Some? && progress.newest.value.offset <= progress.storedOffset.value)
  {
    if progress.pages != [] {
      var o :| o in progress.pages[0].outstanding;
      assert Open(progress.pages, o);
    } else {
      forall o | o in progress.returned ensures o in progress.handled {
        assert !Open(progress.pages, o);
      }
    }
  }

  lemma OneSequence(pages: seq<Pending>, at: nat)
    requires Queue(pages) && at < |pages|
    ensures forall i :: 0 <= i < |pages| && pages[i].sequence == pages[at].sequence ==> i == at
  {
    forall i | 0 <= i < |pages| && i != at ensures pages[i].sequence != pages[at].sequence {
      assert if i < at then Before(pages[i], pages[at]) else Before(pages[at], pages[i]);
    }
  }

  lemma ClearedThrough(next: seq<Pending>, pages: seq<Pending>, at: nat, offset: nat, returned: set<nat>,
                       handled: set<nat>)
    requires Queue(pages) && Tracks(pages, returned, handled) && at < |pages| == |next|
    requires forall i :: 0 <= i < |pages| ==> next[i] == Cleared(pages[i], pages[at].sequence, offset)
    requires pages[at].target.Some? && offset <= pages[at].target.value.offset
    ensures Shrunk(next, pages)
    ensures forall o: nat :: o in Finished(next, returned) <==>
      o in handled || OwesThrough(pages, pages[at].sequence, offset, o)
    ensures Safe(offset, returned, Finished(next, returned))
    ensures forall i :: 0 <= i < at ==> next[i].outstanding == {}
  {
    var sequence := pages[at].sequence;
    forall i | 0 <= i < at ensures next[i].outstanding == {} {
      assert Before(pages[i], pages[at]);
    }
    forall o: nat ensures o in Finished(next, returned) <==> o in handled || OwesThrough(pages, sequence, offset, o) {
      assert Open(pages, o) <==> o in returned && o !in handled;
      if Open(pages, o) {
        var i :| 0 <= i < |pages| && o in pages[i].outstanding;
        forall j | 0 <= j < |pages| && o in pages[j].outstanding ensures i == j {
          OwedOnce(pages, i, j, o);
        }
        assert Open(next, o) <==> o in next[i].outstanding;
      }
    }
    forall o | o in returned && o <= offset ensures o in Finished(next, returned) {
      assert Open(pages, o) <==> o in returned && o !in handled;
      if o !in handled {
        var i :| 0 <= i < |pages| && o in pages[i].outstanding;
        assert i < at ==> Before(pages[i], pages[at]);
        assert i <= at;
        assert OwesThrough(pages, sequence, offset, o);
      }
    }
  }

  function Later(stored: Option<nat>, offset: nat): nat {
    if stored.Some? && stored.value > offset then stored.value else offset
  }

  ghost predicate Owes(pages: seq<Pending>, sequence: nat, offset: nat) {
    exists i :: 0 <= i < |pages| && pages[i].sequence == sequence && offset in pages[i].outstanding
  }

  lemma ShrinkRemembers(pages: seq<Pending>, before: seq<Pending>, first: Option<nat>, settled: nat,
                        delivered: set<nat>)
    requires Shrunk(pages, before) && Remembers(before, first, settled, delivered)
    ensures Remembers(pages, first, settled, delivered)
  {
    forall s | s in delivered && s > settled ensures exists i :: 0 <= i < |pages| && pages[i].sequence == s {
      var i :| 0 <= i < |before| && before[i].sequence == s;
      assert pages[i].sequence == s;
    }
  }

  lemma OwedByOne(pages: seq<Pending>, at: nat)
    requires Queue(pages) && at < |pages|
    ensures forall o: nat :: Owes(pages, pages[at].sequence, o) <==> o in pages[at].outstanding
  {
    forall o: nat | Owes(pages, pages[at].sequence, o) ensures o in pages[at].outstanding {
      var i :| 0 <= i < |pages| && pages[i].sequence == pages[at].sequence && o in pages[i].outstanding;
      OwedOnce(pages, i, at, o);
    }
  }

  /** No record is owed by two pages, and no two pages share a sequence. */
  lemma OwedOnce(pages: seq<Pending>, i: nat, j: nat, offset: nat)
    requires Queue(pages) && i < |pages| && j < |pages| && offset in pages[i].outstanding
    ensures offset in pages[j].outstanding ==> i == j
    ensures pages[i].sequence == pages[j].sequence ==> i == j
  {
    assert i < j ==> Before(pages[i], pages[j]);
    assert j < i ==> Before(pages[j], pages[i]);
  }

  /** Shrinking one page finishes exactly what left it. */
  lemma RemovedFromOne(next: seq<Pending>, pages: seq<Pending>, at: nat, returned: set<nat>, handled: set<nat>)
    requires Queue(pages) && Tracks(pages, returned, handled) && Shrunk(next, pages) && at < |pages|
    requires forall i :: 0 <= i < |pages| && i != at ==> next[i] == pages[i]
    ensures forall o: nat :: o in Finished(next, returned) <==>
      o in handled || (Owes(pages, pages[at].sequence, o) && o !in next[at].outstanding)
  {
    OwedByOne(pages, at);
    forall o: nat
      ensures o in Finished(next, returned) <==>
        o in handled || (Owes(pages, pages[at].sequence, o) && o !in next[at].outstanding)
    {
      assert Open(pages, o) <==> o in returned && o !in handled;
      if Open(pages, o) {
        var i :| 0 <= i < |pages| && o in pages[i].outstanding;
        forall j | 0 <= j < |pages| && o in pages[j].outstanding ensures j == i {
          OwedOnce(pages, i, j, o);
        }
        assert Open(next, o) <==> o in next[i].outstanding;
      }
    }
  }

  lemma RetireRemembers(pages: seq<Pending>, first: Option<nat>, settled: nat, delivered: set<nat>)
    requires pages != [] && Queue(pages) && Remembers(pages, first, settled, delivered)
    ensures Remembers(pages[1..], first, pages[0].sequence, delivered)
  {
    forall i | 0 <= i < |pages| - 1 ensures pages[0].sequence < pages[1..][i].sequence {
      assert Before(pages[0], pages[i + 1]);
    }
    forall s | s in delivered && s > pages[0].sequence
      ensures exists i :: 0 <= i < |pages| - 1 && pages[1..][i].sequence == s
    {
      var i :| 0 <= i < |pages| && pages[i].sequence == s;
      assert pages[1..][i - 1].sequence == s;
    }
  }

  /** What a validated page returns is new, and lies beyond everything offered or queued. */
  lemma FreshRecords(start: Start, page: Page, pages: seq<Pending>, returned: set<nat>, issued: set<AckTarget>)
    requires WellScanned(start, page) && Behind(start, pages, returned, issued)
    ensures returned !! Offsets(page)
    ensures forall o, target :: o in page.offsets && target in issued ==> target.offset < o
    ensures forall o, i :: o in page.offsets && 0 <= i < |pages| && pages[i].target.Some? ==>
      pages[i].target.value.offset < o
    ensures page.safeAck.Some? ==> forall target :: target in issued ==> target.offset <= page.safeAck.value
    ensures page.safeAck.Some? ==> forall i :: 0 <= i < |pages| && pages[i].target.Some? ==>
      pages[i].target.value.offset <= page.safeAck.value
    ensures page.safeAck.None? ==> page.offsets == []
  {
  }

  lemma EnqueueQueues(start: Start, pages: seq<Pending>, sequence: nat, page: Page, returned: set<nat>,
                      handled: set<nat>, issued: set<AckTarget>)
    requires WellScanned(start, page) && Behind(start, pages, returned, issued)
    requires Queue(pages) && Tracks(pages, returned, handled)
    requires forall i :: 0 <= i < |pages| ==> pages[i].sequence < sequence && pages[i].target.Some?
    requires forall target :: target in issued ==> Safe(target.offset, returned, handled)
    ensures
      var next := Enqueue(pages, sequence, PageTarget(page), Offsets(page));
      Queue(next) && Tracks(next, returned + Offsets(page), handled)
    ensures forall target :: target in issued ==> Safe(target.offset, returned + Offsets(page), handled)
    ensures returned !! Offsets(page)
  {
    FreshRecords(start, page, pages, returned, issued);
    var next := Enqueue(pages, sequence, PageTarget(page), Offsets(page));
    forall i, j | 0 <= i < j < |next| ensures Before(next[i], next[j]) {
      assert j < |pages| ==> Before(pages[i], pages[j]);
    }
    forall o: nat ensures Open(next, o) <==> Open(pages, o) || o in page.offsets {
      if Open(pages, o) {
        var i :| 0 <= i < |pages| && o in pages[i].outstanding;
        assert o in next[i].outstanding;
      }
      if o in page.offsets {
        assert o in Offsets(page);
        assert o in next[|pages|].outstanding;
      }
    }
  }

  lemma EnqueueOffers(start: Start, original: Start, pages: seq<Pending>, sequence: nat, page: Page, returned: set<nat>,
                      issued: set<AckTarget>, unstored: Option<AckTarget>, stored: Option<nat>,
                      newest: Option<AckTarget>)
    requires WellScanned(start, page) && Behind(start, pages, returned, issued)
    requires Offered(unstored, pages, issued) && KeepsNewest(pages, unstored, stored, newest)
    requires forall i :: 0 <= i < |pages| ==> pages[i].target.Some?
    requires StartOffset(original).Some? ==> StartOffset(start).Some?
    requires StartOffset(start).None? ==> start == original
    ensures
      var next := Enqueue(pages, sequence, PageTarget(page), Offsets(page));
      && Behind(NextStart(page, original), next, returned + Offsets(page), issued)
      && Offered(unstored, next, issued)
      && KeepsNewest(next, unstored, stored, if page.safeAck.Some? then PageTarget(page) else newest)
    ensures StartOffset(original).Some? ==> StartOffset(NextStart(page, original)).Some?
    ensures StartOffset(NextStart(page, original)).None? ==> NextStart(page, original) == original
  {
    FreshRecords(start, page, pages, returned, issued);
  }

  lemma EnqueueKeeps(start: Start, original: Start, pages: seq<Pending>, sequence: nat, page: Page,
                     unstored: Option<AckTarget>, stored: Option<nat>, newest: Option<AckTarget>, returned: set<nat>,
                     handled: set<nat>, issued: set<AckTarget>)
    requires WellScanned(start, page) && Consistent(start, pages, unstored, stored, newest, returned, handled, issued)
    requires forall i :: 0 <= i < |pages| ==> pages[i].sequence < sequence && pages[i].target.Some?
    requires StartOffset(original).Some? ==> StartOffset(start).Some?
    requires StartOffset(start).None? ==> start == original
    ensures returned !! Offsets(page)
    ensures
      var next := Enqueue(pages, sequence, PageTarget(page), Offsets(page));
      var newest' := if page.safeAck.Some? then PageTarget(page) else newest;
      Consistent(NextStart(page, original), next, unstored, stored, newest', returned + Offsets(page), handled, issued)
    ensures StartOffset(original).Some? ==> StartOffset(NextStart(page, original)).Some?
    ensures StartOffset(NextStart(page, original)).None? ==> NextStart(page, original) == original
  {
    EnqueueQueues(start, pages, sequence, page, returned, handled, issued);
    EnqueueOffers(start, original, pages, sequence, page, returned, issued, unstored, stored, newest);
  }

  lemma EnqueueRemembers(pages: seq<Pending>, sequence: nat, page: Page, first: Option<nat>, settled: nat,
                         delivered: set<nat>)
    requires Remembers(pages, first, settled, delivered) && settled < sequence
    requires (first.Some? ==> first.value <= sequence)
    requires forall i :: 0 <= i < |pages| ==> pages[i].sequence <= sequence
    ensures var next := Enqueue(pages, sequence, PageTarget(page), Offsets(page));
      forall i :: 0 <= i < |next| ==> next[i].sequence <= sequence
    ensures Remembers(Enqueue(pages, sequence, PageTarget(page), Offsets(page)),
                      if first.Some? then first else Some(sequence), settled,
                      delivered + (if page.offsets == [] then {} else {sequence}))
  {
    var next := Enqueue(pages, sequence, PageTarget(page), Offsets(page));
    forall s | s in delivered && s > settled ensures exists i :: 0 <= i < |next| && next[i].sequence == s {
      var i :| 0 <= i < |pages| && pages[i].sequence == s;
      assert next[i].sequence == s;
    }
    if page.offsets != [] {
      assert page.offsets[0] in Offsets(page);
      assert next[|pages|].sequence == sequence;
    }
  }

  /** After settling, the first queued page is at or after the completed one. */
  lemma FrontReaches(pages: seq<Pending>, next: seq<Pending>, at: nat, offset: nat)
    requires Queue(next) && at < |next| && next[at].target.Some? && offset <= next[at].target.value.offset
    requires forall i :: 0 <= i < |next| ==> next[i].target.Some?
    requires forall i :: 0 <= i < at ==> next[i].outstanding == {}
    requires LastOf(pages, next) && (pages != [] ==> pages[0].outstanding != {})
    ensures pages != [] ==> offset <= pages[0].target.value.offset
    ensures pages == [] ==> at < |next| - |pages|
  {
    var k := |next| - |pages|;
    assert pages != [] && at < k ==> Before(next[at], next[k]);
  }
}
