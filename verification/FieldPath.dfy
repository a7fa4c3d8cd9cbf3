/** The text form of field paths (wire/src/filter/path.rs): printing, parsing, and one text per path. */
module FieldPath {
  import opened Wrappers
  import opened Decimals
  import opened FilterPaths

  const MAX_PATH_BYTES := 256
  const MAX_PATH_SEGMENTS := 16

  datatype PathError = EmptyPath | TooLong | Malformed | TooManySegments

  predicate Special(c: char) {
    c == '.' || c == '[' || c == ']' || c == '\\'
  }

  /** Keys are not empty and indexes fit in 32 bits. */
  ghost predicate WellFormed(path: Path) {
    forall segment :: segment in path ==> SegmentFits(segment)
  }

  ghost predicate SegmentFits(segment: Segment) {
    match segment
    case Key(key) => key != ""
    case Index(index) => index <= U32_MAX
  }

  // ----- Printing -----

  function Escape(key: string): string {
    if key == "" then ""
    else (if Special(key[0]) then ['\\', key[0]] else [key[0]]) + Escape(key[1..])
  }

  function Piece(segment: Segment, first: bool): string {
    match segment
    case Key(key) => (if first then "" else ".") + Escape(key)
    case Index(index) => "[" + Decimal(index) + "]"
  }

  function Render(path: Path, first: bool): string {
    if path == [] then "" else Piece(path[0], first) + Render(path[1..], false)
  }

  function Display(path: Path): string {
    Render(path, true)
  }

  // ----- Parsing as a function of the remaining text -----

  /** Where a segment may end. */
  predicate Boundary(text: string) {
    text == "" || text[0] == '.' || text[0] == '['
  }

  /** A key and the text it used. */
  function ReadKey(text: string): Option<(string, nat)> {
    if Boundary(text) then Some(("", 0))
    else if text[0] == ']' then None
    else if text[0] == '\\' then
      if |text| > 1 && Special(text[1]) then Extend(text[1], 2, ReadKey(text[2..])) else None
    else Extend(text[0], 1, ReadKey(text[1..]))
  }

  function Extend(c: char, used: nat, rest: Option<(string, nat)>): Option<(string, nat)> {
    if rest.Some? then Some(([c] + rest.value.0, used + rest.value.1)) else None
  }

  function DigitRun(text: string): (n: nat)
    ensures n <= |text| && AllDigits(text[..n]) && (n < |text| ==> !IsDigit(text[n]))
  {
    if text == "" || !IsDigit(text[0]) then 0
    else
      var n := DigitRun(text[1..]);
      assert text[..n + 1] == [text[0]] + text[1..][..n];
      n + 1
  }

  function ReadIndex(text: string): Option<(Segment, nat)>
    requires text != ""
  {
    var n := DigitRun(text[1..]);
    var digits := text[1..][..n];
    if n + 1 == |text| || text[n + 1] != ']' || !Canonical(digits) || Value(digits) > U32_MAX then None
    else Some((Index(Value(digits)), n + 2))
  }

  function ReadNamed(text: string, skipped: nat): Option<(Segment, nat)> {
    var key := ReadKey(text);
    if key.None? || key.value.0 == "" then None else Some((Key(key.value.0), skipped + key.value.1))
  }

  function ReadSegment(text: string, first: bool): Option<(Segment, nat)> {
    if text != "" && text[0] == '[' then ReadIndex(text)
    else if first then ReadNamed(text, 0)
    else if text != "" && text[0] == '.' then ReadNamed(text[1..], 1)
    else None
  }

  lemma {:induction false} ReadKeySound(text: string)
    ensures ReadKey(text).Some? ==>
      var (key, used) := ReadKey(text).value;
      used <= |text| && text[..used] == Escape(key) && Boundary(text[used..]) && (key != "" ==> used > 0)
  {
    if !Boundary(text) && ReadKey(text).Some? {
      var (key, used) := ReadKey(text).value;
      var step := if text[0] == '\\' then 2 else 1;
      ReadKeySound(text[step..]);
      assert key[1..] == ReadKey(text[step..]).value.0;
      assert text[..used] == text[..step] + text[step..][..used - step];
      assert text[used..] == text[step..][used - step..];
    }
  }

  lemma ReadOne(c: char, rest: string)
    ensures Special(c) ==> ReadKey(['\\', c] + rest) == Extend(c, 2, ReadKey(rest))
    ensures !Special(c) ==> ReadKey([c] + rest) == Extend(c, 1, ReadKey(rest))
  {
  }

  lemma {:induction false} EscapeReads(key: string, tail: string)
    requires Boundary(tail)
    ensures ReadKey(Escape(key) + tail) == Some((key, |Escape(key)|))
  {
    if key == "" {
      assert Escape(key) + tail == tail;
    } else {
      var head := if Special(key[0]) then ['\\', key[0]] else [key[0]];
      var rest := Escape(key[1..]) + tail;
      EscapeReads(key[1..], tail);
      ReadOne(key[0], rest);
      assert head + Escape(key[1..]) + tail == head + rest;
      assert [key[0]] + key[1..] == key;
    }
  }

  lemma {:induction false} ReadSegmentSound(text: string, first: bool)
    ensures ReadSegment(text, first).Some? ==>
      var (segment, used) := ReadSegment(text, first).value;
      && 0 < used <= |text| && SegmentFits(segment) && text[..used] == Piece(segment, first)
      && (segment.Key? ==> Boundary(text[used..]))
  {
    if text != "" && text[0] == '[' {
      var n := DigitRun(text[1..]);
      if ReadIndex(text).Some? {
        CanonicalReads(text[1..][..n]);
        assert text[..n + 2] == "[" + text[1..][..n] + "]";
      }
    } else {
      ReadKeySound(text);
      if text != "" {
        ReadKeySound(text[1..]);
        if !first && ReadSegment(text, first).Some? {
          var used := ReadKey(text[1..]).value.1;
          assert text[..used + 1] == "." + text[1..][..used];
          assert text[used + 1..] == text[1..][used..];
        }
      }
    }
  }

  lemma {:induction false} DigitsRun(digits: string, tail: string)
    requires AllDigits(digits) && tail != "" && !IsDigit(tail[0])
    ensures DigitRun(digits + tail) == |digits|
  {
    if digits != "" {
      DigitsRun(digits[1..], tail);
      assert (digits + tail)[1..] == digits[1..] + tail;
    } else {
      assert digits + tail == tail;
    }
  }

  lemma IndexReads(index: nat, tail: string)
    requires index <= U32_MAX
    ensures ReadIndex("[" + Decimal(index) + "]" + tail) == Some((Index(index), |Decimal(index)| + 2))
  {
    var digits, text := Decimal(index), "[" + Decimal(index) + "]" + tail;
    DecimalReads(index);
    DecimalIsCanonical(index);
    DigitsRun(digits, "]" + tail);
    assert text[1..] == digits + ("]" + tail);
    assert text[1..][..|digits|] == digits;
  }

  lemma NamedReads(key: string, tail: string, skipped: nat)
    requires key != "" && Boundary(tail)
    ensures ReadNamed(Escape(key) + tail, skipped) == Some((Key(key), skipped + |Escape(key)|))
  {
    EscapeReads(key, tail);
  }

  lemma FirstReads(named: string)
    requires named != "" && named[0] != '['
    ensures ReadSegment(named, true) == ReadNamed(named, 0)
  {
  }

  lemma LaterReads(named: string)
    ensures ReadSegment("." + named, false) == ReadNamed(named, 1)
  {
  }

  lemma KeyPiece(escaped: string, tail: string)
    ensures "" + escaped + tail == escaped + tail && "." + escaped + tail == "." + (escaped + tail)
  {
  }

  lemma KeyReads(key: string, first: bool, tail: string)
    requires key != "" && Boundary(tail)
    ensures ReadSegment(Piece(Key(key), first) + tail, first) == Some((Key(key), |Piece(Key(key), first)|))
  {
    var escaped := Escape(key);
    EscapeStarts(key);
    KeyPiece(escaped, tail);
    NamedReads(key, tail, if first then 0 else 1);
    if first {
      FirstReads(escaped + tail);
    } else {
      LaterReads(escaped + tail);
    }
  }

  lemma PieceReads(segment: Segment, first: bool, tail: string)
    requires SegmentFits(segment) && Boundary(tail)
    ensures ReadSegment(Piece(segment, first) + tail, first) == Some((segment, |Piece(segment, first)|))
  {
    if segment.Index? {
      IndexReads(segment.index, tail);
    } else {
      KeyReads(segment.key, first, tail);
    }
  }

  /** A printed key is never taken for an index. */
  lemma EscapeStarts(key: string)
    requires key != ""
    ensures Escape(key) != "" && Escape(key)[0] != '[' && Escape(key)[0] != '.'
  {
  }

  lemma RenderStarts(path: Path)
    ensures Boundary(Render(path, false))
  {
  }

  // ----- Whole paths -----

  /** The segments of the remaining text. */
  function ReadPath(text: string, first: bool): Option<Path>
    decreases |text|
  {
    if text == "" && !first then Some([])
    else
      var next := ReadSegment(text, first);
      ReadSegmentSound(text, first);
      if next.None? then None
      else
        var rest := ReadPath(text[next.value.1..], false);
        if rest.None? then None else Some([next.value.0] + rest.value)
  }

  lemma {:induction false} ReadRenders(text: string, first: bool)
    ensures ReadPath(text, first).Some? ==>
      var path := ReadPath(text, first).value;
      Render(path, first) == text && WellFormed(path) && (first ==> path != [])
    decreases |text|
  {
    if (text != "" || first) && ReadPath(text, first).Some? {
      ReadSegmentSound(text, first);
      var (segment, used) := ReadSegment(text, first).value;
      ReadRenders(text[used..], false);
      var path := ReadPath(text, first).value;
      assert path[1..] == ReadPath(text[used..], false).value;
      assert text == text[..used] + text[used..];
    }
  }

  lemma {:induction false} RenderReads(path: Path, first: bool)
    requires WellFormed(path) && (first ==> path != [])
    ensures ReadPath(Render(path, first), first) == Some(path)
  {
    if path != [] {
      var tail := Render(path[1..], false);
      RenderStarts(path[1..]);
      PieceReads(path[0], first, tail);
      RenderReads(path[1..], false);
      var text := Render(path, first);
      assert text[|Piece(path[0], first)|..] == tail;
      PieceFills(path[0], first);
      assert path == [path[0]] + path[1..];
    }
  }

  lemma PieceFills(segment: Segment, first: bool)
    requires SegmentFits(segment)
    ensures Piece(segment, first) != ""
  {
  }

  /** One text form per path. */
  lemma DisplayIsInjective(path: Path, other: Path)
    requires WellFormed(path) && WellFormed(other) && path != [] && other != []
    requires Display(path) == Display(other)
    ensures path == other
  {
    RenderReads(path, true);
    RenderReads(other, true);
  }

  // ----- The parser -----

  /** Bytes of the text in UTF-8. */
  function Utf8Length(text: string): nat {
    if text == "" then 0
    else
      var c := text[0] as nat;
      (if c < 0x80 then 1 else if c < 0x800 then 2 else if c < 0x1_0000 then 3 else 4) + Utf8Length(text[1..])
  }

  function Prepend(key: string, used: nat, rest: Option<(string, nat)>): Option<(string, nat)> {
    if rest.Some? then Some((key + rest.value.0, used + rest.value.1)) else None
  }

  lemma PrependStep(key: string, used: nat, c: char, step: nat, rest: Option<(string, nat)>)
    ensures Prepend(key, used, Extend(c, step, rest)) == Prepend(key + [c], used + step, rest)
  {
    if rest.Some? {
      assert key + ([c] + rest.value.0) == key + [c] + rest.value.0;
    }
  }

  method ParseKey(text: string, from: nat) returns (read: Option<(string, nat)>)
    requires from <= |text|
    ensures read == ReadKey(text[from..])
  {
    var key: string, position: nat := "", from;
    assert ReadKey(text[from..]).Some? ==> "" + ReadKey(text[from..]).value.0 == ReadKey(text[from..]).value.0;
    while position < |text| && text[position] != '.' && text[position] != '['
      invariant from <= position <= |text|
      invariant ReadKey(text[from..]) == Prepend(key, position - from, ReadKey(text[position..]))
    {
      var c := text[position];
      if c == ']' {
        return None;
      }
      if c == '\\' {
        if position + 1 == |text| || !Special(text[position + 1]) {
          return None;
        }
        assert text[position..][2..] == text[position + 2..];
        PrependStep(key, position - from, text[position + 1], 2, ReadKey(text[position + 2..]));
        key, position := key + [text[position + 1]], position + 2;
      } else {
        assert text[position..][1..] == text[position + 1..];
        PrependStep(key, position - from, c, 1, ReadKey(text[position + 1..]));
        key, position := key + [c], position + 1;
      }
    }
    assert key + "" == key;
    return Some((key, position - from));
  }

  method ParseIndex(text: string, from: nat) returns (read: Option<(Segment, nat)>)
    requires from < |text|
    ensures read == ReadIndex(text[from..])
  {
    var rest := text[from..];
    var position := from + 1;
    while position < |text| && IsDigit(text[position])
      invariant from + 1 <= position <= |text|
      invariant DigitRun(rest[1..]) == position - from - 1 + DigitRun(text[position..])
    {
      assert text[position..][1..] == text[position + 1..];
      position := position + 1;
    }
    var digits := text[from + 1..position];
    assert digits == rest[1..][..position - from - 1];
    if position == |text| || text[position] != ']' || !Canonical(digits) || Value(digits) > U32_MAX {
      return None;
    }
    return Some((Index(Value(digits)), position + 1 - from));
  }

  method ParseSegment(text: string, from: nat) returns (read: Option<(Segment, nat)>)
    requires from <= |text|
    ensures read == ReadSegment(text[from..], from == 0)
  {
    if from < |text| && text[from] == '[' {
      read := ParseIndex(text, from);
    } else if from == 0 || (from < |text| && text[from] == '.') {
      var skipped := if from == 0 then 0 else 1;
      assert text[from..][skipped..] == text[from + skipped..];
      var key := ParseKey(text, from + skipped);
      read := if key.None? || key.value.0 == "" then None else Some((Key(key.value.0), skipped + key.value.1));
    } else {
      read := None;
    }
  }

  function Joined(segments: Path, rest: Option<Path>): Option<Path> {
    if rest.Some? then Some(segments + rest.value) else None
  }

  /** The segments read so far and the rest of the text make up the whole path. */
  ghost predicate Resumes(whole: Option<Path>, text: string, position: nat, segments: Path)
    requires position <= |text|
  {
    whole == Joined(segments, ReadPath(text[position..], position == 0))
  }

  lemma ResumeFirst(text: string)
    ensures Resumes(ReadPath(text, true), text, 0, [])
  {
    assert text[0..] == text;
    var path := ReadPath(text, true);
    if path.Some? {
      assert [] + path.value == path.value;
    }
  }

  lemma ResumeNext(whole: Option<Path>, text: string, position: nat, segments: Path, next: Option<(Segment, nat)>)
    requires position <= |text| && (position == 0 || position < |text|) && Resumes(whole, text, position, segments)
    requires next == ReadSegment(text[position..], position == 0)
    ensures next.None? ==> whole.None?
    ensures next.Some? ==>
      0 < next.value.1 <= |text| - position && Resumes(whole, text, position + next.value.1, segments + [next.value.0])
  {
    var first := position == 0;
    ReadSegmentSound(text[position..], first);
    if next.Some? {
      assert text[position..][next.value.1..] == text[position + next.value.1..];
      var rest := ReadPath(text[position + next.value.1..], false);
      if rest.Some? {
        assert segments + ([next.value.0] + rest.value) == segments + [next.value.0] + rest.value;
      }
    }
  }

  lemma ResumeLast(whole: Option<Path>, text: string, segments: Path)
    requires text != "" && Resumes(whole, text, |text|, segments)
    ensures whole == Some(segments)
  {
    assert text[|text|..] == "" && segments + [] == segments;
  }

  method ParseSegments(text: string) returns (path: Option<Path>)
    requires text != ""
    ensures path == ReadPath(text, true)
  {
    ResumeFirst(text);
    path := ParseFrom(text, ReadPath(text, true));
  }

  method ParseNext(text: string, position: nat, segments: Path,
                   ghost whole: Option<Path>) returns (next: Option<(Segment, nat)>)
    requires position < |text| && Resumes(whole, text, position, segments)
    ensures next.None? ==> whole.None?
    ensures next.Some? ==>
      position < next.value.1 <= |text| && Resumes(whole, text, next.value.1, segments + [next.value.0])
  {
    var read := ParseSegment(text, position);
    ResumeNext(whole, text, position, segments, read);
    next := if read.Some? then Some((read.value.0, position + read.value.1)) else None;
  }

  method ParseFrom(text: string, ghost whole: Option<Path>) returns (path: Option<Path>)
    requires text != "" && Resumes(whole, text, 0, [])
    ensures path == whole
  {
    var segments: Path, position: nat := [], 0;
    while position < |text|
      invariant position <= |text| && Resumes(whole, text, position, segments)
    {
      var next := ParseNext(text, position, segments, whole);
      if next.None? {
        return None;
      }
      segments, position := segments + [next.value.0], next.value.1;
    }
    ResumeLast(whole, text, segments);
    return Some(segments);
  }

  /** Accepts exactly the printed forms of the well-formed paths within the caps, and returns the one
      path each of them prints. */
  method Parse(text: string) returns (result: Result<Path, PathError>)
    ensures result.Ok? ==>
      WellFormed(result.value) && 0 < |result.value| <= MAX_PATH_SEGMENTS && Display(result.value) == text
    ensures result.Ok? ==> Utf8Length(text) <= MAX_PATH_BYTES
    ensures result.Err? ==> forall path: Path | Display(path) == text ::
      !WellFormed(path) || path == [] || |path| > MAX_PATH_SEGMENTS || Utf8Length(text) > MAX_PATH_BYTES
    ensures result == Err(TooManySegments) ==>
      exists path: Path :: Display(path) == text && WellFormed(path) && |path| > MAX_PATH_SEGMENTS
  {
    forall path: Path | Display(path) == text && WellFormed(path) && path != []
      ensures ReadPath(text, true) == Some(path)
    {
      RenderReads(path, true);
    }
    ReadRenders(text, true);
    if text == "" {
      return Err(EmptyPath);
    }
    if Utf8Length(text) > MAX_PATH_BYTES {
      return Err(TooLong);
    }
    var path := ParseSegments(text);
    if path.None? {
      return Err(Malformed);
    }
    if |path.value| > MAX_PATH_SEGMENTS {
      return Err(TooManySegments);
    }
    return Ok(path.value);
  }
}
