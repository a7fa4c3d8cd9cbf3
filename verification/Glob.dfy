/** The two-pointer glob matcher of the benchmark (bench/benches/glob.rs), against what a
    glob means: the text splits into one piece per token, and each token accepts its piece. */
module Glob {
  import opened Wrappers

  const GLOB_ANY_RUN := '*'
  const GLOB_ANY_ONE := '?'
  const GLOB_ESCAPE := '\\'

  datatype GlobToken = AnyRun | AnyOne | Literal(character: char)

  // ----- Meaning -----

  ghost predicate AcceptsPiece(token: GlobToken, piece: string) {
    match token
    case AnyRun => true
    case AnyOne => |piece| == 1
    case Literal(c) => piece == [c]
  }

  ghost function Join(pieces: seq<string>): string {
    if pieces == [] then [] else pieces[0] + Join(pieces[1..])
  }

  ghost predicate IsSplit(tokens: seq<GlobToken>, text: string, pieces: seq<string>) {
    && |pieces| == |tokens|
    && Join(pieces) == text
    && forall i :: 0 <= i < |tokens| ==> AcceptsPiece(tokens[i], pieces[i])
  }

  /** The meaning of a token list: some split of the text is accepted piece by piece. */
  ghost predicate Accepts(tokens: seq<GlobToken>, text: string) {
    exists pieces :: IsSplit(tokens, text, pieces)
  }

  predicate Fits(token: GlobToken, c: char) {
    token.AnyOne? || token == Literal(c)
  }

  /** The same meaning by recursion: tokens from `t` match the text from `p`. */
  ghost predicate Matches(tokens: seq<GlobToken>, text: string, t: nat, p: nat)
    requires t <= |tokens| && p <= |text|
    decreases |tokens| - t + |text| - p
  {
    if t == |tokens| then p == |text|
    else if tokens[t].AnyRun? then
      Matches(tokens, text, t + 1, p) || (p < |text| && Matches(tokens, text, t, p + 1))
    else
      p < |text| && Fits(tokens[t], text[p]) && Matches(tokens, text, t + 1, p + 1)
  }

  lemma {:induction false} SplitMatches(tokens: seq<GlobToken>, text: string, t: nat, p: nat, pieces: seq<string>)
    requires t <= |tokens| && p <= |text|
    requires IsSplit(tokens[t..], text[p..], pieces)
    ensures Matches(tokens, text, t, p)
    decreases |tokens| - t + |text| - p
  {
    if t < |tokens| {
      var head, rest := pieces[0], pieces[1..];
      assert tokens[t..][1..] == tokens[t + 1..];
      if head == "" {
        SplitMatches(tokens, text, t + 1, p, rest);
      } else {
        assert text[p] == head[0];
        assert text[p..][1..] == text[p + 1..];
        if tokens[t].AnyRun? {
          var shorter := [head[1..]] + rest;
          assert Join(shorter) == head[1..] + Join(rest) == text[p + 1..];
          SplitMatches(tokens, text, t, p + 1, shorter);
        } else {
          assert head == [text[p]];
          assert Join(rest) == text[p + 1..];
          SplitMatches(tokens, text, t + 1, p + 1, rest);
        }
      }
    }
  }

  lemma {:induction false} MatchesSplit(tokens: seq<GlobToken>, text: string, t: nat,
                                        p: nat) returns (pieces: seq<string>)
    requires t <= |tokens| && p <= |text|
    requires Matches(tokens, text, t, p)
    ensures IsSplit(tokens[t..], text[p..], pieces)
    decreases |tokens| - t + |text| - p
  {
    if t == |tokens| {
      pieces := [];
    } else if tokens[t].AnyRun? && Matches(tokens, text, t + 1, p) {
      var rest := MatchesSplit(tokens, text, t + 1, p);
      pieces := [""] + rest;
      assert Join(pieces) == Join(rest);
    } else if tokens[t].AnyRun? {
      var longer := MatchesSplit(tokens, text, t, p + 1);
      pieces := [[text[p]] + longer[0]] + longer[1..];
      assert Join(longer) == longer[0] + Join(longer[1..]);
      assert text[p..] == [text[p]] + text[p + 1..];
    } else {
      var rest := MatchesSplit(tokens, text, t + 1, p + 1);
      pieces := [[text[p]]] + rest;
      assert text[p..] == [text[p]] + text[p + 1..];
    }
  }

  /** The recursive meaning is the declarative one. */
  lemma MatchesIffAccepts(tokens: seq<GlobToken>, text: string)
    ensures Matches(tokens, text, 0, 0) <==> Accepts(tokens, text)
  {
    assert tokens[0..] == tokens && text[0..] == text;
    if Matches(tokens, text, 0, 0) {
      var pieces := MatchesSplit(tokens, text, 0, 0);
    }
    if Accepts(tokens, text) {
      var pieces :| IsSplit(tokens, text, pieces);
      SplitMatches(tokens, text, 0, 0, pieces);
    }
  }

  // ----- Why one resume point is enough -----

  /** Tokens from `t` match the text from some position at or after `from`. */
  ghost predicate MatchesLater(tokens: seq<GlobToken>, text: string, t: nat, from: nat)
    requires t <= |tokens|
  {
    exists k :: from <= k <= |text| && Matches(tokens, text, t, k)
  }

  lemma {:induction false} RunMatchesLater(tokens: seq<GlobToken>, text: string, t: nat, p: nat)
    requires t < |tokens| && p <= |text| && tokens[t].AnyRun?
    ensures Matches(tokens, text, t, p) <==> MatchesLater(tokens, text, t + 1, p)
    decreases |text| - p
  {
    if p < |text| {
      RunMatchesLater(tokens, text, t, p + 1);
    }
  }

  /** The tokens `from..to` are all single-character tokens. */
  ghost predicate NoRun(tokens: seq<GlobToken>, from: nat, to: nat)
    requires from <= to <= |tokens|
  {
    forall i :: from <= i < to ==> !tokens[i].AnyRun?
  }

  ghost predicate Aligned(tokens: seq<GlobToken>, text: string, from: nat, to: nat, p: nat)
    requires from <= to <= |tokens|
  {
    p + (to - from) <= |text| && forall i :: from <= i < to ==> Fits(tokens[i], text[p + (i - from)])
  }

  lemma {:induction false} MatchesPastRunFree(tokens: seq<GlobToken>, text: string, from: nat, to: nat, p: nat)
    requires from <= to <= |tokens| && p <= |text| && NoRun(tokens, from, to)
    ensures Matches(tokens, text, from, p)
        <==> Aligned(tokens, text, from, to, p) && Matches(tokens, text, to, p + (to - from))
    decreases |tokens| - from
  {
    if from < to && p < |text| {
      MatchesPastRunFree(tokens, text, from + 1, to, p + 1);
      if Aligned(tokens, text, from, to, p) {
        assert Fits(tokens[from], text[p + (from - from)]);
        assert Aligned(tokens, text, from + 1, to, p + 1);
      }
    }
  }

  /** Where to retry: the latest star, and the first text position it has not absorbed. */
  datatype Resume = NoStar | LatestStar(star: nat, absorbed: nat)

  /** What the matcher knows at the loop head. With no star seen the tokens read so far are aligned
      with the text from 0. With a star at `star` that absorbed up to `absorbed`, the whole match is
      equivalent to matching the rest somewhere at or after `absorbed`, and the tokens since the star
      are aligned with the text there. */
  ghost predicate Progress(tokens: seq<GlobToken>, text: string, token: nat, position: nat, resume: Resume) {
    && token <= |tokens| && position <= |text|
    && match resume
       case NoStar =>
         token == position && NoRun(tokens, 0, token) && Aligned(tokens, text, 0, token, 0)
       case LatestStar(star, absorbed) =>
         && star < token && absorbed <= position && token - (star + 1) == position - absorbed
         && NoRun(tokens, star + 1, token) && Aligned(tokens, text, star + 1, token, absorbed)
         && (Matches(tokens, text, 0, 0) <==> MatchesLater(tokens, text, star + 1, absorbed))
  }

  /** Under `Progress`, the match is decided by the current pair unless an earlier star absorbs more. */
  lemma ProgressAtStar(tokens: seq<GlobToken>, text: string, token: nat, position: nat, resume: Resume)
    requires Progress(tokens, text, token, position, resume)
    requires token < |tokens| && tokens[token].AnyRun?
    ensures Progress(tokens, text, token + 1, position, LatestStar(token, position))
  {
    RunMatchesLater(tokens, text, token, position);
    match resume
    case NoStar =>
      MatchesPastRunFree(tokens, text, 0, token, 0);
    case LatestStar(star, absorbed) =>
      MatchesPastRunFree(tokens, text, star + 1, token, absorbed);
      if MatchesLater(tokens, text, star + 1, absorbed) {
        var k :| absorbed <= k <= |text| && Matches(tokens, text, star + 1, k);
        MatchesPastRunFree(tokens, text, star + 1, token, k);
        RunMatchesLater(tokens, text, token, k + (token - (star + 1)));
      }
  }

  lemma ProgressAtFit(tokens: seq<GlobToken>, text: string, token: nat, position: nat, resume: Resume)
    requires Progress(tokens, text, token, position, resume)
    requires token < |tokens| && position < |text| && !tokens[token].AnyRun? && Fits(tokens[token], text[position])
    ensures Progress(tokens, text, token + 1, position + 1, resume)
  {
  }

  lemma ProgressAtMismatch(tokens: seq<GlobToken>, text: string, token: nat, position: nat, resume: Resume)
    requires Progress(tokens, text, token, position, resume) && position < |text|
    requires token < |tokens| ==> !tokens[token].AnyRun? && !Fits(tokens[token], text[position])
    ensures resume.NoStar? ==> !Matches(tokens, text, 0, 0)
    ensures resume.LatestStar? ==>
      Progress(tokens, text, resume.star + 1, resume.absorbed + 1, LatestStar(resume.star, resume.absorbed + 1))
  {
    match resume
    case NoStar =>
      MatchesPastRunFree(tokens, text, 0, token, 0);
    case LatestStar(star, absorbed) =>
      MatchesPastRunFree(tokens, text, star + 1, token, absorbed);
  }

  predicate AllRuns(tokens: seq<GlobToken>) {
    forall i :: 0 <= i < |tokens| ==> tokens[i].AnyRun?
  }

  lemma {:induction false} MatchesAtEnd(tokens: seq<GlobToken>, text: string, t: nat)
    requires t <= |tokens|
    ensures Matches(tokens, text, t, |text|) <==> AllRuns(tokens[t..])
    decreases |tokens| - t
  {
    if t < |tokens| {
      MatchesAtEnd(tokens, text, t + 1);
      assert tokens[t..] == [tokens[t]] + tokens[t + 1..];
    }
  }

  lemma ProgressAtEnd(tokens: seq<GlobToken>, text: string, token: nat, resume: Resume)
    requires Progress(tokens, text, token, |text|, resume)
    ensures Matches(tokens, text, 0, 0) <==> AllRuns(tokens[token..])
  {
    MatchesAtEnd(tokens, text, token);
    match resume
    case NoStar =>
      MatchesPastRunFree(tokens, text, 0, token, 0);
    case LatestStar(star, absorbed) =>
      MatchesPastRunFree(tokens, text, star + 1, token, absorbed);
      if MatchesLater(tokens, text, star + 1, absorbed) {
        var k :| absorbed <= k <= |text| && Matches(tokens, text, star + 1, k);
        MatchesPastRunFree(tokens, text, star + 1, token, k);
      }
  }

  // ----- Tokens -----

  /** Escapes resolved; `None` when the last character is an unescaped backslash. */
  function Tokenize(pattern: string): (tokens: Option<seq<GlobToken>>) {
    if pattern == "" then Some([])
    else if pattern[0] == GLOB_ESCAPE then
      if |pattern| == 1 then None
      else
        var rest := Tokenize(pattern[2..]);
        if rest.None? then None else Some([Literal(pattern[1])] + rest.value)
    else
      var rest := Tokenize(pattern[1..]);
      if rest.None? then None
      else
        var token := if pattern[0] == GLOB_ANY_RUN then AnyRun
                     else if pattern[0] == GLOB_ANY_ONE then AnyOne
                     else Literal(pattern[0]);
        Some([token] + rest.value)
  }

  /** A pattern that spells the tokens, escaping every literal. */
  ghost function Spell(tokens: seq<GlobToken>): string {
    if tokens == [] then ""
    else
      (match tokens[0]
       case AnyRun => [GLOB_ANY_RUN]
       case AnyOne => [GLOB_ANY_ONE]
       case Literal(c) => [GLOB_ESCAPE, c])
      + Spell(tokens[1..])
  }

  /** Every token list has a pattern, so escapes can spell any literal text. */
  lemma {:induction false} TokenizeSpell(tokens: seq<GlobToken>)
    ensures Tokenize(Spell(tokens)) == Some(tokens)
  {
    if tokens != [] {
      TokenizeSpell(tokens[1..]);
      var k := if tokens[0].Literal? then 2 else 1;
      assert Spell(tokens)[k..] == Spell(tokens[1..]);
      assert [tokens[0]] + tokens[1..] == tokens;
    }
  }

  ghost function TrailingEscapes(pattern: string): nat {
    if pattern == "" || pattern[|pattern| - 1] != GLOB_ESCAPE then 0
    else 1 + TrailingEscapes(pattern[..|pattern| - 1])
  }

  lemma {:induction false} TrailingEscapesOfTail(pattern: string)
    requires pattern != ""
    ensures TrailingEscapes(pattern[1..]) <= |pattern| - 1
    ensures TrailingEscapes(pattern) ==
      if TrailingEscapes(pattern[1..]) == |pattern| - 1 && pattern[0] == GLOB_ESCAPE then |pattern|
      else TrailingEscapes(pattern[1..])
    decreases |pattern|
  {
    if |pattern| > 1 && pattern[|pattern| - 1] == GLOB_ESCAPE {
      var init := pattern[..|pattern| - 1];
      TrailingEscapesOfTail(init);
      assert init[1..] == pattern[1..][..|pattern| - 2];
    }
  }

  /** Tokenizing fails exactly when the pattern ends in an odd run of backslashes. */
  lemma {:induction false} TokenizeFailsIffDangling(pattern: string)
    ensures Tokenize(pattern).None? <==> TrailingEscapes(pattern) % 2 == 1
    decreases |pattern|
  {
    if pattern != "" {
      TrailingEscapesOfTail(pattern);
      if pattern[0] != GLOB_ESCAPE {
        TokenizeFailsIffDangling(pattern[1..]);
      } else if |pattern| > 1 {
        TrailingEscapesOfTail(pattern[1..]);
        assert pattern[1..][1..] == pattern[2..];
        TokenizeFailsIffDangling(pattern[2..]);
      }
    }
  }

  lemma {:induction false} TokenizeFrom(pattern: string, i: nat, read: seq<GlobToken>, width: nat, token: GlobToken)
    requires i + width <= |pattern| && 1 <= width <= 2
    requires width == 2 <==> pattern[i] == GLOB_ESCAPE
    requires token == if width == 2 then Literal(pattern[i + 1])
                      else if pattern[i] == GLOB_ANY_RUN then AnyRun
                      else if pattern[i] == GLOB_ANY_ONE then AnyOne
                      else Literal(pattern[i])
    requires Tokenize(pattern) == Prepend(read, Tokenize(pattern[i..]))
    ensures Tokenize(pattern) == Prepend(read + [token], Tokenize(pattern[i + width..]))
  {
    assert pattern[i..][width..] == pattern[i + width..];
    var rest := Tokenize(pattern[i + width..]);
    if rest.Some? {
      assert (read + [token]) + rest.value == read + ([token] + rest.value);
    }
  }

  ghost function Prepend(read: seq<GlobToken>, rest: Option<seq<GlobToken>>): Option<seq<GlobToken>> {
    if rest.None? then None else Some(read + rest.value)
  }

  method GlobTokens(pattern: string) returns (result: Option<seq<GlobToken>>)
    ensures result == Tokenize(pattern)
  {
    var tokens: seq<GlobToken> := [];
    var i := 0;
    assert pattern[0..] == pattern;
    assert Tokenize(pattern).Some? ==> [] + Tokenize(pattern).value == Tokenize(pattern).value;
    while i < |pattern|
      invariant i <= |pattern|
      invariant Tokenize(pattern) == Prepend(tokens, Tokenize(pattern[i..]))
    {
      var character := pattern[i];
      var token: GlobToken;
      ghost var start := i;
      i := i + 1;
      if character == GLOB_ANY_RUN {
        token := AnyRun;
      } else if character == GLOB_ANY_ONE {
        token := AnyOne;
      } else if character == GLOB_ESCAPE {
        if i == |pattern| {
          return None;
        }
        token := Literal(pattern[i]);
        i := i + 1;
      } else {
        token := Literal(character);
      }
      TokenizeFrom(pattern, start, tokens, i - start, token);
      tokens := tokens + [token];
    }
    assert pattern[i..] == "" && tokens + [] == tokens;
    return Some(tokens);
  }

  // ----- The matcher -----

  /** The loop steps that `retries` retries account for, at most `width + 1` each. */
  ghost function Budget(retries: nat, width: nat): nat {
    if retries == 0 then 0 else Budget(retries - 1, width) + width + 1
  }

  lemma {:induction false} BudgetIsProduct(retries: nat, width: nat)
    ensures Budget(retries, width) == retries * (width + 1)
  {
    if retries > 0 {
      BudgetIsProduct(retries - 1, width);
    }
  }

  lemma {:induction false} StepBound(steps: nat, retries: nat, width: nat, length: nat)
    requires steps <= Budget(retries, width) + width + 1 && retries <= length
    ensures steps <= (width + 1) * (length + 1)
  {
    BudgetIsProduct(retries, width);
    assert retries * (width + 1) <= length * (width + 1);
    assert (width + 1) * (length + 1) == length * (width + 1) + width + 1;
  }

  function Absorbed(resume: Resume): nat {
    if resume.NoStar? then 0 else resume.absorbed
  }

  /** One step: a star becomes the latest, a token that fits is passed, anything else retries the latest star. */
  method ScanStep(tokens: seq<GlobToken>, text: string, token: nat, position: nat, resume: Resume)
    returns (alive: bool, token': nat, position': nat, resume': Resume)
    requires Progress(tokens, text, token, position, resume) && position < |text|
    ensures !alive ==> !Matches(tokens, text, 0, 0)
    ensures alive ==> Progress(tokens, text, token', position', resume')
    ensures alive ==>
      if token' == token + 1 then Absorbed(resume) <= Absorbed(resume') else Absorbed(resume') == Absorbed(resume) + 1
  {
    alive, token', position', resume' := true, token + 1, position, resume;
    if token < |tokens| && tokens[token].AnyRun? {
      ProgressAtStar(tokens, text, token, position, resume);
      resume' := LatestStar(token, position);
    } else if token < |tokens| && Fits(tokens[token], text[position]) {
      ProgressAtFit(tokens, text, token, position, resume);
      position' := position + 1;
    } else {
      ProgressAtMismatch(tokens, text, token, position, resume);
      if resume.NoStar? {
        alive := false;
      } else {
        token' := resume.star + 1;
        position' := resume.absorbed + 1;
        resume' := LatestStar(resume.star, resume.absorbed + 1);
      }
    }
  }

  /** The two-pointer loop. */
  method ScanTokens(tokens: seq<GlobToken>, text: string) returns (matched: bool, ghost steps: nat, ghost retries: nat)
    ensures matched <==> Matches(tokens, text, 0, 0)
    ensures retries <= |text| && steps <= Budget(retries, |tokens|) + |tokens| + 1
  {
    var token: nat, position: nat, resume := 0, 0, NoStar;
    steps, retries := 0, 0;
    while position < |text|
      invariant Progress(tokens, text, token, position, resume)
      invariant retries <= Absorbed(resume) <= |text| && steps <= Budget(retries, |tokens|) + token
      decreases |text| - retries, |tokens| - token
    {
      ghost var before := token;
      var alive;
      steps := steps + 1;
      alive, token, position, resume := ScanStep(tokens, text, token, position, resume);
      if !alive {
        return false, steps, retries;
      }
      retries := if token == before + 1 then retries else retries + 1;
    }
    ProgressAtEnd(tokens, text, token, resume);
    matched := AllRuns(tokens[token..]);
  }

  /** Retrying only the latest star decides the glob, within (tokens + 1) * (text + 1) loop steps. */
  method MatchTokens(tokens: seq<GlobToken>, text: string) returns (matched: bool, ghost steps: nat)
    ensures matched <==> Accepts(tokens, text)
    ensures steps <= (|tokens| + 1) * (|text| + 1)
  {
    ghost var retries;
    matched, steps, retries := ScanTokens(tokens, text);
    MatchesIffAccepts(tokens, text);
    StepBound(steps, retries, |tokens|, |text|);
  }

  /** `glob_matches`: a malformed pattern matches nothing; otherwise the whole value must be accepted. */
  method GlobMatches(pattern: string, value: string) returns (matched: bool)
    ensures matched <==> Tokenize(pattern).Some? && Accepts(Tokenize(pattern).value, value)
  {
    var tokens := GlobTokens(pattern);
    if tokens.None? {
      return false;
    }
    ghost var steps;
    matched, steps := MatchTokens(tokens.value, value);
  }

  // ----- The compiled form -----

  /** The regular expressions `compile_glob` builds, without their concrete syntax. */
  datatype Regex = Epsilon | AnyChar | Char(character: char) | Sequence(first: Regex, second: Regex) | Star(body: Regex)

  ghost predicate InLanguage(regex: Regex, text: string)
    decreases regex, |text|
  {
    match regex
    case Epsilon => text == ""
    case AnyChar => |text| == 1
    case Char(c) => text == [c]
    case Sequence(first, second) =>
      exists i :: 0 <= i <= |text| && InLanguage(first, text[..i]) && InLanguage(second, text[i..])
    case Star(body) =>
      text == "" || exists i :: 0 < i <= |text| && InLanguage(body, text[..i]) && InLanguage(regex, text[i..])
  }

  function CompileToken(token: GlobToken): Regex {
    match token
    case AnyRun => Star(AnyChar)
    case AnyOne => AnyChar
    case Literal(c) => Char(c)
  }

  /** The anchored expression of a whole glob: one factor per token, in order. */
  function CompileGlob(tokens: seq<GlobToken>): Regex {
    if tokens == [] then Epsilon else Sequence(CompileToken(tokens[0]), CompileGlob(tokens[1..]))
  }

  lemma {:induction false} StarOfAnyChar(text: string)
    ensures InLanguage(Star(AnyChar), text)
  {
    if text != "" {
      StarOfAnyChar(text[1..]);
      assert InLanguage(AnyChar, text[..1]);
    }
  }

  lemma CompiledTokenAccepts(token: GlobToken, piece: string)
    ensures InLanguage(CompileToken(token), piece) <==> AcceptsPiece(token, piece)
  {
    StarOfAnyChar(piece);
  }

  lemma SplitPrepend(tokens: seq<GlobToken>, text: string, i: nat, pieces: seq<string>)
    requires tokens != [] && i <= |text| && AcceptsPiece(tokens[0], text[..i])
    requires IsSplit(tokens[1..], text[i..], pieces)
    ensures Accepts(tokens, text)
  {
    var all := [text[..i]] + pieces;
    assert Join(all) == text[..i] + text[i..] == text;
    assert IsSplit(tokens, text, all);
  }

  lemma {:induction false} CompiledIsSound(tokens: seq<GlobToken>, text: string)
    requires InLanguage(CompileGlob(tokens), text)
    ensures Accepts(tokens, text)
    decreases |tokens|
  {
    if tokens == [] {
      assert IsSplit(tokens, text, []);
    } else {
      var head, rest := CompileToken(tokens[0]), CompileGlob(tokens[1..]);
      var i :| 0 <= i <= |text| && InLanguage(head, text[..i]) && InLanguage(rest, text[i..]);
      CompiledTokenAccepts(tokens[0], text[..i]);
      CompiledIsSound(tokens[1..], text[i..]);
      var pieces :| IsSplit(tokens[1..], text[i..], pieces);
      SplitPrepend(tokens, text, i, pieces);
    }
  }

  lemma {:induction false} CompiledIsComplete(tokens: seq<GlobToken>, text: string, pieces: seq<string>)
    requires IsSplit(tokens, text, pieces)
    ensures InLanguage(CompileGlob(tokens), text)
    decreases |tokens|
  {
    if tokens != [] {
      var i := |pieces[0]|;
      assert text[..i] == pieces[0] && text[i..] == Join(pieces[1..]);
      CompiledTokenAccepts(tokens[0], text[..i]);
      CompiledIsComplete(tokens[1..], text[i..], pieces[1..]);
    }
  }

  /** A compiled glob accepts exactly what the glob means, hence what the two-pointer matcher decides. */
  lemma {:induction false} CompiledGlobAgrees(tokens: seq<GlobToken>, text: string)
    ensures InLanguage(CompileGlob(tokens), text) <==> Accepts(tokens, text)
  {
    if InLanguage(CompileGlob(tokens), text) {
      CompiledIsSound(tokens, text);
    }
    if pieces :| IsSplit(tokens, text, pieces) {
      CompiledIsComplete(tokens, text, pieces);
    }
  }
}
