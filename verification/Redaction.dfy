/** The redactor (bench/src/redaction.rs): what two JSON trees must share for their sanitized forms to
    be equal, and nothing more. */
module Redaction {
  import opened Wrappers
  import opened Json

  const REDACTED := "[REDACTED]"

  const FRAGMENTS: seq<string> := ["credential", "password", "secret", "token", "private_key", "signing_key"]

  // ----- Keys -----

  function LowerChar(c: char): char {
    if 'A' <= c <= 'Z' then (c as int - 'A' as int + 'a' as int) as char else c
  }

  function Lower(text: string): (lower: string)
    ensures |lower| == |text|
  {
    seq(|text|, i requires 0 <= i < |text| => LowerChar(text[i]))
  }

  predicate Contains(text: string, fragment: string) {
    exists i :: 0 <= i <= |text| && fragment <= text[i..]
  }

  predicate IsSensitive(key: string) {
    exists i :: 0 <= i < |FRAGMENTS| && Contains(Lower(key), FRAGMENTS[i])
  }

  // ----- URLs -----

  /** Where the first "://" starts, or the length. */
  function SchemeEnd(text: string): (i: nat)
    ensures i <= |text|
  {
    if text == "" || "://" <= text then 0 else 1 + SchemeEnd(text[1..])
  }

  /** Where the first slash is, or the length. */
  function FirstSlash(text: string): (i: nat)
    ensures i <= |text| && '/' !in text[..i] && (i < |text| ==> text[i] == '/')
  {
    if text == "" || text[0] == '/' then 0 else 1 + FirstSlash(text[1..])
  }

  /** Where the last at-sign is, if anywhere. */
  function LastAt(text: string): (i: Option<nat>)
    ensures i.None? ==> '@' !in text
    ensures i.Some? ==> i.value < |text| && text[i.value] == '@' && '@' !in text[i.value + 1..]
  {
    if text == "" then None
    else
      var n := |text| - 1;
      if text[n] == '@' then Some(n) else LastAt(text[..n])
  }

  /** What surrounds the user information of a URL: up to and with "://", and from the "@" on. */
  datatype Surroundings = Surroundings(prefix: string, rest: string)

  /** The last at-sign before the first slash, in what follows the scheme. */
  function UserEnd(after: string): Option<nat> {
    LastAt(after[..FirstSlash(after)])
  }

  function Split(text: string): Option<Surroundings> {
    var schemeEnd := SchemeEnd(text);
    if schemeEnd == |text| then None
    else
      var start := Min(schemeEnd + 3, |text|);
      var after := text[start..];
      match UserEnd(after)
      case None => None
      case Some(at) => Some(Surroundings(text[..start], after[at..]))
  }

  function Min(a: nat, b: nat): nat {
    if a <= b then a else b
  }

  function SanitizeString(text: string): string {
    match Split(text)
    case None => text
    case Some(s) => s.prefix + REDACTED + s.rest
  }

  /** A prefix whose only "://" ends it, and a rest that starts with the last "@" of the authority. */
  ghost predicate Encloses(s: Surroundings) {
    && |s.prefix| >= 3 && SchemeEnd(s.prefix) == |s.prefix| - 3
    && StartsAtHost(s.rest)
  }

  lemma {:induction false} SchemeEndFound(text: string)
    ensures SchemeEnd(text) < |text| ==> SchemeEnd(text) + 3 <= |text| && "://" <= text[SchemeEnd(text)..]
  {
    if text != "" && !("://" <= text) {
      SchemeEndFound(text[1..]);
    }
  }

  lemma {:induction false} SchemeEndOfPrefix(text: string, n: nat)
    requires SchemeEnd(text) + 3 <= n <= |text|
    ensures SchemeEnd(text[..n]) == SchemeEnd(text)
  {
    SchemeEndFound(text);
    if text != "" && !("://" <= text) {
      assert text[..n][1..] == text[1..][..n - 1];
      SchemeEndOfPrefix(text[1..], n - 1);
      assert !("://" <= text[..n]);
    } else {
      assert "://" <= text[..n];
    }
  }

  lemma {:induction false} SchemeEndExtends(prefix: string, more: string)
    requires |prefix| >= 3 && SchemeEnd(prefix) == |prefix| - 3
    ensures SchemeEnd(prefix + more) == |prefix| - 3
  {
    SchemeEndFound(prefix);
    if |prefix| > 3 {
      assert prefix != "" && !("://" <= prefix);
      assert (prefix + more)[1..] == prefix[1..] + more;
      SchemeEndExtends(prefix[1..], more);
      assert !("://" <= prefix + more) by {
        assert (prefix + more)[..3] == prefix[..3];
      }
    } else {
      assert prefix == "://" <= prefix + more;
    }
  }

  lemma {:induction false} FirstSlashSkips(head: string, tail: string)
    requires '/' !in head
    ensures FirstSlash(head + tail) == |head| + FirstSlash(tail)
  {
    if head == "" {
      assert head + tail == tail;
    } else {
      assert (head + tail)[1..] == head[1..] + tail;
      FirstSlashSkips(head[1..], tail);
    }
  }

  lemma {:induction false} LastAtSkips(head: string, tail: string)
    requires tail != "" && tail[0] == '@' && '@' !in tail[1..]
    ensures LastAt(head + tail) == Some(|head|)
  {
    if |tail| > 1 {
      var text := head + tail;
      assert text[..|text| - 1] == head + tail[..|tail| - 1];
      assert tail[|tail| - 1] == tail[1..][|tail| - 2];
      assert tail[..|tail| - 1][1..] == tail[1..][..|tail| - 2];
      LastAtSkips(head, tail[..|tail| - 1]);
    }
  }

  ghost predicate StartsAtHost(rest: string) {
    rest != "" && rest[0] == '@' && '@' !in rest[1..FirstSlash(rest)]
  }

  lemma UserEndTakes(after: string, at: nat)
    requires UserEnd(after) == Some(at)
    ensures at < |after| && '/' !in after[..at] && StartsAtHost(after[at..])
  {
  }

  lemma UserEndFinds(user: string, rest: string)
    requires '/' !in user && StartsAtHost(rest)
    ensures UserEnd(user + rest) == Some(|user|)
  {
    FirstSlashSkips(user, rest);
    var cut := FirstSlash(rest);
    assert (user + rest)[..|user| + cut] == user + rest[..cut];
    assert rest[..cut][1..] == rest[1..cut];
    LastAtSkips(user, rest[..cut]);
  }

  lemma SplitShape(text: string) returns (start: nat, at: nat)
    requires Split(text).Some?
    ensures start == SchemeEnd(text) + 3 <= |text| && UserEnd(text[start..]) == Some(at) && at <= |text[start..]|
    ensures Split(text).value == Surroundings(text[..start], text[start..][at..])
  {
    SchemeEndFound(text);
    start := SchemeEnd(text) + 3;
    at := UserEnd(text[start..]).value;
  }

  /** Splitting takes out user information free of slashes. */
  lemma SplitTakesUser(text: string) returns (user: string)
    requires Split(text).Some?
    ensures Encloses(Split(text).value) && '/' !in user
    ensures text == Split(text).value.prefix + user + Split(text).value.rest
  {
    var start, at := SplitShape(text);
    UserEndTakes(text[start..], at);
    user := text[start..][..at];
    assert Encloses(Split(text).value) by {
      SchemeEndOfPrefix(text, start);
    }
    ThreeParts(text, start, at);
  }

  lemma ThreeParts(text: string, start: nat, at: nat)
    requires start + at <= |text|
    ensures text == text[..start] + text[start..][..at] + text[start..][at..]
  {
  }

  /** Any slash-free user information between such surroundings is split off again. */
  lemma {:induction false} SplitFindsUser(s: Surroundings, user: string)
    requires Encloses(s) && '/' !in user
    ensures Split(s.prefix + user + s.rest) == Some(s)
  {
    var after := user + s.rest;
    assert s.prefix + user + s.rest == s.prefix + after;
    SchemeEndExtends(s.prefix, after);
    UserEndFinds(user, s.rest);
    assert after[|user|..] == s.rest && (s.prefix + after)[|s.prefix|..] == after;
  }

  lemma RedactedHasNoSlash()
    ensures '/' !in REDACTED
  {
  }

  /** Two strings sanitize alike exactly when they are equal or differ only in their user information. */
  ghost predicate AlikeText(a: string, b: string) {
    a == b || (Split(a).Some? && Split(a) == Split(b))
  }

  lemma SanitizedSplit(text: string)
    ensures Split(SanitizeString(text)) == Split(text)
  {
    if Split(text).Some? {
      var user := SplitTakesUser(text);
      RedactedHasNoSlash();
      SplitFindsUser(Split(text).value, REDACTED);
    }
  }

  lemma SanitizeStringKernel(a: string, b: string)
    ensures SanitizeString(a) == SanitizeString(b) <==> AlikeText(a, b)
  {
    SanitizedSplit(a);
    SanitizedSplit(b);
  }

  lemma SanitizeStringIdempotent(text: string)
    ensures SanitizeString(SanitizeString(text)) == SanitizeString(text)
  {
    SanitizedSplit(text);
  }

  lemma HostEncloses(scheme: string, host: string, tail: string)
    requires SchemeEnd(scheme + "://") == |scheme|
    requires '@' !in host && '/' !in host && (tail == "" || tail[0] == '/')
    ensures Encloses(Surroundings(scheme + "://", "@" + host + tail))
  {
    var head, rest := "@" + host, "@" + host + tail;
    FirstSlashSkips(head, tail);
    assert rest[1..FirstSlash(rest)] == host;
  }

  /** The user information of a URL is masked as a whole exactly when it holds no slash: the code ends
      the authority at the first one. */
  lemma UserMaskedIffNoSlash(scheme: string, user: string, host: string, tail: string)
    requires SchemeEnd(scheme + "://") == |scheme|
    requires '@' !in host && '/' !in host && (tail == "" || tail[0] == '/')
    ensures (SanitizeString(scheme + "://" + user + ("@" + host + tail))
             == scheme + "://" + REDACTED + ("@" + host + tail)) <==> '/' !in user
  {
    var s := Surroundings(scheme + "://", "@" + host + tail);
    var text, masked := s.prefix + user + s.rest, s.prefix + REDACTED + s.rest;
    HostEncloses(scheme, host, tail);
    RedactedHasNoSlash();
    if '/' !in user {
      SplitFindsUser(s, user);
    } else if SanitizeString(text) == masked {
      SplitFindsUser(s, REDACTED);
      SanitizedSplit(text);
      var found := SplitTakesUser(text);
      assert s.prefix + found + s.rest == s.prefix + user + s.rest;
      SameMiddle(s.prefix, found, user, s.rest);
    }
  }

  lemma SameMiddle(prefix: string, a: string, b: string, rest: string)
    requires prefix + a + rest == prefix + b + rest
    ensures a == b
  {
    var text := prefix + a + rest;
    assert |a| == |b|;
    assert text[|prefix|..|prefix| + |a|] == a && (prefix + b + rest)[|prefix|..|prefix| + |b|] == b;
  }

  /** A slash before the first at-sign leaves everything readable, whatever follows it. */
  lemma SlashLeavesUserReadable(prefix: string, start: string, path: string)
    requires |prefix| >= 3 && SchemeEnd(prefix) == |prefix| - 3
    requires '/' !in start && '@' !in start && path != "" && path[0] == '/'
    ensures SanitizeString(prefix + (start + path)) == prefix + (start + path)
  {
    var after := start + path;
    assert UserEnd(after).None? by {
      FirstSlashSkips(start, path);
      assert after[..|start|] == start;
    }
    SchemeEndExtends(prefix, after);
    NothingToSplit(prefix, after);
  }

  lemma NothingToSplit(prefix: string, after: string)
    requires |prefix| >= 3 && SchemeEnd(prefix + after) == |prefix| - 3 && UserEnd(after).None?
    ensures Split(prefix + after).None?
  {
  }

  // ----- Trees -----

  function SanitizeEntry(key: string, value: Value): Value
    decreases value
  {
    if IsSensitive(key) then String(REDACTED)
    else match value
      case Object(fields) => Object(map k | k in fields :: SanitizeEntry(k, fields[k]))
      case Array(items) => Array(seq(|items|, i requires 0 <= i < |items| => SanitizeEntry(key, items[i])))
      case String(text) => String(SanitizeString(text))
      case _ => value
  }

  /** What the redactor cannot tell apart under a key: anything under a sensitive key, user information
      in strings, and otherwise only equal shapes with indistinguishable parts. */
  ghost predicate Alike(key: string, a: Value, b: Value)
    decreases a
  {
    IsSensitive(key)
    || match a
    case Object(fields) =>
      b.Object? && fields.Keys == b.fields.Keys && forall k :: k in fields ==> Alike(k, fields[k], b.fields[k])
    case Array(items) =>
      b.Array? && |items| == |b.items| && forall i :: 0 <= i < |items| ==> Alike(key, items[i], b.items[i])
    case String(text) => b.String? && AlikeText(text, b.text)
    case _ => a == b
  }

  /** Sanitized values are equal exactly when the originals are alike. */
  lemma {:induction false} SanitizeKernel(key: string, a: Value, b: Value)
    ensures SanitizeEntry(key, a) == SanitizeEntry(key, b) <==> Alike(key, a, b)
    decreases a
  {
    if IsSensitive(key) {
    } else if a.Object? && b.Object? {
      ObjectKernel(key, a, b);
    } else if a.Array? && b.Array? {
      ArrayKernel(key, a, b);
    } else if a.String? && b.String? {
      SanitizeStringKernel(a.text, b.text);
    }
  }

  lemma {:induction false} ObjectKernel(key: string, a: Value, b: Value)
    requires !IsSensitive(key) && a.Object? && b.Object?
    ensures SanitizeEntry(key, a) == SanitizeEntry(key, b) <==> Alike(key, a, b)
    decreases a, 0
  {
    var x, y := SanitizeEntry(key, a).fields, SanitizeEntry(key, b).fields;
    assert x.Keys == a.fields.Keys && y.Keys == b.fields.Keys;
    forall k | k in a.fields && k in b.fields ensures x[k] == y[k] <==> Alike(k, a.fields[k], b.fields[k]) {
      SanitizeKernel(k, a.fields[k], b.fields[k]);
    }
    if Alike(key, a, b) {
      assert x == y;
    }
    if x == y {
      assert a.fields.Keys == b.fields.Keys;
      forall k | k in a.fields ensures Alike(k, a.fields[k], b.fields[k]) {
        assert x[k] == y[k];
      }
    }
  }

  lemma {:induction false} ArrayKernel(key: string, a: Value, b: Value)
    requires !IsSensitive(key) && a.Array? && b.Array?
    ensures SanitizeEntry(key, a) == SanitizeEntry(key, b) <==> Alike(key, a, b)
    decreases a, 0
  {
    var x, y := SanitizeEntry(key, a).items, SanitizeEntry(key, b).items;
    forall i | 0 <= i < |a.items| && i < |b.items| ensures x[i] == y[i] <==> Alike(key, a.items[i], b.items[i]) {
      SanitizeKernel(key, a.items[i], b.items[i]);
    }
    if Alike(key, a, b) {
      assert x == y;
    }
  }

  lemma {:induction false} SanitizeIdempotent(key: string, value: Value)
    ensures SanitizeEntry(key, SanitizeEntry(key, value)) == SanitizeEntry(key, value)
    decreases value
  {
    if !IsSensitive(key) {
      match value
      case Object(fields) =>
        forall k | k in fields ensures SanitizeEntry(k, SanitizeEntry(k, fields[k])) == SanitizeEntry(k, fields[k]) {
          SanitizeIdempotent(k, fields[k]);
        }
        var once := SanitizeEntry(key, value);
        assert SanitizeEntry(key, once).fields == once.fields;
      case Array(items) =>
        forall i | 0 <= i < |items|
          ensures SanitizeEntry(key, SanitizeEntry(key, items[i])) == SanitizeEntry(key, items[i])
        {
          SanitizeIdempotent(key, items[i]);
        }
        var once := SanitizeEntry(key, value);
        assert SanitizeEntry(key, once).items == once.items;
      case String(text) =>
        SanitizeStringIdempotent(text);
      case _ =>
    }
  }

  // ----- Objects behind an allowlist -----

  function SanitizeObject(allowed: set<string>, value: Value): Value {
    if value.Object?
    then Object(map k | k in value.fields && k in allowed :: SanitizeEntry(k, value.fields[k]))
    else Object(map[])
  }

  function Fields(value: Value): map<string, Value> {
    if value.Object? then value.fields else map[]
  }

  /** Two values sanitize to the same object exactly when they hold the same allowed keys and agree under
      each, up to what redaction hides; whatever else they hold never shows. */
  lemma {:induction false} SanitizeObjectKernel(allowed: set<string>, a: Value, b: Value)
    ensures SanitizeObject(allowed, a) == SanitizeObject(allowed, b) <==>
      && (forall k :: k in allowed ==> (k in Fields(a) <==> k in Fields(b)))
      && (forall k :: k in allowed && k in Fields(a) && k in Fields(b) ==> Alike(k, Fields(a)[k], Fields(b)[k]))
  {
    var x, y := SanitizeObject(allowed, a).fields, SanitizeObject(allowed, b).fields;
    assert forall k :: k in x <==> k in allowed && k in Fields(a);
    assert forall k :: k in y <==> k in allowed && k in Fields(b);
    forall k | k in x && k in y ensures x[k] == y[k] <==> Alike(k, Fields(a)[k], Fields(b)[k]) {
      SanitizeKernel(k, Fields(a)[k], Fields(b)[k]);
    }
    if (forall k :: k in allowed ==> (k in Fields(a) <==> k in Fields(b)))
       && (forall k :: k in allowed && k in Fields(a) && k in Fields(b) ==> Alike(k, Fields(a)[k], Fields(b)[k])) {
      assert x == y;
    }
    if x == y {
      forall k | k in allowed ensures k in Fields(a) <==> k in Fields(b) {
        assert k in x <==> k in y;
      }
    }
  }

  lemma SanitizeObjectIdempotent(allowed: set<string>, value: Value)
    ensures SanitizeObject(allowed, SanitizeObject(allowed, value)) == SanitizeObject(allowed, value)
  {
    var once := SanitizeObject(allowed, value).fields;
    forall k | k in once ensures SanitizeEntry(k, once[k]) == once[k] {
      SanitizeIdempotent(k, Fields(value)[k]);
    }
    assert SanitizeObject(allowed, Object(once)).fields == once;
  }
}
