/** Content ids: two salted 64-bit FNV-1a passes rendered as 26 Crockford base32 characters
    (bdd/python/reference.py; the Rust original is wire/src/hashing.rs). */
module ContentId {
  import opened Octets
  import opened Ordering

  const U64: nat := 0x1_0000_0000_0000_0000
  const FNV_OFFSET: nat := 0xCBF2_9CE4_8422_2325
  const FNV_PRIME: nat := 0x100_0000_01B3
  const FNV_PRIME_INVERSE: nat := 0xCE96_5057_AFF6_957B

  // ----- The hash -----

  /** Bitwise exclusive or of naturals. */
  function Xor(a: nat, b: nat): nat {
    if a == 0 && b == 0 then 0
    else (if a % 2 == b % 2 then 0 else 1) + 2 * Xor(a / 2, b / 2)
  }

  /** Exclusive or, then a product with the FNV prime modulo 2^64. */
  function Absorb(hash: nat, b: byte): (r: nat)
    ensures r < U64
  {
    Xor(hash, b as nat) * FNV_PRIME % U64
  }

  function AbsorbAll(hash: nat, data: Bytes): (r: nat)
    ensures hash < U64 ==> r < U64
    decreases |data|
  {
    if data == [] then hash else AbsorbAll(Absorb(hash, data[0]), data[1..])
  }

  function Fnv1a(salt: byte, data: Bytes): (r: nat)
    ensures r < U64
  {
    AbsorbAll(Absorb(FNV_OFFSET, salt), data)
  }

  lemma XorLastBit(a: nat, b: nat)
    ensures Xor(a, b) % 2 == (if a % 2 == b % 2 then 0 else 1) && Xor(a, b) / 2 == Xor(a / 2, b / 2)
  {
  }

  lemma {:induction false} XorUndone(a: nat, b: nat)
    ensures Xor(Xor(a, b), b) == a && Xor(a, Xor(a, b)) == b
  {
    if a != 0 || b != 0 {
      var x := Xor(a, b);
      XorUndone(a / 2, b / 2);
      XorLastBit(a, b);
      assert Xor(x, b) == a by { XorLastBit(x, b); }
      assert Xor(a, x) == b by { XorLastBit(a, x); }
    }
  }

  ghost function Pow2(n: nat): nat {
    if n == 0 then 1 else 2 * Pow2(n - 1)
  }

  lemma {:induction false} XorBound(a: nat, b: nat, bits: nat)
    requires a < Pow2(bits) && b < Pow2(bits)
    ensures Xor(a, b) < Pow2(bits)
    decreases bits
  {
    if bits > 0 {
      XorBound(a / 2, b / 2, bits - 1);
    }
  }

  lemma XorFits(hash: nat, b: byte)
    requires hash < U64
    ensures Xor(hash, b as nat) < U64
  {
    assert Pow2(8) == 256;
    assert Pow2(16) == 0x1_0000;
    assert Pow2(24) == 0x100_0000;
    assert Pow2(32) == 0x1_0000_0000;
    assert Pow2(40) == 0x100_0000_0000;
    assert Pow2(48) == 0x1_0000_0000_0000;
    assert Pow2(56) == 0x100_0000_0000_0000;
    assert Pow2(64) == U64;
    XorBound(hash, b as nat, 64);
  }

  /** Modulo 2^64 the prime has an inverse, so multiplying by it loses nothing. */
  lemma PrimeIsInvertible(x: nat, y: nat)
    requires x < U64 && y < U64 && x * FNV_PRIME % U64 == y * FNV_PRIME % U64
    ensures x == y
  {
    assert FNV_PRIME * FNV_PRIME_INVERSE == 1 + 0xce9650590f * U64;
    var q := x * FNV_PRIME / U64 - y * FNV_PRIME / U64;
    assert (x - y) * FNV_PRIME == q * U64;
    assert (x - y) * FNV_PRIME * FNV_PRIME_INVERSE == (x - y) + (x - y) * 0xce9650590f * U64;
    assert x - y == (q * FNV_PRIME_INVERSE - (x - y) * 0xce9650590f) * U64;
  }

  /** One step is injective in the state for a fixed byte, and in the byte for a fixed state. */
  lemma AbsorbInjective(h: nat, h': nat, b: byte, b': byte)
    requires h < U64 && h' < U64 && Absorb(h, b) == Absorb(h', b')
    ensures b == b' ==> h == h'
    ensures h == h' ==> b == b'
  {
    XorFits(h, b);
    XorFits(h', b');
    PrimeIsInvertible(Xor(h, b as nat), Xor(h', b' as nat));
    XorUndone(h, b as nat);
    XorUndone(h', b' as nat);
  }

  /** Different states stay different however much equal data follows. */
  lemma {:induction false} AbsorbAllInjective(h: nat, h': nat, data: Bytes)
    requires h < U64 && h' < U64 && h != h'
    ensures AbsorbAll(h, data) != AbsorbAll(h', data)
    decreases |data|
  {
    if data != [] {
      if Absorb(h, data[0]) == Absorb(h', data[0]) {
        AbsorbInjective(h, h', data[0], data[0]);
      }
      AbsorbAllInjective(Absorb(h, data[0]), Absorb(h', data[0]), data[1..]);
    }
  }

  lemma {:induction false} AbsorbAllConcat(h: nat, a: Bytes, b: Bytes)
    ensures AbsorbAll(h, a + b) == AbsorbAll(AbsorbAll(h, a), b)
    decreases |a|
  {
    if a == [] {
      assert a + b == b;
    } else {
      AbsorbAllConcat(Absorb(h, a[0]), a[1..], b);
      assert (a + b)[1..] == a[1..] + b;
    }
  }

  /** A single changed byte always changes the hash. */
  lemma OneByteChangesHash(salt: byte, before: Bytes, b: byte, b': byte, after: Bytes)
    requires b != b'
    ensures Fnv1a(salt, before + [b] + after) != Fnv1a(salt, before + [b'] + after)
  {
    var h := Absorb(FNV_OFFSET, salt);
    var mid := AbsorbAll(h, before);
    AbsorbAllConcat(h, before, [b] + after);
    AbsorbAllConcat(h, before, [b'] + after);
    assert before + [b] + after == before + ([b] + after) && before + [b'] + after == before + ([b'] + after);
    assert ([b] + after)[1..] == after && ([b'] + after)[1..] == after;
    if Absorb(mid, b) == Absorb(mid, b') {
      AbsorbInjective(mid, mid, b, b');
    }
    AbsorbAllInjective(Absorb(mid, b), Absorb(mid, b'), after);
  }

  /** Differently salted passes over the same data never agree. */
  lemma SaltsSeparate(salt: byte, salt': byte, data: Bytes)
    requires salt != salt'
    ensures Fnv1a(salt, data) != Fnv1a(salt', data)
  {
    if Absorb(FNV_OFFSET, salt) == Absorb(FNV_OFFSET, salt') {
      AbsorbInjective(FNV_OFFSET, FNV_OFFSET, salt, salt');
    }
    AbsorbAllInjective(Absorb(FNV_OFFSET, salt), Absorb(FNV_OFFSET, salt'), data);
  }

  method HashLoop(salt: byte, data: Bytes) returns (value: nat)
    ensures value == Fnv1a(salt, data)
  {
    var all := [salt] + data;
    value := FNV_OFFSET;
    assert all[1..] == data && all[0..] == all;
    for i := 0 to |all|
      invariant AbsorbAll(value, all[i..]) == Fnv1a(salt, data)
    {
      assert all[i..][1..] == all[i + 1..];
      value := Absorb(value, all[i]);
    }
  }

  // ----- Segments -----

  ghost function Flatten(segments: seq<Bytes>): Bytes {
    if segments == [] then [] else segments[0] + Flatten(segments[1..])
  }

  function AbsorbSegments(hash: nat, segments: seq<Bytes>): nat
    decreases |segments|
  {
    if segments == [] then hash else AbsorbSegments(AbsorbAll(hash, segments[0]), segments[1..])
  }

  /** Hashing segment by segment, as the Rust side does, is hashing their concatenation. */
  lemma {:induction false} SegmentsAreConcatenation(hash: nat, segments: seq<Bytes>)
    ensures AbsorbSegments(hash, segments) == AbsorbAll(hash, Flatten(segments))
    decreases |segments|
  {
    if segments != [] {
      SegmentsAreConcatenation(AbsorbAll(hash, segments[0]), segments[1..]);
      AbsorbAllConcat(hash, segments[0], Flatten(segments[1..]));
    }
  }

  // ----- Crockford base32 -----

  const CROCKFORD := "0123456789ABCDEFGHJKMNPQRSTVWXYZ"

  const ID_LENGTH: nat := 26

  ghost function Pow32(n: nat): nat {
    if n == 0 then 1 else 32 * Pow32(n - 1)
  }

  /** The low `n` base-32 digits of `value`, most significant first. */
  function Digits(value: nat, n: nat): (text: string)
    ensures |text| == n
  {
    if n == 0 then "" else Digits(value / 32, n - 1) + [CROCKFORD[value % 32]]
  }

  lemma SymbolsAscend(i: nat, j: nat)
    requires i < j < 32
    ensures CROCKFORD[i] < CROCKFORD[j]
    decreases j - i
  {
    assert forall k :: 0 <= k < 31 ==> CROCKFORD[k] < CROCKFORD[k + 1];
    if i + 1 < j {
      SymbolsAscend(i + 1, j);
    }
  }

  lemma {:induction false} TextLeqAppend(a: string, b: string, c: char, d: char)
    requires |a| == |b|
    ensures TextLeq(a + [c], b + [d]) <==> (TextLeq(a, b) && (a == b ==> c <= d))
  {
    if a == "" {
      assert a + [c] == [c] && b + [d] == [d];
      assert [c][1..] == "" && [d][1..] == "";
    } else {
      TextLeqAppend(a[1..], b[1..], c, d);
      assert (a + [c])[1..] == a[1..] + [c] && (b + [d])[1..] == b[1..] + [d];
      assert a == [a[0]] + a[1..] && b == [b[0]] + b[1..];
    }
  }

  /** Below 32^n the rendering is injective and lexical order is numeric order. */
  lemma {:induction false} DigitsOrder(v: nat, w: nat, n: nat)
    requires v < Pow32(n) && w < Pow32(n)
    ensures TextLeq(Digits(v, n), Digits(w, n)) <==> v <= w
    ensures Digits(v, n) == Digits(w, n) <==> v == w
    decreases n
  {
    if n > 0 {
      DigitsOrder(v / 32, w / 32, n - 1);
      var a, b := Digits(v / 32, n - 1), Digits(w / 32, n - 1);
      var i, j := v % 32, w % 32;
      TextLeqAppend(a, b, CROCKFORD[i], CROCKFORD[j]);
      if i < j { SymbolsAscend(i, j); }
      if j < i { SymbolsAscend(j, i); }
      assert Digits(v, n)[..n - 1] == a && Digits(w, n)[..n - 1] == b;
      assert Digits(v, n)[n - 1] == CROCKFORD[i] && Digits(w, n)[n - 1] == CROCKFORD[j];
    }
  }

  method Crockford(value: nat) returns (text: string)
    ensures text == Digits(value, ID_LENGTH)
  {
    var out := new char[ID_LENGTH];
    var rest := value;
    var index := ID_LENGTH;
    while index > 0
      invariant 0 <= index <= ID_LENGTH
      invariant Digits(value, ID_LENGTH) == Digits(rest, index) + out[index..]
    {
      ghost var tail, before := out[index..], rest;
      index := index - 1;
      out[index] := CROCKFORD[rest % 32];
      rest := rest / 32;
      assert out[index..] == [CROCKFORD[before % 32]] + tail;
    }
    text := out[..];
  }

  // ----- Memory ids -----

  /** Unset stream, owner, unset user and application, kind, body: the hashed bytes. */
  function Seed(agent: Bytes, kind: byte, body: Bytes): Bytes {
    [0] + agent + [0, 0, 0, kind] + body
  }

  function IdValue(seed: Bytes): nat {
    Fnv1a(0x4D, seed) * U64 + Fnv1a(0xC7, seed)
  }

  function MemoryContentId(agent: Bytes, kind: byte, body: Bytes): string {
    Digits(IdValue(Seed(agent, kind, body)), ID_LENGTH)
  }

  lemma IdValueFits(seed: Bytes)
    ensures IdValue(seed) < Pow32(ID_LENGTH)
  {
    assert Pow32(26) == 0x4_0000_0000_0000_0000_0000_0000_0000_0000 by {
      assert Pow32(5) == 0x200_0000;
      assert Pow32(10) == 0x4_0000_0000_0000;
      assert Pow32(15) == 0x800_0000_0000_0000_0000;
      assert Pow32(20) == 0x10_0000_0000_0000_0000_0000_0000;
      assert Pow32(25) == 0x2000_0000_0000_0000_0000_0000_0000_0000;
    }
  }

  /** Ids are equal exactly when both halves of the hash are. */
  lemma IdsEqualIffHalvesEqual(seed: Bytes, seed': Bytes)
    ensures Digits(IdValue(seed), ID_LENGTH) == Digits(IdValue(seed'), ID_LENGTH)
        <==> Fnv1a(0x4D, seed) == Fnv1a(0x4D, seed') && Fnv1a(0xC7, seed) == Fnv1a(0xC7, seed')
  {
    IdValueFits(seed);
    IdValueFits(seed');
    DigitsOrder(IdValue(seed), IdValue(seed'), ID_LENGTH);
  }

  /** Bodies of one owner and kind that differ in exactly one byte never share an id. */
  lemma OneByteChangesId(agent: Bytes, kind: byte, body: Bytes, k: nat, byte: byte)
    requires k < |body| && body[k] != byte
    ensures MemoryContentId(agent, kind, body) != MemoryContentId(agent, kind, body[k := byte])
  {
    var before, after := [0] + agent + [0, 0, 0, kind] + body[..k], body[k + 1..];
    assert Seed(agent, kind, body) == before + [body[k]] + after;
    assert Seed(agent, kind, body[k := byte]) == before + [byte] + after;
    OneByteChangesHash(0x4D, before, body[k], byte, after);
    IdsEqualIffHalvesEqual(Seed(agent, kind, body), Seed(agent, kind, body[k := byte]));
  }

  /** The two halves of an id never coincide. */
  lemma HalvesDiffer(agent: Bytes, kind: byte, body: Bytes)
    ensures Fnv1a(0x4D, Seed(agent, kind, body)) != Fnv1a(0xC7, Seed(agent, kind, body))
  {
    SaltsSeparate(0x4D, 0xC7, Seed(agent, kind, body));
  }

  /** For one owner the hashed bytes tell kinds and bodies apart. */
  lemma SeedDetermines(agent: Bytes, kind: byte, body: Bytes, kind': byte, body': Bytes)
    requires Seed(agent, kind, body) == Seed(agent, kind', body')
    ensures kind == kind' && body == body'
  {
    var seed, n := Seed(agent, kind, body), |agent|;
    assert seed[4 + n] == kind && seed[4 + n] == kind';
    assert seed[5 + n..] == body && seed[5 + n..] == body';
  }

  ghost predicate ShareSeed(agent: Bytes, agent': Bytes) {
    exists kind: byte, body: Bytes, kind': byte, body': Bytes :: Seed(agent, kind, body) == Seed(agent', kind', body')
  }

  /** The longer owner goes on with zero bytes, for three bytes or to its end. */
  predicate Overruns(agent: Bytes, longer: Bytes) {
    agent < longer && forall i :: |agent| <= i < |longer| && i < |agent| + 3 ==> longer[i] == 0
  }

  /** Two owners can produce the same hashed bytes, hence the same id, exactly when one overruns the other. */
  lemma OwnersShareSeedIff(agent: Bytes, agent': Bytes)
    requires agent != agent'
    ensures ShareSeed(agent, agent') <==> Overruns(agent, agent') || Overruns(agent', agent)
  {
    if ShareSeed(agent, agent') {
      var kind, body, kind', body' :| Seed(agent, kind, body) == Seed(agent', kind', body');
      if |agent| <= |agent'| {
        SharedSeedOverruns(agent, kind, body, agent', kind', body');
      } else {
        SharedSeedOverruns(agent', kind', body', agent, kind, body);
      }
    }
    if Overruns(agent, agent') {
      OverrunShares(agent, agent');
    }
    if Overruns(agent', agent) {
      OverrunShares(agent', agent);
    }
  }

  lemma SharedSeedOverruns(agent: Bytes, kind: byte, body: Bytes, longer: Bytes, kind': byte, body': Bytes)
    requires Seed(agent, kind, body) == Seed(longer, kind', body') && |agent| <= |longer| && agent != longer
    ensures Overruns(agent, longer)
  {
    var seed, n := Seed(agent, kind, body), |agent|;
    assert seed[1..1 + |longer|] == longer && seed[1..1 + n] == agent;
    assert longer[..n] == agent;
    assert seed[1 + n] == 0 && seed[2 + n] == 0 && seed[3 + n] == 0;
    assert forall i :: 0 <= i < |longer| ==> longer[i] == seed[1 + i];
  }

  lemma OverrunShares(agent: Bytes, longer: Bytes)
    requires Overruns(agent, longer)
    ensures ShareSeed(agent, longer) && ShareSeed(longer, agent)
  {
    var seed, n := Seed(longer, 0, []), |agent|;
    assert seed[1..1 + |longer|] == longer;
    assert forall j :: 1 + |longer| <= j < 5 + |longer| ==> seed[j] == 0;
    assert forall j :: 1 + n <= j < 4 + n ==> seed[j] == if j - 1 < |longer| then longer[j - 1] else 0;
    assert seed[1..1 + n] == agent;
    assert seed == Seed(agent, seed[4 + n], seed[5 + n..]);
  }
}
