/** Event keys: `CanonicalEventKey::stable_key` as the indexer prints it
    (indexer/crates/dusk-ingestion/src/lib.rs) and `canonicalCursorKey` as the API
    checks it (api/src/services/duskEventHistory.ts). */
module EventKeys {
  import opened TextOrder
  import opened Decimal

  const BAR: CodeUnit := 0x7C
  const DOT: CodeUnit := 0x2E

  function Join(parts: seq<Text>, d: CodeUnit): Text {
    if parts == [] then []
    else if |parts| == 1 then parts[0]
    else parts[0] + [d] + Join(parts[1..], d)
  }

  /** `text.split(d)`: always at least one part. */
  function Split(t: Text, d: CodeUnit): (parts: seq<Text>)
    ensures |parts| > 0
  {
    if t == [] then [[]]
    else if t[0] == d then [[]] + Split(t[1..], d)
    else
      var rest := Split(t[1..], d);
      [[t[0]] + rest[0]] + rest[1..]
  }

  lemma {:induction false} SplitPart(part: Text, d: CodeUnit)
    requires d !in part
    ensures Split(part, d) == [part]
  {
    if part != [] {
      assert part == [part[0]] + part[1..];
      SplitPart(part[1..], d);
    }
  }

  lemma {:induction false} SplitAfter(part: Text, d: CodeUnit, rest: Text)
    requires d !in part
    ensures Split(part + ([d] + rest), d) == [part] + Split(rest, d)
  {
    if part == [] {
      assert part + ([d] + rest) == [d] + rest && ([d] + rest)[1..] == rest;
    } else {
      var tail := part[1..] + ([d] + rest);
      assert part == [part[0]] + part[1..];
      assert part + ([d] + rest) == [part[0]] + tail && ([part[0]] + tail)[1..] == tail;
      SplitAfter(part[1..], d, rest);
    }
  }

  lemma {:induction false} SplitJoin(parts: seq<Text>, d: CodeUnit)
    requires |parts| > 0 && forall i :: 0 <= i < |parts| ==> d !in parts[i]
    ensures Split(Join(parts, d), d) == parts
  {
    if |parts| == 1 {
      SplitPart(parts[0], d);
    } else {
      SplitAfter(parts[0], d, Join(parts[1..], d));
      assert Join(parts, d) == parts[0] + ([d] + Join(parts[1..], d));
      SplitJoin(parts[1..], d);
      assert parts == [parts[0]] + parts[1..];
    }
  }

  /** `identity` is cluster, program, IDL hash and revision. */
  datatype EventKey = EventKey(identity: seq<Text>, signature: Text, path: seq<nat>, ordinal: nat)

  /** u16 numbers, a non-empty path, and no part holding the delimiter. */
  ghost predicate ValidKey(k: EventKey) {
    && |k.identity| == 4 && (forall i :: 0 <= i < 4 ==> BAR !in k.identity[i])
    && 0 < |k.signature| <= 128 && BAR !in k.signature
    && |k.path| > 0 && (forall i :: 0 <= i < |k.path| ==> k.path[i] <= 65535)
    && k.ordinal <= 65535
  }

  function PathParts(path: seq<nat>): (r: seq<Text>)
    ensures |r| == |path|
  {
    seq(|path|, i requires 0 <= i < |path| => Digits(path[i]))
  }

  function Parts(k: EventKey): (r: seq<Text>)
    ensures |r| == |k.identity| + 3
  {
    k.identity + [k.signature, Join(PathParts(k.path), DOT), Digits(k.ordinal)]
  }

  function StableKey(k: EventKey): Text {
    Join(Parts(k), BAR)
  }

  predicate IsBase58(c: CodeUnit) {
    || 0x31 <= c <= 0x39
    || (0x41 <= c <= 0x5A && c != 0x49 && c != 0x4F)
    || (0x61 <= c <= 0x7A && c != 0x6C)
  }

  predicate IsSignature(t: Text) {
    64 <= |t| <= 88 && forall i :: 0 <= i < |t| ==> IsBase58(t[i])
  }

  predicate IsU16(t: Text) {
    IsDecimal(t) && |t| <= 5 && Value(t) <= 65535
  }

  /** The check a cursor's key must pass. */
  predicate CursorKey(t: Text, identity: seq<Text>)
    requires |identity| == 4
  {
    var parts := Split(t, BAR);
    && |t| <= 1024
    && |parts| == 7
    && parts[..4] == identity
    && IsSignature(parts[4])
    && var path := Split(parts[5], DOT);
       |path| <= 64 && (forall i :: 0 <= i < |path| ==> IsU16(path[i])) && IsU16(parts[6])
  }

  lemma {:induction false} DigitsAreU16(n: nat)
    requires n <= 65535
    ensures IsU16(Digits(n)) && BAR !in Digits(n) && DOT !in Digits(n)
  {
    DigitsRoundTrip(n);
    assert Pow10(5) == 100000 by {
      assert Pow10(3) == 1000;
    }
    DigitsLength(n, 5);
  }

  lemma {:induction false} JoinLacks(parts: seq<Text>, d: CodeUnit, c: CodeUnit)
    requires c != d && forall i :: 0 <= i < |parts| ==> c !in parts[i]
    ensures c !in Join(parts, d)
  {
    if |parts| > 1 {
      JoinLacks(parts[1..], d, c);
    }
  }

  lemma {:induction false} PathSplits(path: seq<nat>)
    requires |path| > 0 && forall i :: 0 <= i < |path| ==> path[i] <= 65535
    ensures Split(Join(PathParts(path), DOT), DOT) == PathParts(path)
    ensures BAR !in Join(PathParts(path), DOT)
    ensures forall i :: 0 <= i < |path| ==> IsU16(PathParts(path)[i])
  {
    forall i | 0 <= i < |path|
      ensures IsU16(PathParts(path)[i]) && BAR !in PathParts(path)[i] && DOT !in PathParts(path)[i]
    {
      DigitsAreU16(path[i]);
    }
    SplitJoin(PathParts(path), DOT);
    JoinLacks(PathParts(path), DOT, BAR);
  }

  lemma {:induction false} StableKeySplits(k: EventKey)
    requires ValidKey(k)
    ensures Split(StableKey(k), BAR) == Parts(k)
  {
    PathSplits(k.path);
    DigitsAreU16(k.ordinal);
    forall i | 0 <= i < |Parts(k)| ensures BAR !in Parts(k)[i] {
    }
    SplitJoin(Parts(k), BAR);
  }

  /** A stable key is accepted back in a cursor exactly when its signature is
      base58 of 64 to 88 characters, its path at most 64 deep and its text at
      most 1024 long. */
  lemma {:induction false} CursorKeyAccepts(k: EventKey)
    requires ValidKey(k)
    ensures CursorKey(StableKey(k), k.identity) <==>
            |StableKey(k)| <= 1024 && IsSignature(k.signature) && |k.path| <= 64
  {
    StableKeySplits(k);
    PathSplits(k.path);
    DigitsAreU16(k.ordinal);
    var parts := Parts(k);
    assert parts[..4] == k.identity && parts[4] == k.signature;
    assert parts[5] == Join(PathParts(k.path), DOT) && parts[6] == Digits(k.ordinal);
  }

  // ----- what the check accepts -----

  /** The base58 alphabet: no zero, no capital I or O, no small l. */
  predicate InAlphabet(c: CodeUnit) {
    c < 128 && c as char in {
      '1', '2', '3', '4', '5', '6', '7', '8', '9',
      'A', 'B', 'C', 'D', 'E', 'F', 'G', 'H', 'J', 'K', 'L', 'M', 'N', 'P', 'Q', 'R', 'S', 'T', 'U', 'V', 'W', 'X', 'Y', 'Z',
      'a', 'b', 'c', 'd', 'e', 'f', 'g', 'h', 'i', 'j', 'k', 'm', 'n', 'o', 'p', 'q', 'r', 's', 't', 'u', 'v', 'w', 'x', 'y', 'z'}
  }

  /** The key of an event that the indexer may print and a cursor may carry. */
  ghost predicate MayCarry(k: EventKey) {
    && ValidKey(k)
    && 64 <= |k.signature| && |k.signature| < 89 && (forall c :: c in k.signature ==> InAlphabet(c))
    && |k.path| < 65 && |StableKey(k)| < 1025
  }

  lemma {:induction false} AlphabetIs(c: CodeUnit)
    ensures IsBase58(c) <==> InAlphabet(c)
  {
    if c < 128 {
      assert (c as char) as int == c;
    }
  }

  lemma {:induction false} SignatureIs(t: Text)
    ensures IsSignature(t) <==> 64 <= |t| && |t| < 89 && forall c :: c in t ==> InAlphabet(c)
  {
    hide IsBase58, InAlphabet;
    if IsSignature(t) {
      forall c | c in t ensures InAlphabet(c) {
        AlphabetIs(c);
      }
    }
    if forall c :: c in t ==> InAlphabet(c) {
      forall i | 0 <= i < |t| ensures IsBase58(t[i]) {
        assert t[i] in t;
        AlphabetIs(t[i]);
      }
    }
  }

  lemma {:induction false} JoinAfterDelimiter(rest: seq<Text>, d: CodeUnit)
    requires rest != []
    ensures Join([[]] + rest, d) == [d] + Join(rest, d)
  {
    assert ([[]] + rest)[1..] == rest;
  }

  lemma {:induction false} JoinAfterUnit(c: CodeUnit, rest: seq<Text>, d: CodeUnit)
    requires rest != []
    ensures Join([[c] + rest[0]] + rest[1..], d) == [c] + Join(rest, d)
  {
    assert ([[c] + rest[0]] + rest[1..])[1..] == rest[1..];
    if |rest| > 1 {
      assert ([c] + rest[0]) + [d] + Join(rest[1..], d) == [c] + (rest[0] + [d] + Join(rest[1..], d));
    }
  }

  /** Splitting loses nothing but the delimiters. */
  lemma {:induction false} JoinSplit(t: Text, d: CodeUnit)
    ensures Join(Split(t, d), d) == t
    ensures forall i :: 0 <= i < |Split(t, d)| ==> d !in Split(t, d)[i]
  {
    if t != [] {
      var rest := Split(t[1..], d);
      JoinSplit(t[1..], d);
      assert t == [t[0]] + t[1..];
      hide Join;
      if t[0] == d {
        JoinAfterDelimiter(rest, d);
      } else {
        JoinAfterUnit(t[0], rest, d);
      }
    }
  }

  lemma {:induction false} U16ReadsBack(t: Text)
    requires IsU16(t)
    ensures (forall i :: 0 <= i < |t| ==> IsDigit(t[i])) && Digits(Value(t)) == t && Value(t) <= 65535
  {
    ValueRoundTrip(t);
  }

  /** The path a dotted text of u16 numbers stands for. */
  lemma {:induction false} PathReadsBack(t: Text) returns (path: seq<nat>)
    requires forall i :: 0 <= i < |Split(t, DOT)| ==> IsU16(Split(t, DOT)[i])
    ensures |path| == |Split(t, DOT)| && Join(PathParts(path), DOT) == t
    ensures forall i :: 0 <= i < |path| ==> path[i] <= 65535
  {
    var parts := Split(t, DOT);
    path := seq(|parts|, i requires 0 <= i < |parts| => Value(parts[i]));
    forall i | 0 <= i < |parts| ensures PathParts(path)[i] == parts[i] && path[i] <= 65535 {
      U16ReadsBack(parts[i]);
    }
    assert PathParts(path) == parts;
    JoinSplit(t, DOT);
  }

  lemma {:induction false} SevenParts(parts: seq<Text>, k: EventKey)
    requires |parts| == 7 && parts[..4] == k.identity && parts[4] == k.signature
    requires parts[5] == Join(PathParts(k.path), DOT) && parts[6] == Digits(k.ordinal)
    ensures Parts(k) == parts
  {
    hide Join, Digits, PathParts;
    assert parts == parts[..4] + [parts[4], parts[5], parts[6]];
  }

  lemma {:induction false} AcceptedIsPrinted(t: Text, identity: seq<Text>) returns (k: EventKey)
    requires |identity| == 4 && CursorKey(t, identity)
    ensures MayCarry(k) && k.identity == identity && StableKey(k) == t
  {
    hide Join, Split, IsSignature, IsU16, Digits, Value, PathParts, InAlphabet;
    var parts := Split(t, BAR);
    JoinSplit(t, BAR);
    SignatureIs(parts[4]);
    var path := PathReadsBack(parts[5]);
    U16ReadsBack(parts[6]);
    k := EventKey(identity, parts[4], path, Value(parts[6]));
    assert forall i :: 0 <= i < 4 ==> identity[i] == parts[i];
    SevenParts(parts, k);
  }

  /** A cursor's key is accepted exactly when it is what the indexer prints for
      some event of the pinned identity, with a base58 signature of 64 to 88
      characters, at most 64 instructions deep and at most 1024 long: the
      validator accepts no other text. */
  lemma {:induction false} AcceptsExactlyPrintedKeys(t: Text, identity: seq<Text>)
    requires |identity| == 4
    ensures CursorKey(t, identity) <==> exists k :: MayCarry(k) && k.identity == identity && StableKey(k) == t
  {
    hide CursorKey, StableKey, ValidKey, IsSignature;
    if CursorKey(t, identity) {
      var k := AcceptedIsPrinted(t, identity);
    }
    forall k | MayCarry(k) && k.identity == identity && StableKey(k) == t ensures CursorKey(t, identity) {
      CursorKeyAccepts(k);
      SignatureIs(k.signature);
    }
  }

  /** Different events never share a key. */
  lemma {:induction false} StableKeyInjective(a: EventKey, b: EventKey)
    requires ValidKey(a) && ValidKey(b) && StableKey(a) == StableKey(b)
    ensures a == b
  {
    StableKeySplits(a);
    StableKeySplits(b);
    var pa, pb := Parts(a), Parts(b);
    assert pa[..4] == a.identity && pb[..4] == b.identity;
    assert pa[4] == a.signature && pb[4] == b.signature;
    assert pa[5] == Join(PathParts(a.path), DOT) && pb[5] == Join(PathParts(b.path), DOT);
    assert pa[6] == Digits(a.ordinal) && pb[6] == Digits(b.ordinal);
    DigitsInjective(a.ordinal, b.ordinal);
    PathSplits(a.path);
    PathSplits(b.path);
    var qa, qb := PathParts(a.path), PathParts(b.path);
    forall i | 0 <= i < |a.path| ensures a.path[i] == b.path[i] {
      assert qa[i] == qb[i];
      DigitsInjective(a.path[i], b.path[i]);
    }
    assert |qa| == |qb|;
  }

  lemma {:induction false} JoinIsShort(parts: seq<Text>, d: CodeUnit, m: nat)
    requires forall i :: 0 <= i < |parts| ==> |parts[i]| <= m
    ensures |Join(parts, d)| <= |parts| * (m + 1)
  {
    if |parts| > 1 {
      JoinIsShort(parts[1..], d, m);
    }
  }

  /** A key as the indexer prints them, with a signature of 64 ones. */
  function SampleKey(ordinal: nat): EventKey {
    EventKey([[0x63], [0x70], [0x68], [0x72]], seq(64, _ => 0x31), [0], ordinal)
  }

  lemma {:induction false} SampleKeyFits(ordinal: nat)
    requires ordinal < 10
    ensures ValidKey(SampleKey(ordinal)) && CursorKey(StableKey(SampleKey(ordinal)), SampleKey(ordinal).identity)
  {
    var k := SampleKey(ordinal);
    CursorKeyAccepts(k);
    assert PathParts([0]) == [[0x30]];
    assert Digits(ordinal) == [ZERO + ordinal];
    forall i | 0 <= i < |Parts(k)| ensures |Parts(k)[i]| <= 64 {
      assert Parts(k) == k.identity + [k.signature, [0x30], [ZERO + ordinal]];
    }
    JoinIsShort(Parts(k), BAR, 64);
  }
}
