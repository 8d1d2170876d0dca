/** `canonicalJson` (api/src/config/duskProtocol.ts): recursive key-sorted JSON.
    A parser that inverts the printer shows that the text determines the value
    up to the order of object members, and nothing else. */
module CanonicalJson {
  import opened Options
  import opened TextOrder

  const QUOTE: CodeUnit := 0x22
  const BACKSLASH: CodeUnit := 0x5C
  const COMMA: CodeUnit := 0x2C
  const COLON: CodeUnit := 0x3A

  /** Digits, sign, point and exponent: all that Number::toString uses for a finite number. */
  predicate IsNumberUnit(c: CodeUnit) {
    0x30 <= c <= 0x39 || c == 0x2B || c == 0x2D || c == 0x2E || c == 0x65
  }

  predicate IsNumberText(t: Text) {
    |t| > 0 && forall i :: 0 <= i < |t| ==> IsNumberUnit(t[i])
  }

  /** A finite number is identified with its shortest decimal text (0 and -0
      share "0"); NaN and the infinities are `NonFinite`. */
  type NumberText = t: Text | IsNumberText(t) witness [0x30]

  datatype Json =
    | Undefined
    | Null
    | Bool(value: bool)
    | Number(text: NumberText)
    | NonFinite
    | String(units: Text)
    | Array(items: seq<Json>)
    | Object(members: seq<Entry<Json>>)

  /** A JavaScript object never holds a key twice. */
  ghost predicate WellFormed(v: Json) {
    match v
    case Array(items) => forall i :: 0 <= i < |items| ==> WellFormed(items[i])
    case Object(ms) => DistinctKeys(ms) && forall i :: 0 <= i < |ms| ==> WellFormed(ms[i].value)
    case _ => true
  }

  ghost predicate HasUndefined(v: Json) {
    match v
    case Undefined => true
    case Array(items) => exists i :: 0 <= i < |items| && HasUndefined(items[i])
    case Object(ms) => exists i :: 0 <= i < |ms| && HasUndefined(ms[i].value)
    case _ => false
  }

  // ----- the printer -----

  function HexDigit(d: int): CodeUnit
    requires 0 <= d < 16
  {
    if d < 10 then 0x30 + d else 0x57 + d
  }

  function UnicodeEscape(c: CodeUnit): Text {
    [BACKSLASH, 0x75, HexDigit(c / 4096), HexDigit(c / 256 % 16), HexDigit(c / 16 % 16), HexDigit(c % 16)]
  }

  predicate IsLead(c: CodeUnit) { 0xD800 <= c <= 0xDBFF }

  predicate IsTrail(c: CodeUnit) { 0xDC00 <= c <= 0xDFFF }

  /** One code unit that is not part of a surrogate pair. */
  function EscapeUnit(c: CodeUnit): Text {
    if c == QUOTE || c == BACKSLASH then [BACKSLASH, c]
    else if c == 0x08 then [BACKSLASH, 0x62]
    else if c == 0x09 then [BACKSLASH, 0x74]
    else if c == 0x0A then [BACKSLASH, 0x6E]
    else if c == 0x0C then [BACKSLASH, 0x66]
    else if c == 0x0D then [BACKSLASH, 0x72]
    else if c < 0x20 || IsLead(c) || IsTrail(c) then UnicodeEscape(c)
    else [c]
  }

  function EscapeText(s: Text): Text {
    if s == [] then []
    else if |s| > 1 && IsLead(s[0]) && IsTrail(s[1]) then [s[0], s[1]] + EscapeText(s[2..])
    else EscapeUnit(s[0]) + EscapeText(s[1..])
  }

  /** `JSON.stringify` of a string. */
  function Quoted(s: Text): Text {
    [QUOTE] + EscapeText(s) + [QUOTE]
  }

  const NULL_TEXT: Text := [0x6E, 0x75, 0x6C, 0x6C]
  const TRUE_TEXT: Text := [0x74, 0x72, 0x75, 0x65]
  const FALSE_TEXT: Text := [0x66, 0x61, 0x6C, 0x73, 0x65]

  /** `texts.join(',')`. */
  function Join(texts: seq<Text>): Text {
    if texts == [] then []
    else if |texts| == 1 then texts[0]
    else texts[0] + [COMMA] + Join(texts[1..])
  }

  function MemberText(e: Entry<Text>): Text {
    Quoted(e.key) + [COLON] + e.value
  }

  function MemberTexts(es: seq<Entry<Text>>): (r: seq<Text>)
    ensures |r| == |es|
  {
    seq(|es|, i requires 0 <= i < |es| => MemberText(es[i]))
  }

  /** The canonical text, or None where the program throws. */
  function Canonical(v: Json): Option<Text>
    decreases v, 1
  {
    match v
    case Undefined => None
    case Null => Some(NULL_TEXT)
    case NonFinite => Some(NULL_TEXT)
    case Bool(b) => Some(if b then TRUE_TEXT else FALSE_TEXT)
    case Number(text) => Some(text)
    case String(units) => Some(Quoted(units))
    case Array(items) =>
      if forall i :: 0 <= i < |items| ==> Canonical(items[i]).Some?
      then Some([0x5B] + Join(ItemTexts(v)) + [0x5D]) else None
    case Object(ms) =>
      if forall i :: 0 <= i < |ms| ==> Canonical(ms[i].value).Some?
      then Some([0x7B] + Join(MemberTexts(SortByKey(KeyedTexts(v)))) + [0x7D]) else None
  }

  function ItemTexts(v: Json): (r: seq<Text>)
    requires v.Array? && forall i :: 0 <= i < |v.items| ==> Canonical(v.items[i]).Some?
    ensures |r| == |v.items|
    decreases v, 0
  {
    seq(|v.items|, i requires 0 <= i < |v.items| => Canonical(v.items[i]).value)
  }

  function KeyedTexts(v: Json): (r: seq<Entry<Text>>)
    requires v.Object? && forall i :: 0 <= i < |v.members| ==> Canonical(v.members[i].value).Some?
    ensures |r| == |v.members|
    decreases v, 0
  {
    seq(|v.members|, i requires 0 <= i < |v.members| =>
      Entry(v.members[i].key, Canonical(v.members[i].value).value))
  }

  /** It throws exactly on a value that holds `undefined` somewhere. */
  lemma {:induction false} ThrowsExactlyOnUndefined(v: Json)
    ensures Canonical(v).None? <==> HasUndefined(v)
  {
    match v
    case Array(items) =>
      forall i | 0 <= i < |items| ensures Canonical(items[i]).None? <==> HasUndefined(items[i]) {
        ThrowsExactlyOnUndefined(items[i]);
      }
    case Object(ms) =>
      forall i | 0 <= i < |ms| ensures Canonical(ms[i].value).None? <==> HasUndefined(ms[i].value) {
        ThrowsExactlyOnUndefined(ms[i].value);
      }
    case _ =>
  }

  // ----- the parser -----

  datatype Parsed<+T> = Fail | Done(value: T, rest: Text)

  function HexValue(c: CodeUnit): (d: int)
    ensures 0 <= d < 16
  {
    if 0x30 <= c <= 0x39 then c - 0x30 else if 0x61 <= c <= 0x66 then c - 0x57 else 0
  }

  /** The unit an escape stands for and how many units it takes. */
  function ParseUnit(t: Text): (r: Parsed<CodeUnit>)
    ensures r.Done? ==> |r.rest| < |t|
  {
    if t == [] || t[0] == QUOTE then Fail
    else if t[0] != BACKSLASH then Done(t[0], t[1..])
    else if |t| < 2 then Fail
    else if t[1] == QUOTE || t[1] == BACKSLASH then Done(t[1], t[2..])
    else if t[1] == 0x62 then Done(0x08, t[2..])
    else if t[1] == 0x74 then Done(0x09, t[2..])
    else if t[1] == 0x6E then Done(0x0A, t[2..])
    else if t[1] == 0x66 then Done(0x0C, t[2..])
    else if t[1] == 0x72 then Done(0x0D, t[2..])
    else if t[1] == 0x75 && |t| >= 6 then
      Done(HexValue(t[2]) * 4096 + HexValue(t[3]) * 256 + HexValue(t[4]) * 16 + HexValue(t[5]), t[6..])
    else Fail
  }

  /** The rest of a string after its opening quote. */
  function ParseText(t: Text): (r: Parsed<Text>)
    ensures r.Done? ==> |r.rest| < |t|
  {
    if t != [] && t[0] == QUOTE then Done([], t[1..])
    else match ParseUnit(t)
      case Fail => Fail
      case Done(c, after) =>
        match ParseText(after)
        case Fail => Fail
        case Done(units, rest) => Done([c] + units, rest)
  }

  function NumberLength(t: Text): (n: nat)
    ensures n <= |t| && (forall i :: 0 <= i < n ==> IsNumberUnit(t[i]))
    ensures n < |t| ==> !IsNumberUnit(t[n])
  {
    if t == [] || !IsNumberUnit(t[0]) then 0 else 1 + NumberLength(t[1..])
  }

  function ParseScalar(t: Text): (r: Parsed<Json>)
    ensures r.Done? ==> |r.rest| < |t|
  {
    if NULL_TEXT <= t then Done(Null, t[4..])
    else if TRUE_TEXT <= t then Done(Bool(true), t[4..])
    else if FALSE_TEXT <= t then Done(Bool(false), t[5..])
    else
      var n := NumberLength(t);
      if n == 0 then Fail else Done(Number(t[..n]), t[n..])
  }

  function ParseValue(t: Text): (r: Parsed<Json>)
    ensures r.Done? ==> |r.rest| < |t|
    decreases |t|, 0
  {
    if t == [] then Fail
    else if t[0] == QUOTE then
      match ParseText(t[1..])
      case Fail => Fail
      case Done(units, rest) => Done(String(units), rest)
    else if t[0] == 0x5B then
      if |t| > 1 && t[1] == 0x5D then Done(Array([]), t[2..])
      else match ParseItems(t[1..])
        case Fail => Fail
        case Done(items, rest) => Done(Array(items), rest)
    else if t[0] == 0x7B then
      if |t| > 1 && t[1] == 0x7D then Done(Object([]), t[2..])
      else match ParseMembers(t[1..])
        case Fail => Fail
        case Done(ms, rest) => Done(Object(ms), rest)
    else ParseScalar(t)
  }

  /** Values between `[` and `]`, at least one. */
  function ParseItems(t: Text): (r: Parsed<seq<Json>>)
    ensures r.Done? ==> |r.rest| < |t|
    decreases |t|, 1
  {
    match ParseValue(t)
    case Fail => Fail
    case Done(v, rest) =>
      if rest == [] then Fail
      else if rest[0] == 0x5D then Done([v], rest[1..])
      else if rest[0] != COMMA then Fail
      else match ParseItems(rest[1..])
        case Fail => Fail
        case Done(vs, end) => Done([v] + vs, end)
  }

  function ParseMember(t: Text): (r: Parsed<Entry<Json>>)
    ensures r.Done? ==> |r.rest| < |t|
    decreases |t|, 1
  {
    if t == [] || t[0] != QUOTE then Fail
    else match ParseText(t[1..])
      case Fail => Fail
      case Done(key, after) =>
        if after == [] || after[0] != COLON then Fail
        else match ParseValue(after[1..])
          case Fail => Fail
          case Done(v, rest) => Done(Entry(key, v), rest)
  }

  /** Members between `{` and `}`, at least one. */
  function ParseMembers(t: Text): (r: Parsed<seq<Entry<Json>>>)
    ensures r.Done? ==> |r.rest| < |t|
    decreases |t|, 2
  {
    match ParseMember(t)
    case Fail => Fail
    case Done(m, rest) =>
      if rest == [] then Fail
      else if rest[0] == 0x7D then Done([m], rest[1..])
      else if rest[0] != COMMA then Fail
      else match ParseMembers(rest[1..])
        case Fail => Fail
        case Done(ms, end) => Done([m] + ms, end)
  }

  // ----- strings come back -----

  lemma {:induction false} HexRoundTrip(c: CodeUnit)
    ensures HexValue(HexDigit(c / 4096)) * 4096 + HexValue(HexDigit(c / 256 % 16)) * 256
            + HexValue(HexDigit(c / 16 % 16)) * 16 + HexValue(HexDigit(c % 16)) == c
  {
    hide HexValue, HexDigit;
    HexDigitReads(c / 4096);
    HexDigitReads(c / 256 % 16);
    HexDigitReads(c / 16 % 16);
    HexDigitReads(c % 16);
    BaseSixteen(c, 1);
    BaseSixteen(c, 16);
    BaseSixteen(c, 256);
  }

  lemma {:induction false} HexDigitReads(d: int)
    requires 0 <= d < 16
    ensures HexValue(HexDigit(d)) == d
  {
  }

  lemma {:induction false} BaseSixteen(c: nat, unit: nat)
    requires unit in {1, 16, 256}
    ensures c / unit == c / (unit * 16) * 16 + c / unit % 16
  {
  }

  lemma {:induction false} UnitRoundTrip(c: CodeUnit, rest: Text)
    ensures ParseUnit(EscapeUnit(c) + rest) == Done(c, rest)
  {
    var t := EscapeUnit(c) + rest;
    assert t[|EscapeUnit(c)|..] == rest;
    HexRoundTrip(c);
  }

  lemma {:induction false} ParseTextStep(c: CodeUnit, head: Text, tail: Text, units: Text, rest: Text)
    requires head != [] && head[0] != QUOTE
    requires ParseUnit(head + tail) == Done(c, tail) && ParseText(tail) == Done(units, rest)
    ensures ParseText(head + tail) == Done([c] + units, rest)
  {
    assert (head + tail)[0] == head[0];
  }

  lemma {:induction false} RawUnit(c: CodeUnit, tail: Text)
    requires c != QUOTE && c != BACKSLASH
    ensures ParseUnit([c] + tail) == Done(c, tail)
  {
    assert ([c] + tail)[1..] == tail;
  }

  lemma {:induction false} EscapeTextStep(s: Text, after: Text)
    requires s != [] && !(|s| > 1 && IsLead(s[0]) && IsTrail(s[1]))
    ensures EscapeText(s) + after == EscapeUnit(s[0]) + (EscapeText(s[1..]) + after)
  {
  }

  lemma {:induction false} EscapePairStep(s: Text, after: Text)
    requires |s| > 1 && IsLead(s[0]) && IsTrail(s[1])
    ensures EscapeText(s) + after == [s[0]] + ([s[1]] + (EscapeText(s[2..]) + after))
  {
  }

  lemma {:induction false} TextRoundTrip(s: Text, rest: Text)
    ensures ParseText(EscapeText(s) + ([QUOTE] + rest)) == Done(s, rest)
  {
    if s == [] {
      assert EscapeText(s) + ([QUOTE] + rest) == [QUOTE] + rest;
      assert ([QUOTE] + rest)[1..] == rest;
    } else if |s| > 1 && IsLead(s[0]) && IsTrail(s[1]) {
      TextRoundTrip(s[2..], rest);
      PairReads(s, EscapeText(s[2..]) + ([QUOTE] + rest), rest);
      EscapePairStep(s, [QUOTE] + rest);
    } else {
      TextRoundTrip(s[1..], rest);
      UnitReads(s, EscapeText(s[1..]) + ([QUOTE] + rest), rest);
      EscapeTextStep(s, [QUOTE] + rest);
    }
  }

  lemma {:induction false} UnitReads(s: Text, tail: Text, rest: Text)
    requires s != [] && ParseText(tail) == Done(s[1..], rest)
    ensures ParseText(EscapeUnit(s[0]) + tail) == Done(s, rest)
  {
    UnitRoundTrip(s[0], tail);
    ParseTextStep(s[0], EscapeUnit(s[0]), tail, s[1..], rest);
    assert [s[0]] + s[1..] == s;
  }

  lemma {:induction false} PairReads(s: Text, tail: Text, rest: Text)
    requires |s| > 1 && IsLead(s[0]) && IsTrail(s[1]) && ParseText(tail) == Done(s[2..], rest)
    ensures ParseText([s[0]] + ([s[1]] + tail)) == Done(s, rest)
  {
    RawUnit(s[1], tail);
    ParseTextStep(s[1], [s[1]], tail, s[2..], rest);
    RawUnit(s[0], [s[1]] + tail);
    ParseTextStep(s[0], [s[0]], [s[1]] + tail, [s[1]] + s[2..], rest);
    assert [s[0]] + ([s[1]] + s[2..]) == s;
  }

  // ----- what is escaped, position by position -----

  /** Half of a surrogate pair, and its other half is beside it. */
  predicate IsPaired(s: Text, i: nat)
    requires i < |s|
  {
    || (0xD7FF < s[i] < 0xDC00 && i + 1 < |s| && 0xDBFF < s[i + 1] < 0xE000)
    || (0xDBFF < s[i] < 0xE000 && i > 0 && 0xD7FF < s[i - 1] < 0xDC00)
  }

  /** Four lower-case hexadecimal digits. */
  ghost predicate IsHex(t: Text, n: nat)
    requires n < 0x1_0000
  {
    |t| == 4 && exists a: nat, b: nat, c: nat, d: nat ::
      && a < 16 && b < 16 && c < 16 && d < 16 && n == ((a * 16 + b) * 16 + c) * 16 + d
      && t == Ascii(["0123456789abcdef"[a], "0123456789abcdef"[b], "0123456789abcdef"[c], "0123456789abcdef"[d]])
  }

  /** What the unit at `i` is written as: paired surrogates and everything from
      the space on as it is, but for the quote, the backslash and the surrogates
      that stand alone. */
  ghost predicate IsSpelled(s: Text, i: nat, t: Text)
    requires i < |s|
  {
    if IsPaired(s, i) then t == [s[i]]
    else match s[i]
      case 0x22 => t == Ascii("\\\"")
      case 0x5C => t == Ascii("\\\\")
      case 0x08 => t == Ascii("\\b")
      case 0x09 => t == Ascii("\\t")
      case 0x0A => t == Ascii("\\n")
      case 0x0C => t == Ascii("\\f")
      case 0x0D => t == Ascii("\\r")
      case c =>
        if c >= ' ' as int && (c <= 0xD7FF || 0xE000 <= c) then t == [c]
        else |t| == 6 && t[..2] == Ascii("\\u") && IsHex(t[2..], c)
  }

  /** One text for each unit. */
  ghost predicate Spells(s: Text, texts: seq<Text>) {
    |texts| == |s| && forall i :: 0 <= i < |s| ==> IsSpelled(s, i, texts[i])
  }

  function Concat(texts: seq<Text>): Text {
    if texts == [] then [] else texts[0] + Concat(texts[1..])
  }

  lemma {:induction false} HexIs(c: CodeUnit)
    ensures IsHex(UnicodeEscape(c)[2..], c)
  {
    var p, q, r, s := c / 4096, c / 256 % 16, c / 16 % 16, c % 16;
    BaseSixteen(c, 1);
    BaseSixteen(c, 16);
    BaseSixteen(c, 256);
    assert c == ((p * 16 + q) * 16 + r) * 16 + s;
    HexDigitIs(p);
    HexDigitIs(q);
    HexDigitIs(r);
    HexDigitIs(s);
    hide HexDigit;
    assert UnicodeEscape(c)[2..] ==
           Ascii(["0123456789abcdef"[p], "0123456789abcdef"[q], "0123456789abcdef"[r], "0123456789abcdef"[s]]);
  }

  lemma {:induction false} HexDigitIs(d: nat)
    requires d < 16
    ensures "0123456789abcdef"[d] < 128 as char && "0123456789abcdef"[d] as int == HexDigit(d)
  {
  }

  lemma {:induction false} UnitIsSpelled(s: Text, i: nat)
    requires i < |s| && !IsPaired(s, i)
    ensures IsSpelled(s, i, EscapeUnit(s[i]))
  {
    hide IsHex;
    HexIs(s[i]);
  }

  /** The rest of a text from a place that is not inside a pair. */
  lemma {:induction false} RestIsSpelled(s: Text, k: nat) returns (texts: seq<Text>)
    requires k <= |s| && (0 < k < |s| && IsTrail(s[k]) ==> !IsLead(s[k - 1]))
    ensures |texts| == |s| - k && forall i :: 0 <= i < |texts| ==> IsSpelled(s, k + i, texts[i])
    ensures EscapeText(s[k..]) == Concat(texts)
    decreases |s| - k
  {
    hide IsSpelled, EscapeUnit;
    if k == |s| {
      texts := [];
    } else if k + 1 < |s| && IsLead(s[k]) && IsTrail(s[k + 1]) {
      var rest := RestIsSpelled(s, k + 2);
      texts := PairIsSpelled(s, k, rest);
    } else {
      var rest := RestIsSpelled(s, k + 1);
      UnitIsSpelled(s, k);
      texts := [EscapeUnit(s[k])] + rest;
      assert texts[1..] == rest && s[k..][1..] == s[k + 1..];
      assert forall i :: 0 < i < |texts| ==> texts[i] == rest[i - 1] && k + i == (k + 1) + (i - 1);
    }
  }

  lemma {:induction false} PairUnits(s: Text, k: nat)
    requires k + 1 < |s| && IsLead(s[k]) && IsTrail(s[k + 1])
    ensures IsSpelled(s, k, [s[k]]) && IsSpelled(s, k + 1, [s[k + 1]])
  {
  }

  lemma {:induction false} PairIsSpelled(s: Text, k: nat, rest: seq<Text>) returns (texts: seq<Text>)
    requires k + 1 < |s| && IsLead(s[k]) && IsTrail(s[k + 1]) && |rest| == |s| - k - 2
    requires forall i :: 0 <= i < |rest| ==> IsSpelled(s, k + 2 + i, rest[i])
    requires EscapeText(s[k + 2..]) == Concat(rest)
    ensures |texts| == |s| - k && forall i :: 0 <= i < |texts| ==> IsSpelled(s, k + i, texts[i])
    ensures EscapeText(s[k..]) == Concat(texts)
  {
    hide IsSpelled;
    texts := [[s[k]], [s[k + 1]]] + rest;
    PairUnits(s, k);
    assert texts[1..] == [[s[k + 1]]] + rest && texts[1..][1..] == rest && s[k..][2..] == s[k + 2..];
    assert forall i :: 1 < i < |texts| ==> texts[i] == rest[i - 2] && k + i == (k + 2) + (i - 2);
  }

  /** A string is written unit by unit, each in its one spelling. */
  lemma {:induction false} EscapedIsSpelled(s: Text)
    ensures exists texts :: Spells(s, texts) && EscapeText(s) == Concat(texts)
  {
    var texts := RestIsSpelled(s, 0);
    assert s[0..] == s && Spells(s, texts);
  }

  // ----- values come back -----

  predicate ContinuesNumber(rest: Text) {
    rest != [] && IsNumberUnit(rest[0])
  }

  /** `text` reads back as `v` in front of anything that cannot extend a number. */
  ghost predicate Reads(text: Text, v: Json) {
    forall rest: Text :: !ContinuesNumber(rest) ==> ParseValue(text + rest) == Done(v, rest)
  }

  /** The value the parser returns: members in key order, non-finite numbers as null. */
  function Normal(v: Json): Json
    decreases v, 1
  {
    match v
    case NonFinite => Null
    case Array(items) => Array(seq(|items|, i requires 0 <= i < |items| => Normal(items[i])))
    case Object(ms) => Object(SortByKey(NormalMembers(v)))
    case _ => v
  }

  function NormalMembers(v: Json): (r: seq<Entry<Json>>)
    requires v.Object?
    ensures |r| == |v.members|
    decreases v, 0
  {
    seq(|v.members|, i requires 0 <= i < |v.members| => Entry(v.members[i].key, Normal(v.members[i].value)))
  }

  lemma {:induction false} NumberUnitsAre(c: CodeUnit)
    ensures IsNumberUnit(c) <==>
            c < 128 && c as char in {'0', '1', '2', '3', '4', '5', '6', '7', '8', '9', '+', '-', '.', 'e'}
  {
    if c < 128 {
      assert (c as char) as int == c;
    }
  }

  lemma {:induction false} NumberLengthOf(text: Text, rest: Text)
    requires (forall i :: 0 <= i < |text| ==> IsNumberUnit(text[i])) && !ContinuesNumber(rest)
    ensures NumberLength(text + rest) == |text|
  {
    var t, n := text + rest, NumberLength(text + rest);
    if n < |t| {
      assert !IsNumberUnit(t[n]);
    }
    assert |rest| > 0 ==> t[|text|] == rest[0];
  }

  lemma {:induction false} NumberReads(n: NumberText)
    ensures Reads(n, Number(n))
  {
    forall rest: Text | !ContinuesNumber(rest)
      ensures ParseValue(n + rest) == Done(Number(n), rest)
    {
      NumberLengthOf(n, rest);
      assert IsNumberUnit((n + rest)[0]);
      assert (n + rest)[..|n|] == n && (n + rest)[|n|..] == rest;
    }
  }

  lemma {:induction false} QuotedReads(escaped: Text, units: Text, rest: Text)
    requires ParseText(escaped + ([QUOTE] + rest)) == Done(units, rest)
    ensures ParseValue([QUOTE] + escaped + [QUOTE] + rest) == Done(String(units), rest)
  {
    hide ParseText, ParseItems, ParseMembers, ParseScalar;
    var inner := escaped + ([QUOTE] + rest);
    assert [QUOTE] + escaped + [QUOTE] + rest == [QUOTE] + inner;
    assert ([QUOTE] + inner)[1..] == inner;
  }

  lemma {:induction false} StringReads(units: Text)
    ensures Reads(Quoted(units), String(units))
  {
    forall rest: Text | !ContinuesNumber(rest)
      ensures ParseValue(Quoted(units) + rest) == Done(String(units), rest)
    {
      TextRoundTrip(units, rest);
      QuotedReads(EscapeText(units), units, rest);
    }
  }

  lemma {:induction false} KeywordScalar(v: Json, rest: Text)
    requires v.Null? || v.Bool?
    ensures ParseScalar(Canonical(v).value + rest) == Done(v, rest)
  {
    var text := Canonical(v).value;
    assert text <= text + rest && (text + rest)[0] == text[0];
    assert (text + rest)[|text|..] == rest;
  }

  lemma {:induction false} KeywordReads(v: Json)
    requires v.Null? || v.NonFinite? || v.Bool?
    ensures Reads(Canonical(v).value, Normal(v))
  {
    forall rest: Text | !ContinuesNumber(rest)
      ensures ParseValue(Canonical(v).value + rest) == Done(Normal(v), rest)
    {
      KeywordScalar(Normal(v), rest);
      assert (Canonical(v).value + rest)[0] == Canonical(v).value[0];
    }
  }

  ghost predicate AllRead(texts: seq<Text>, vs: seq<Json>) {
    |texts| == |vs| && forall i :: 0 <= i < |texts| ==> Reads(texts[i], vs[i])
  }

  lemma {:induction false} JoinStep(texts: seq<Text>, after: Text)
    requires |texts| > 1
    ensures Join(texts) + after == texts[0] + ([COMMA] + (Join(texts[1..]) + after))
  {
  }

  lemma {:induction false} ItemsEnd(text: Text, v: Json, rest: Text)
    requires Reads(text, v)
    ensures ParseItems(text + ([0x5D] + rest)) == Done([v], rest)
  {
    assert ([0x5D] + rest)[1..] == rest;
  }

  lemma {:induction false} ItemsStep(text: Text, v: Json, tail: Text, vs: seq<Json>, rest: Text)
    requires Reads(text, v) && ParseItems(tail) == Done(vs, rest)
    ensures ParseItems(text + ([COMMA] + tail)) == Done([v] + vs, rest)
  {
    assert ([COMMA] + tail)[1..] == tail;
  }

  lemma {:induction false} ItemsRead(texts: seq<Text>, vs: seq<Json>, rest: Text)
    requires AllRead(texts, vs) && |texts| > 0
    ensures ParseItems(Join(texts) + ([0x5D] + rest)) == Done(vs, rest)
  {
    if |texts| == 1 {
      ItemsEnd(texts[0], vs[0], rest);
      assert vs == [vs[0]];
    } else {
      ItemsRead(texts[1..], vs[1..], rest);
      ItemsStep(texts[0], vs[0], Join(texts[1..]) + ([0x5D] + rest), vs[1..], rest);
      JoinStep(texts, [0x5D] + rest);
      assert vs == [vs[0]] + vs[1..];
    }
  }

  ghost predicate EntriesRead(texts: seq<Entry<Text>>, vs: seq<Entry<Json>>) {
    |texts| == |vs|
    && forall i :: 0 <= i < |texts| ==> texts[i].key == vs[i].key && Reads(texts[i].value, vs[i].value)
  }

  lemma {:induction false} MemberParts(t: Text, key: Text, after: Text, v: Json, rest: Text)
    requires t != [] && t[0] == QUOTE && ParseText(t[1..]) == Done(key, after)
    requires after != [] && after[0] == COLON && ParseValue(after[1..]) == Done(v, rest)
    ensures ParseMember(t) == Done(Entry(key, v), rest)
  {
  }

  lemma {:induction false} MemberSplits(escaped: Text, text: Text, rest: Text)
    ensures var t := ([QUOTE] + escaped + [QUOTE]) + [COLON] + text + rest;
            t[0] == QUOTE && t[1..] == escaped + ([QUOTE] + ([COLON] + (text + rest)))
  {
  }

  lemma {:induction false} MemberReads(e: Entry<Text>, v: Json, rest: Text)
    requires Reads(e.value, v) && !ContinuesNumber(rest)
    ensures ParseMember(MemberText(e) + rest) == Done(Entry(e.key, v), rest)
  {
    hide ParseMember, ParseText, ParseValue, EscapeText, ContinuesNumber;
    var text := e.value;
    MemberSplits(EscapeText(e.key), text, rest);
    var value := [COLON] + (text + rest);
    TextRoundTrip(e.key, value);
    assert value[1..] == text + rest;
    MemberParts(MemberText(e) + rest, e.key, value, v, rest);
  }

  lemma {:induction false} MembersEnd(text: Text, m: Entry<Json>, rest: Text)
    requires ParseMember(text + ([0x7D] + rest)) == Done(m, [0x7D] + rest)
    ensures ParseMembers(text + ([0x7D] + rest)) == Done([m], rest)
  {
    assert ([0x7D] + rest)[1..] == rest;
  }

  lemma {:induction false} MembersStep(text: Text, m: Entry<Json>, tail: Text, ms: seq<Entry<Json>>, rest: Text)
    requires ParseMember(text + ([COMMA] + tail)) == Done(m, [COMMA] + tail)
    requires ParseMembers(tail) == Done(ms, rest)
    ensures ParseMembers(text + ([COMMA] + tail)) == Done([m] + ms, rest)
  {
    assert ([COMMA] + tail)[1..] == tail;
  }

  lemma {:induction false} MembersRead(texts: seq<Entry<Text>>, vs: seq<Entry<Json>>, rest: Text)
    requires EntriesRead(texts, vs) && |texts| > 0
    ensures ParseMembers(Join(MemberTexts(texts)) + ([0x7D] + rest)) == Done(vs, rest)
  {
    hide ParseMember, ParseMembers, ParseValue, Reads, MemberText;
    var first := MemberText(texts[0]);
    assert vs[0] == Entry(texts[0].key, vs[0].value);
    if |texts| == 1 {
      MemberReads(texts[0], vs[0].value, [0x7D] + rest);
      MembersEnd(first, vs[0], rest);
      assert vs == [vs[0]];
    } else {
      var tail := Join(MemberTexts(texts[1..])) + ([0x7D] + rest);
      MembersRead(texts[1..], vs[1..], rest);
      MemberReads(texts[0], vs[0].value, [COMMA] + tail);
      MembersStep(first, vs[0], tail, vs[1..], rest);
      assert MemberTexts(texts)[1..] == MemberTexts(texts[1..]);
      JoinStep(MemberTexts(texts), [0x7D] + rest);
      assert vs == [vs[0]] + vs[1..];
    }
  }

  lemma {:induction false} EntriesCons(t: Entry<Text>, v: Entry<Json>, texts: seq<Entry<Text>>, vs: seq<Entry<Json>>)
    requires t.key == v.key && Reads(t.value, v.value) && EntriesRead(texts, vs)
    ensures EntriesRead([t] + texts, [v] + vs)
  {
  }

  lemma {:induction false} InsertReads(t: Entry<Text>, v: Entry<Json>, texts: seq<Entry<Text>>, vs: seq<Entry<Json>>)
    requires t.key == v.key && Reads(t.value, v.value) && EntriesRead(texts, vs)
    ensures EntriesRead(InsertByKey(t, texts), InsertByKey(v, vs))
  {
    if texts != [] && !Before(t.key, texts[0].key) {
      assert EntriesRead(texts[1..], vs[1..]);
      InsertReads(t, v, texts[1..], vs[1..]);
      EntriesCons(texts[0], vs[0], InsertByKey(t, texts[1..]), InsertByKey(v, vs[1..]));
    } else {
      EntriesCons(t, v, texts, vs);
    }
  }

  lemma {:induction false} SortReads(texts: seq<Entry<Text>>, vs: seq<Entry<Json>>)
    requires EntriesRead(texts, vs)
    ensures EntriesRead(SortByKey(texts), SortByKey(vs))
  {
    if texts != [] {
      assert EntriesRead(texts[1..], vs[1..]);
      SortReads(texts[1..], vs[1..]);
      InsertReads(texts[0], vs[0], SortByKey(texts[1..]), SortByKey(vs[1..]));
    }
  }

  lemma {:induction false} ArrayReads(texts: seq<Text>, vs: seq<Json>)
    requires AllRead(texts, vs)
    ensures Reads([0x5B] + Join(texts) + [0x5D], Array(vs))
  {
    hide ParseValue, ParseItems, Join;
    forall rest: Text | !ContinuesNumber(rest)
      ensures ParseValue([0x5B] + Join(texts) + [0x5D] + rest) == Done(Array(vs), rest)
    {
      var inner := Join(texts) + ([0x5D] + rest);
      assert [0x5B] + Join(texts) + [0x5D] + rest == [0x5B] + inner;
      if texts == [] {
        EmptyArrayReads(rest);
      } else {
        ItemsRead(texts, vs, rest);
        StartsNoBracket(inner);
        BracketStep(inner, vs, rest);
      }
    }
  }

  /** No value begins with a closing bracket. */
  lemma {:induction false} StartsNoBracket(t: Text)
    requires ParseItems(t).Done?
    ensures t != [] && t[0] != 0x5D
  {
  }

  lemma {:induction false} BracketStep(inner: Text, vs: seq<Json>, rest: Text)
    requires ParseItems(inner) == Done(vs, rest) && inner != [] && inner[0] != 0x5D
    ensures ParseValue([0x5B] + inner) == Done(Array(vs), rest)
  {
    hide ParseItems;
    assert ([0x5B] + inner)[1..] == inner;
  }

  lemma {:induction false} EmptyArrayReads(rest: Text)
    ensures ParseValue([0x5B] + (Join([]) + ([0x5D] + rest))) == Done(Array([]), rest)
  {
    var t := [0x5B] + (Join([]) + ([0x5D] + rest));
    assert t[1] == 0x5D && t[2..] == rest;
  }

  lemma {:induction false} ObjectReads(texts: seq<Entry<Text>>, vs: seq<Entry<Json>>)
    requires EntriesRead(texts, vs)
    ensures Reads([0x7B] + Join(MemberTexts(texts)) + [0x7D], Object(vs))
  {
    var body := Join(MemberTexts(texts));
    forall rest: Text | !ContinuesNumber(rest)
      ensures ParseValue([0x7B] + body + [0x7D] + rest) == Done(Object(vs), rest)
    {
      var inner := body + ([0x7D] + rest);
      assert [0x7B] + body + [0x7D] + rest == [0x7B] + inner;
      assert ([0x7B] + inner)[1..] == inner;
      if texts == [] {
        assert ([0x7B] + inner)[2..] == rest;
      } else {
        MembersRead(texts, vs, rest);
        assert ParseMember(inner).Done?;
      }
    }
  }

  /** The parser inverts the printer on every value that prints. */
  lemma {:induction false} CanonicalReadsBack(v: Json)
    requires Canonical(v).Some?
    ensures Reads(Canonical(v).value, Normal(v))
  {
    match v
    case Array(items) =>
      forall i | 0 <= i < |items| ensures Reads(ItemTexts(v)[i], Normal(items[i])) {
        CanonicalReadsBack(items[i]);
      }
      ArrayReads(ItemTexts(v), Normal(v).items);
    case Object(ms) =>
      forall i | 0 <= i < |ms| ensures Reads(KeyedTexts(v)[i].value, Normal(ms[i].value)) {
        CanonicalReadsBack(ms[i].value);
      }
      SortReads(KeyedTexts(v), NormalMembers(v));
      ObjectReads(SortByKey(KeyedTexts(v)), SortByKey(NormalMembers(v)));
    case Number(n) => NumberReads(n);
    case String(units) => StringReads(units);
    case _ => KeywordReads(v);
  }

  // ----- equality up to member order -----

  ghost predicate HasKey(ms: seq<Entry<Json>>, key: Text) {
    exists i :: 0 <= i < |ms| && ms[i].key == key
  }

  ghost function Lookup(ms: seq<Entry<Json>>, key: Text): (v: Json)
    requires HasKey(ms, key)
    ensures Entry(key, v) in ms
  {
    var i :| 0 <= i < |ms| && ms[i].key == key;
    ms[i].value
  }

  /** The same JSON value: arrays item by item, objects key by key in any order.
      A non-finite number is the JSON value null. */
  ghost predicate Same(a: Json, b: Json) {
    match a
    case Array(items) =>
      b.Array? && |items| == |b.items| && forall i :: 0 <= i < |items| ==> Same(items[i], b.items[i])
    case Object(ms) =>
      b.Object? && |ms| == |b.members|
      && forall i :: 0 <= i < |ms| ==> HasKey(b.members, ms[i].key) && Same(ms[i].value, Lookup(b.members, ms[i].key))
    case _ => Normal(a) == Normal(b)
  }

  lemma {:induction false} ScalarsPrintAlike(a: Json, b: Json)
    requires !a.Array? && !a.Object? && Normal(a) == Normal(b)
    ensures Canonical(a) == Canonical(b)
  {
  }

  lemma {:induction false} ItemsPrintAlike(a: Json, b: Json)
    requires a.Array? && b.Array? && Canonical(a).Some? && Canonical(b).Some? && |a.items| == |b.items|
    requires forall i :: 0 <= i < |a.items| ==> Canonical(a.items[i]) == Canonical(b.items[i])
    ensures Canonical(a) == Canonical(b)
  {
    assert ItemTexts(a) == ItemTexts(b);
  }

  lemma {:induction false} PartsPrint(v: Json)
    requires Canonical(v).Some?
    ensures v.Array? ==> forall i :: 0 <= i < |v.items| ==> Canonical(v.items[i]).Some?
    ensures v.Object? ==> forall i :: 0 <= i < |v.members| ==> Canonical(v.members[i].value).Some?
  {
  }

  ghost predicate PrintedIn(b: Json, m: Entry<Json>)
    requires b.Object?
  {
    exists j :: 0 <= j < |b.members| && b.members[j].key == m.key && Canonical(b.members[j].value) == Canonical(m.value)
  }

  lemma {:induction false} MembersPrintAlike(a: Json, b: Json)
    requires a.Object? && b.Object? && WellFormed(a) && WellFormed(b) && Canonical(a).Some? && Canonical(b).Some?
    requires |a.members| == |b.members| && forall i :: 0 <= i < |a.members| ==> PrintedIn(b, a.members[i])
    ensures Canonical(a) == Canonical(b)
  {
    var ta, tb := KeyedTexts(a), KeyedTexts(b);
    forall i | 0 <= i < |ta| ensures ta[i] in tb {
      var j :| 0 <= j < |b.members| && b.members[j].key == a.members[i].key
               && Canonical(b.members[j].value) == Canonical(a.members[i].value);
      assert tb[j] == ta[i];
    }
    SortForgetsOrder(ta, tb);
  }

  lemma {:induction false} SamePrintsAlike(a: Json, b: Json)
    requires WellFormed(a) && WellFormed(b) && Canonical(a).Some? && Canonical(b).Some? && Same(a, b)
    ensures Canonical(a) == Canonical(b)
  {
    hide Canonical;
    PartsPrint(a);
    PartsPrint(b);
    match a
    case Array(items) =>
      forall i | 0 <= i < |items| ensures Canonical(items[i]) == Canonical(b.items[i]) {
        SamePrintsAlike(items[i], b.items[i]);
      }
      ItemsPrintAlike(a, b);
    case Object(ms) =>
      forall i | 0 <= i < |ms| ensures PrintedIn(b, ms[i]) {
        var k := ms[i].key;
        var j :| 0 <= j < |b.members| && b.members[j] == Entry(k, Lookup(b.members, k));
        SamePrintsAlike(ms[i].value, b.members[j].value);
      }
      MembersPrintAlike(a, b);
    case _ =>
      ScalarsPrintAlike(a, b);
  }

  lemma {:induction false} ArraysAlike(a: Json, b: Json)
    requires a.Array? && Normal(a) == Normal(b)
    ensures b.Array? && |a.items| == |b.items|
    ensures forall i :: 0 <= i < |a.items| ==> Normal(a.items[i]) == Normal(b.items[i])
  {
    forall i | 0 <= i < |a.items| ensures Normal(a.items[i]) == Normal(b.items[i]) {
      assert Normal(a).items[i] == Normal(b).items[i];
    }
  }

  ghost predicate HoldsAlike(members: seq<Entry<Json>>, m: Entry<Json>) {
    exists j :: 0 <= j < |members| && members[j].key == m.key && Normal(members[j].value) == Normal(m.value)
  }

  lemma {:induction false} ObjectsAlike(a: Json, b: Json)
    requires a.Object? && Normal(a) == Normal(b)
    ensures b.Object? && |a.members| == |b.members|
    ensures forall i :: 0 <= i < |a.members| ==> HoldsAlike(b.members, a.members[i])
  {
    forall i | 0 <= i < |a.members| ensures HoldsAlike(b.members, a.members[i]) {
      var j := SortedElsewhere(NormalMembers(a), NormalMembers(b), i);
      assert b.members[j].key == a.members[i].key;
    }
  }

  lemma {:induction false} AlikeNormalIsSame(a: Json, b: Json)
    requires WellFormed(a) && WellFormed(b) && Normal(a) == Normal(b)
    ensures Same(a, b)
  {
    hide SortByKey, Canonical, Normal, NormalMembers;
    match a
    case Array(items) =>
      ArraysAlike(a, b);
      forall i | 0 <= i < |items| ensures Same(items[i], b.items[i]) {
        AlikeNormalIsSame(items[i], b.items[i]);
      }
    case Object(ms) =>
      ObjectsAlike(a, b);
      forall i | 0 <= i < |ms|
        ensures HasKey(b.members, ms[i].key) && Same(ms[i].value, Lookup(b.members, ms[i].key))
      {
        assert HoldsAlike(b.members, ms[i]);
        var j :| 0 <= j < |b.members| && b.members[j].key == ms[i].key && Normal(b.members[j].value) == Normal(ms[i].value);
        assert Lookup(b.members, ms[i].key) == b.members[j].value;
        AlikeNormalIsSame(ms[i].value, b.members[j].value);
      }
    case _ =>
  }

  /** Lists that sort alike hold the same entries. */
  lemma {:induction false} SortedElsewhere(na: seq<Entry<Json>>, nb: seq<Entry<Json>>, i: nat) returns (j: nat)
    requires SortByKey(na) == SortByKey(nb) && i < |na|
    ensures j < |nb| && nb[j] == na[i]
  {
    assert multiset(na) == multiset(nb);
    SameMembers(na, nb);
    j :| 0 <= j < |nb| && nb[j] == na[i];
  }

  /** Two values that print have the same canonical text exactly when they are
      the same JSON value up to the order of object members. */
  lemma {:induction false} CanonicalIsInjective(a: Json, b: Json)
    requires WellFormed(a) && WellFormed(b) && !HasUndefined(a) && !HasUndefined(b)
    ensures Canonical(a) == Canonical(b) <==> Same(a, b)
  {
    ThrowsExactlyOnUndefined(a);
    ThrowsExactlyOnUndefined(b);
    if Canonical(a) == Canonical(b) {
      CanonicalReadsBack(a);
      CanonicalReadsBack(b);
      assert !ContinuesNumber([]);
      AlikeNormalIsSame(a, b);
    }
    if Same(a, b) {
      SamePrintsAlike(a, b);
    }
  }

  /** An object's members are written in ascending key order, whatever order they
      were given in. */
  lemma {:induction false} MembersAreWrittenAscending(v: Json, es: seq<Entry<Text>>)
    requires v.Object? && WellFormed(v) && Canonical(v).Some?
    requires |es| == |v.members| && Ascending(es)
    requires forall i :: 0 <= i < |v.members| ==> Entry(v.members[i].key, Canonical(v.members[i].value).value) in es
    ensures Canonical(v) == Some([0x7B] + Join(MemberTexts(es)) + [0x7D])
  {
    var keyed := KeyedTexts(v);
    assert DistinctKeys(keyed);
    assert DistinctKeys(es) by {
      forall i, j | 0 <= i < j < |es| ensures es[i].key != es[j].key {
        BeforeIsIrreflexive(es[i].key);
      }
    }
    SortForgetsOrder(keyed, es);
    SortedStays(es);
  }

  // ----- keywords and punctuation -----

  lemma {:induction false} KeywordTexts()
    ensures Canonical(Null) == Some(Ascii("null"))
    ensures Canonical(Bool(true)) == Some(Ascii("true")) && Canonical(Bool(false)) == Some(Ascii("false"))
  {
    assert NULL_TEXT == Ascii("null") && TRUE_TEXT == Ascii("true") && FALSE_TEXT == Ascii("false");
  }

  lemma {:induction false} CommaBetween(first: Text, rest: seq<Text>)
    ensures Join([]) == [] && Join([first]) == first
    ensures rest != [] ==> Join([first] + rest) == first + Ascii(",") + Join(rest)
  {
    assert ([first] + rest)[1..] == rest;
    assert Ascii(",") == [COMMA];
  }

  lemma {:induction false} BracketsAround(v: Json)
    requires v.Array? && Canonical(v).Some?
    ensures Canonical(v) == Some(Ascii("[") + Join(ItemTexts(v)) + Ascii("]"))
    ensures forall i :: 0 <= i < |v.items| ==> Canonical(v.items[i]) == Some(ItemTexts(v)[i])
  {
    assert Ascii("[") == [0x5B] && Ascii("]") == [0x5D];
  }

  lemma {:induction false} ColonBetween(e: Entry<Text>)
    ensures MemberText(e) == Ascii("\"") + EscapeText(e.key) + Ascii("\"") + Ascii(":") + e.value
  {
    assert Ascii("\"") == [QUOTE] && Ascii(":") == [COLON];
  }

  lemma {:induction false} BracesAround(v: Json, es: seq<Entry<Text>>)
    requires v.Object? && WellFormed(v) && Canonical(v).Some? && |es| == |v.members| && Ascending(es)
    requires forall i :: 0 <= i < |v.members| ==> Entry(v.members[i].key, Canonical(v.members[i].value).value) in es
    ensures Canonical(v) == Some(Ascii("{") + Join(MemberTexts(es)) + Ascii("}"))
  {
    hide Canonical, WellFormed, Ascending;
    MembersAreWrittenAscending(v, es);
    assert Ascii("{") == [0x7B] && Ascii("}") == [0x7D];
  }

  /** What the text cannot tell apart beyond member order: a non-finite number and null. */
  lemma {:induction false} NonFiniteCollidesWithNull()
    ensures NonFinite != Null && Canonical(NonFinite) == Canonical(Null)
  {
  }
}
