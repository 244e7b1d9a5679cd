/**
 * Hand ranges (`range.rs`): the token grammar `AA`, `QQ+`, `AKs`, `ATs+`,
 * `AQo`, `AK`, its expansion into concrete hole cards away from dead cards,
 * and the sorted, de-duplicated combo list with its counts.
 */
module Ranges {
  import opened Wrappers
  import opened Cards
  import opened CardSets
  import opened Hands
  import opened Text

  // ------------------------------------------------------------------ patterns

  datatype HandPattern =
    | Pair(v: Value)
    | PairPlus(v: Value)
    | Suited(high: Value, low: Value)
    | SuitedPlus(high: Value, low: Value)
    | Offsuit(high: Value, low: Value)
    | OffsuitPlus(high: Value, low: Value)
    | Any(high: Value, low: Value)
    | AnyPlus(high: Value, low: Value)

  datatype RangeParseError =
    | InvalidFormat(text: string)
    | InvalidValue(c: char)
    | InvalidSuitMarker(c: char)

  /** A two-value pattern names a greater and a smaller value; parsing builds nothing else. */
  predicate ValidPattern(p: HandPattern)
  {
    (p.Pair? || p.PairPlus?) || Rank(p.low) < Rank(p.high)
  }

  predicate IsPlus(p: HandPattern)
  {
    p.PairPlus? || p.SuitedPlus? || p.OffsuitPlus? || p.AnyPlus?
  }

  /** The pattern for `high`/`low` with suit marker `marker` (any other character for none), one `+` or not. */
  function PatternOf(high: Value, low: Value, marker: char, plus: bool): (p: HandPattern)
    requires Rank(low) <= Rank(high)
    ensures ValidPattern(p) && IsPlus(p) == plus
    ensures p.Pair? || p.PairPlus? <==> high == low
    ensures p.Suited? || p.SuitedPlus? <==> high != low && marker == 's'
    ensures p.Offsuit? || p.OffsuitPlus? <==> high != low && marker == 'o'
    ensures (p.Pair? || p.PairPlus?) ==> p.v == high
    ensures !(p.Pair? || p.PairPlus?) ==> p.high == high && p.low == low
  {
    if high == low then (if plus then PairPlus(high) else Pair(high))
    else if marker == 's' then (if plus then SuitedPlus(high, low) else Suited(high, low))
    else if marker == 'o' then (if plus then OffsuitPlus(high, low) else Offsuit(high, low))
    else (if plus then AnyPlus(high, low) else Any(high, low))
  }

  /**
   * `HandPattern::parse`: trim, strip one trailing `+`, and demand a base of
   * 2 or 3 bytes before reading it.
   */
  function ParsePattern(s: string): (r: Result<HandPattern, RangeParseError>)
    ensures r.Ok? ==> ValidPattern(r.value)
  {
    ParseTrimmed(Trim(s))
  }

  /** The parse after trimming: one trailing `+` is split off before the length check. */
  function ParseTrimmed(t: string): (r: Result<HandPattern, RangeParseError>)
    ensures r.Ok? ==> ValidPattern(r.value)
  {
    var plus := |t| > 0 && t[|t| - 1] == '+';
    var base := if plus then t[..|t| - 1] else t;
    if Utf8Len(base) < 2 || Utf8Len(base) > 3 then Err(InvalidFormat(t))
    else ParseBase(base, plus)
  }

  /** The base (the trimmed text without one trailing `+`) must be two or three bytes long. */
  lemma ParseFormat(s: string)
    ensures var t := Trim(s); var base := if |t| > 0 && t[|t| - 1] == '+' then t[..|t| - 1] else t;
      (Utf8Len(base) < 2 || Utf8Len(base) > 3 <==> ParsePattern(s) == Err(InvalidFormat(t)))
  {
  }

  /** A pattern is a `+` pattern exactly when the trimmed text ends in `+`. */
  lemma ParsePlus(s: string)
    requires ParsePattern(s).Ok?
    ensures |Trim(s)| > 0 && (IsPlus(ParsePattern(s).value) <==> Trim(s)[|Trim(s)| - 1] == '+')
  {
  }

  /**
   * The base of a pattern: two value characters (in either order), then the
   * optional suit marker. Equal values make a pair whatever follows.
   */
  function ParseBase(base: string, plus: bool): (r: Result<HandPattern, RangeParseError>)
    requires 2 <= Utf8Len(base) <= 3
    ensures r.Ok? ==> ValidPattern(r.value) && IsPlus(r.value) == plus
    ensures r.Err? ==> !r.error.InvalidFormat?
  {
    match ValueFromChar(base[0])
    case None => Err(InvalidValue(base[0]))
    case Some(v1) =>
      OneByteValue(base);
      match ValueFromChar(base[1])
      case None => Err(InvalidValue(base[1]))
      case Some(v2) => ParseMarker(base, v1, v2, plus)
  }

  /** After two values: a pair, or the suit marker of a two-value pattern. */
  function ParseMarker(base: string, v1: Value, v2: Value, plus: bool): (r: Result<HandPattern, RangeParseError>)
    requires |base| >= 2
    ensures r.Ok? ==> ValidPattern(r.value) && IsPlus(r.value) == plus
    ensures r.Err? ==> !r.error.InvalidFormat?
  {
    var high := if Rank(v1) >= Rank(v2) then v1 else v2;
    var low := if Rank(v1) >= Rank(v2) then v2 else v1;
    if high == low then Ok(PatternOf(high, low, '0', plus))
    else if |base| == 3 then
      if base[2] == 's' || base[2] == 'o' then Ok(PatternOf(high, low, base[2], plus))
      else Err(InvalidSuitMarker(base[2]))
    else Ok(PatternOf(high, low, '0', plus))
  }

  /** Value characters are ASCII, and neither whitespace nor `+`. */
  lemma ValueCharAscii(c: char)
    requires ValueFromChar(c).Some?
    ensures c < '\U{0080}' && !IsWhitespace(c) && c != '+'
  {
  }

  /** A value character is one byte, so a base of two or more bytes starting with one has a second character. */
  lemma OneByteValue(base: string)
    requires |base| > 0 && ValueFromChar(base[0]).Some? && Utf8Len(base) >= 2
    ensures |base| >= 2
  {
    ValueCharAscii(base[0]);
    assert Utf8Len(base) == Utf8Width(base[0]) + Utf8Len(base[1..]);
  }

  /** The text of a pattern before its `+`. */
  function PatternBase(p: HandPattern): (s: string)
  {
    match p
    case Pair(v) => [ValueToChar(v), ValueToChar(v)]
    case PairPlus(v) => [ValueToChar(v), ValueToChar(v)]
    case Suited(h, l) => [ValueToChar(h), ValueToChar(l), 's']
    case SuitedPlus(h, l) => [ValueToChar(h), ValueToChar(l), 's']
    case Offsuit(h, l) => [ValueToChar(h), ValueToChar(l), 'o']
    case OffsuitPlus(h, l) => [ValueToChar(h), ValueToChar(l), 'o']
    case Any(h, l) => [ValueToChar(h), ValueToChar(l)]
    case AnyPlus(h, l) => [ValueToChar(h), ValueToChar(l)]
  }

  /** `Display for HandPattern`: the values, the marker, and `+` for the `+` patterns. */
  function PatternToString(p: HandPattern): (s: string)
  {
    PatternBase(p) + (if IsPlus(p) then "+" else "")
  }

  lemma ValueCharClean(v: Value)
    ensures ValueToChar(v) < '\U{0080}' && !IsWhitespace(ValueToChar(v)) && ValueToChar(v) != '+'
  {
  }

  /** Text without whitespace, `+` or wide characters parses straight from its base. */
  lemma ParseCleanText(base: string, plus: bool)
    requires 2 <= |base| <= 3
    requires !IsWhitespace(base[0]) && !IsWhitespace(base[|base| - 1]) && base[|base| - 1] != '+'
    requires Utf8Len(base) == |base|
    ensures ParsePattern(base + (if plus then "+" else "")) == ParseBase(base, plus)
  {
    var s := base + (if plus then "+" else "");
    assert ParsePattern(s) == ParseTrimmed(s) by {
      CleanTextTrim(base, plus);
    }
    assert ParseTrimmed(s) == ParseBase(base, plus) by {
      ParseTrimmedClean(base, plus);
    }
  }

  /** Once trimming has nothing to remove, the trailing `+` and the base separate cleanly. */
  lemma ParseTrimmedClean(base: string, plus: bool)
    requires 2 <= |base| <= 3 && base[|base| - 1] != '+'
    requires Utf8Len(base) == |base|
    ensures ParseTrimmed(base + (if plus then "+" else "")) == ParseBase(base, plus)
  {
    var t := base + (if plus then "+" else "");
    assert (|t| > 0 && t[|t| - 1] == '+') == plus;
    assert (if plus then t[..|t| - 1] else t) == base;
  }

  lemma CleanTextTrim(base: string, plus: bool)
    requires |base| > 0 && !IsWhitespace(base[0]) && !IsWhitespace(base[|base| - 1])
    ensures Trim(base + (if plus then "+" else "")) == base + (if plus then "+" else "")
  {
    var s := base + (if plus then "+" else "");
    assert s[0] == base[0];
    TrimUnchanged(s);
  }

  /** Printing a pattern and parsing the text gives the pattern back. */
  lemma PatternRoundTrip(p: HandPattern)
    requires ValidPattern(p)
    ensures ParsePattern(PatternToString(p)) == Ok(p)
  {
    BaseClean(p);
    ParseCleanText(PatternBase(p), IsPlus(p));
    BaseRoundTrip(p);
  }

  lemma BaseClean(p: HandPattern)
    ensures 2 <= |PatternBase(p)| <= 3
    ensures var base := PatternBase(p);
      !IsWhitespace(base[0]) && !IsWhitespace(base[|base| - 1]) && base[|base| - 1] != '+'
    ensures Utf8Len(PatternBase(p)) == |PatternBase(p)|
  {
    if p.Pair? || p.PairPlus? {
      ValueCharClean(p.v);
    } else {
      ValueCharClean(p.high);
      ValueCharClean(p.low);
    }
  }

  /** The base of a printed pattern reads back as the pattern. */
  lemma BaseRoundTrip(p: HandPattern)
    requires ValidPattern(p)
    ensures 2 <= Utf8Len(PatternBase(p)) <= 3
    ensures ParseBase(PatternBase(p), IsPlus(p)) == Ok(p)
  {
    BaseClean(p);
    if p.Pair? || p.PairPlus? {
      PairBaseRoundTrip(p);
    } else {
      TwoValueBaseRoundTrip(p);
    }
  }

  lemma PairBaseRoundTrip(p: HandPattern)
    requires ValidPattern(p) && (p.Pair? || p.PairPlus?)
    requires 2 <= Utf8Len(PatternBase(p)) <= 3
    ensures ParseBase(PatternBase(p), IsPlus(p)) == Ok(p)
  {
    var base := PatternBase(p);
    ValueCharRoundTrip(p.v, 'x');
    assert base[0] == base[1] == ValueToChar(p.v);
  }

  lemma TwoValueBaseRoundTrip(p: HandPattern)
    requires ValidPattern(p) && !p.Pair? && !p.PairPlus?
    requires 2 <= Utf8Len(PatternBase(p)) <= 3
    ensures ParseBase(PatternBase(p), IsPlus(p)) == Ok(p)
  {
    var m := if p.Suited? || p.SuitedPlus? then "s" else if p.Offsuit? || p.OffsuitPlus? then "o" else "";
    assert PatternBase(p) == [ValueToChar(p.high), ValueToChar(p.low)] + m;
    ParseTwoValues(p.high, p.low, m, IsPlus(p));
  }

  /** Two different values, high first, then an optional marker read as the matching two-value pattern. */
  lemma ParseTwoValues(high: Value, low: Value, m: string, plus: bool)
    requires Rank(low) < Rank(high) && (m == "" || m == "s" || m == "o")
    requires 2 <= Utf8Len([ValueToChar(high), ValueToChar(low)] + m) <= 3
    ensures ParseBase([ValueToChar(high), ValueToChar(low)] + m, plus) == Ok(PatternOf(high, low, if m == "" then '0' else m[0], plus))
  {
    var base := [ValueToChar(high), ValueToChar(low)] + m;
    ValueCharRoundTrip(high, 'x');
    ValueCharRoundTrip(low, 'x');
    assert base[0] == ValueToChar(high) && base[1] == ValueToChar(low);
  }

  /** Two ASCII characters in front add two bytes, in either order. */
  lemma Utf8LenTwo(a: char, b: char, m: string)
    requires a < '\U{0080}' && b < '\U{0080}'
    ensures Utf8Len([a, b] + m) == 2 + Utf8Len(m) == Utf8Len([b, a] + m)
  {
    assert ([a, b] + m)[1..] == [b] + m;
    assert ([b, a] + m)[1..] == [a] + m;
    assert ([b] + m)[1..] == m;
    assert ([a] + m)[1..] == m;
  }

  /** The base reads the same with its two value characters swapped. */
  lemma ParseBaseOrderFree(a: char, b: char, m: string, plus: bool)
    requires ValueFromChar(a).Some? && ValueFromChar(b).Some?
    requires 2 <= Utf8Len([a, b] + m) <= 3 && 2 <= Utf8Len([b, a] + m) <= 3
    ensures ParseBase([a, b] + m, plus) == ParseBase([b, a] + m, plus)
  {
    var v1 := ValueFromChar(a).value;
    var v2 := ValueFromChar(b).value;
    ValuesRanks(v1);
    ValuesRanks(v2);
    assert ([a, b] + m)[0] == a && ([a, b] + m)[1] == b;
    assert ([b, a] + m)[0] == b && ([b, a] + m)[1] == a;
    assert |[a, b] + m| == 3 ==> ([a, b] + m)[2] == ([b, a] + m)[2];
  }

  /**
   * The two value characters may come in either order: `KA` is `AK`. Only a
   * format error differs, because it quotes the text as written.
   */
  lemma ParseOrderFree(a: char, b: char, rest: string)
    requires ValueFromChar(a).Some? && ValueFromChar(b).Some?
    requires NoWhitespace(rest)
    ensures var s1, s2 := [a, b] + rest, [b, a] + rest;
      ParsePattern(s1) == ParsePattern(s2) ||
      (ParsePattern(s1) == Err(InvalidFormat(s1)) && ParsePattern(s2) == Err(InvalidFormat(s2)))
  {
    assert ParsePattern([a, b] + rest) == ParseTrimmed([a, b] + rest) by {
      ValueTextTrim(a, b, rest);
    }
    assert ParsePattern([b, a] + rest) == ParseTrimmed([b, a] + rest) by {
      ValueTextTrim(b, a, rest);
    }
    ParseTrimmedOrderFree(a, b, rest);
  }

  /** Text that starts with a value character and has no whitespace is already trimmed. */
  lemma ValueTextTrim(a: char, b: char, rest: string)
    requires ValueFromChar(a).Some? && ValueFromChar(b).Some? && NoWhitespace(rest)
    ensures Trim([a, b] + rest) == [a, b] + rest
  {
    ValueCharAscii(a);
    ValueCharAscii(b);
    var s := [a, b] + rest;
    if rest != [] {
      assert s[|s| - 1] == rest[|rest| - 1];
    }
    assert s[0] == a;
    TrimUnchanged(s);
  }

  /** `ParseTrimmed` unfolded once its `+` and base are named. */
  lemma ParseTrimmedSplit(t: string, base: string, plus: bool)
    requires plus == (|t| > 0 && t[|t| - 1] == '+')
    requires base == if plus then t[..|t| - 1] else t
    ensures ParseTrimmed(t) == if 2 <= Utf8Len(base) <= 3 then ParseBase(base, plus) else Err(InvalidFormat(t))
  {
  }

  /** Two leading characters followed by `rest`: the `+` and the marker both come from `rest`. */
  lemma ParseTrimmedLead(x: char, y: char, rest: string, m: string, plus: bool)
    requires y != '+'
    requires plus == (rest != [] && rest[|rest| - 1] == '+')
    requires m == if plus then rest[..|rest| - 1] else rest
    ensures ParseTrimmed([x, y] + rest) == if 2 <= Utf8Len([x, y] + m) <= 3 then ParseBase([x, y] + m, plus) else Err(InvalidFormat([x, y] + rest))
  {
    var t := [x, y] + rest;
    if rest != [] {
      assert t[|t| - 1] == rest[|rest| - 1];
    } else {
      assert t[|t| - 1] == y;
    }
    assert (if plus then t[..|t| - 1] else t) == [x, y] + m;
    ParseTrimmedSplit(t, [x, y] + m, plus);
  }

  lemma ParseTrimmedOrderFree(a: char, b: char, rest: string)
    requires ValueFromChar(a).Some? && ValueFromChar(b).Some?
    ensures var s1, s2 := [a, b] + rest, [b, a] + rest;
      ParseTrimmed(s1) == ParseTrimmed(s2) ||
      (ParseTrimmed(s1) == Err(InvalidFormat(s1)) && ParseTrimmed(s2) == Err(InvalidFormat(s2)))
  {
    ValueCharAscii(a);
    ValueCharAscii(b);
    var plus := rest != [] && rest[|rest| - 1] == '+';
    var m := if plus then rest[..|rest| - 1] else rest;
    ParseTrimmedLead(a, b, rest, m, plus);
    ParseTrimmedLead(b, a, rest, m, plus);
    Utf8LenTwo(a, b, m);
    if 2 <= Utf8Len([a, b] + m) <= 3 {
      ParseBaseOrderFree(a, b, m, plus);
    }
  }
}
