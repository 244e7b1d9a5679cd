/** The few `str` operations the parsers use: `trim`, `split_whitespace`, `split(char)` and `len`. */
module Text {

  /** `char::is_whitespace`: the Unicode `White_Space` property. */
  predicate IsWhitespace(c: char)
  {
    ('\t' <= c <= '\r') || c == ' ' || c == '\U{0085}' || c == '\U{00A0}' || c == '\U{1680}'
    || ('\U{2000}' <= c <= '\U{200A}') || c == '\U{2028}' || c == '\U{2029}' || c == '\U{202F}'
    || c == '\U{205F}' || c == '\U{3000}'
  }

  predicate AllWhitespace(s: string)
  {
    forall k :: 0 <= k < |s| ==> IsWhitespace(s[k])
  }

  predicate NoWhitespace(s: string)
  {
    forall k :: 0 <= k < |s| ==> !IsWhitespace(s[k])
  }

  /** `trim_start`: drop leading whitespace. */
  function TrimStart(s: string): (r: string)
    ensures |r| <= |s| && r == s[|s| - |r|..]
    ensures AllWhitespace(s[..|s| - |r|])
    ensures r == [] || !IsWhitespace(r[0])
  {
    if s == [] || !IsWhitespace(s[0]) then s
    else
      var r := TrimStart(s[1..]);
      TrimStartStep(s, r);
      r
  }

  /** One whitespace character in front extends the stripped prefix by one. */
  lemma TrimStartStep(s: string, r: string)
    requires s != [] && IsWhitespace(s[0])
    requires |r| <= |s| - 1 && r == s[1..][|s| - 1 - |r|..] && AllWhitespace(s[1..][..|s| - 1 - |r|])
    ensures r == s[|s| - |r|..] && AllWhitespace(s[..|s| - |r|])
  {
    var p := s[..|s| - |r|];
    forall k | 0 <= k < |p| ensures IsWhitespace(p[k]) {
      if k > 0 {
        assert p[k] == s[1..][..|s| - 1 - |r|][k - 1];
      }
    }
  }

  /** `trim_end`: drop trailing whitespace. */
  function TrimEnd(s: string): (r: string)
    ensures |r| <= |s| && r == s[..|r|]
    ensures AllWhitespace(s[|r|..])
    ensures r == [] || !IsWhitespace(r[|r| - 1])
  {
    if s == [] || !IsWhitespace(s[|s| - 1]) then s
    else
      var init := s[..|s| - 1];
      var r := TrimEnd(init);
      assert s[|r|..] == init[|r|..] + [s[|s| - 1]];
      r
  }

  /** `trim`: drop leading and trailing whitespace. */
  function Trim(s: string): (r: string)
    ensures r == [] || (!IsWhitespace(r[0]) && !IsWhitespace(r[|r| - 1]))
  {
    var t := TrimStart(s);
    var r := TrimEnd(t);
    assert r != [] ==> r[0] == t[0];
    r
  }

  /** A string with no whitespace at either end is its own trim. */
  lemma TrimUnchanged(s: string)
    requires s == [] || (!IsWhitespace(s[0]) && !IsWhitespace(s[|s| - 1]))
    ensures Trim(s) == s
  {
  }

  /** Trimming twice is trimming once. */
  lemma TrimIdempotent(s: string)
    ensures Trim(Trim(s)) == Trim(s)
  {
    TrimUnchanged(Trim(s));
  }

  /** Whitespace around a string does not change its trim. */
  lemma {:induction false} TrimPadding(pre: string, s: string, post: string)
    requires AllWhitespace(pre) && AllWhitespace(post)
    ensures Trim(pre + s + post) == Trim(s)
  {
    var x := pre + s + post;
    assert x == pre + (s + post);
    TrimStartPadding(pre, s + post);
    TrimStartAppend(s, post);
    assert Trim(x) == TrimEnd(TrimStart(x));
    assert Trim(s) == TrimEnd(TrimStart(s));
  }

  lemma {:induction false} TrimStartPadding(pre: string, s: string)
    requires AllWhitespace(pre)
    ensures TrimStart(pre + s) == TrimStart(s)
    decreases |pre|
  {
    if pre != [] {
      assert IsWhitespace(pre[0]);
      assert AllWhitespace(pre[1..]) by {
        forall k | 0 <= k < |pre[1..]|
          ensures IsWhitespace(pre[1..][k])
        {
          assert pre[1..][k] == pre[k + 1];
        }
      }
      assert (pre + s)[0] == pre[0];
      assert (pre + s)[1..] == pre[1..] + s;
      TrimStartPadding(pre[1..], s);
    } else {
      assert pre + s == s;
    }
  }

  lemma {:induction false} TrimEndPadding(s: string, post: string)
    requires AllWhitespace(post)
    ensures TrimEnd(s + post) == TrimEnd(s)
    decreases |post|
  {
    if post != [] {
      var init := post[..|post| - 1];
      assert IsWhitespace(post[|post| - 1]);
      assert AllWhitespace(init) by {
        forall k | 0 <= k < |init|
          ensures IsWhitespace(init[k])
        {
          assert init[k] == post[k];
        }
      }
      assert (s + post)[|s + post| - 1] == post[|post| - 1];
      assert (s + post)[..|s + post| - 1] == s + init;
      TrimEndPadding(s, init);
    } else {
      assert s + post == s;
    }
  }

  /** Trailing text is kept by `trim_start` unless the whole string is whitespace. */
  lemma {:induction false} TrimStartAppend(s: string, post: string)
    requires AllWhitespace(post)
    ensures TrimEnd(TrimStart(s + post)) == TrimEnd(TrimStart(s))
    decreases |s|
  {
    if s == [] {
      assert s + post == post;
      AllWhitespaceTrimStart(post);
    } else if !IsWhitespace(s[0]) {
      TrimEndPadding(s, post);
    } else {
      assert (s + post)[1..] == s[1..] + post;
      TrimStartAppend(s[1..], post);
    }
  }

  lemma {:induction false} AllWhitespaceTrimStart(s: string)
    requires AllWhitespace(s)
    ensures TrimStart(s) == []
    decreases |s|
  {
    if s != [] {
      AllWhitespaceTrimStart(s[1..]);
    }
  }

  /** Number of leading non-whitespace characters. */
  function TokenLength(s: string): (n: nat)
    ensures n <= |s|
    ensures NoWhitespace(s[..n])
    ensures n == |s| || IsWhitespace(s[n])
  {
    if s == [] || IsWhitespace(s[0]) then 0
    else
      var n := TokenLength(s[1..]);
      assert s[..n + 1] == [s[0]] + s[1..][..n];
      n + 1
  }

  /** A non-empty run of non-whitespace characters. */
  predicate IsToken(w: string)
  {
    w != [] && NoWhitespace(w)
  }

  /** `split_whitespace`: the maximal runs of non-whitespace characters, in order. */
  function SplitWhitespace(s: string): (r: seq<string>)
    ensures forall k :: 0 <= k < |r| ==> IsToken(r[k])
    decreases |s|
  {
    var t := TrimStart(s);
    if t == [] then []
    else
      var n := TokenLength(t);
      LeadingToken(t);
      var rest := SplitWhitespace(t[n..]);
      ConsTokens(t[..n], rest);
      [t[..n]] + rest
  }

  lemma ConsTokens(w: string, rest: seq<string>)
    requires IsToken(w) && forall k :: 0 <= k < |rest| ==> IsToken(rest[k])
    ensures forall k :: 0 <= k < |[w] + rest| ==> IsToken(([w] + rest)[k])
  {
    forall k | 0 <= k < |[w] + rest|
      ensures IsToken(([w] + rest)[k])
    {
      if k > 0 {
        assert ([w] + rest)[k] == rest[k - 1];
      }
    }
  }

  /** A string starting with a non-whitespace character starts with a token. */
  lemma LeadingToken(t: string)
    requires t != [] && !IsWhitespace(t[0])
    ensures 1 <= TokenLength(t) <= |t| && IsToken(t[..TokenLength(t)])
  {
  }

  /** The tokens joined by single spaces. */
  function JoinSpaces(ts: seq<string>): string
  {
    if ts == [] then [] else if |ts| == 1 then ts[0] else ts[0] + " " + JoinSpaces(ts[1..])
  }

  /** Splitting tokens joined by spaces gives the tokens back. */
  lemma {:induction false} SplitJoinSpaces(ts: seq<string>)
    requires forall k :: 0 <= k < |ts| ==> IsToken(ts[k])
    ensures SplitWhitespace(JoinSpaces(ts)) == ts
  {
    if |ts| == 1 {
      SingleToken(ts[0]);
    } else if |ts| > 1 {
      assert [ts[0]] + ts[1..] == ts;
      TailTokens(ts);
      SplitJoinSpaces(ts[1..]);
      ConsToken(ts);
    }
  }

  lemma TailTokens(ts: seq<string>)
    requires |ts| > 0 && forall k :: 0 <= k < |ts| ==> IsToken(ts[k])
    ensures forall k :: 0 <= k < |ts[1..]| ==> IsToken(ts[1..][k])
  {
    forall k | 0 <= k < |ts[1..]|
      ensures IsToken(ts[1..][k])
    {
      assert ts[1..][k] == ts[k + 1];
    }
  }

  lemma SingleToken(t: string)
    requires IsToken(t)
    ensures SplitWhitespace(JoinSpaces([t])) == [t]
  {
    SplitToken(t, []);
    assert t + [] == t;
    assert SplitWhitespace([]) == [];
  }

  lemma ConsToken(ts: seq<string>)
    requires |ts| > 1 && IsToken(ts[0])
    ensures SplitWhitespace(JoinSpaces(ts)) == [ts[0]] + SplitWhitespace(JoinSpaces(ts[1..]))
  {
    var rest := JoinSpaces(ts[1..]);
    assert JoinSpaces(ts) == ts[0] + (" " + rest);
    SplitToken(ts[0], " " + rest);
    SpaceThenTokens(rest);
  }

  /** A token followed by whitespace (or nothing) is split off first. */
  lemma SplitToken(t: string, rest: string)
    requires IsToken(t)
    requires rest == [] || IsWhitespace(rest[0])
    ensures SplitWhitespace(t + rest) == [t] + SplitWhitespace(rest)
  {
    assert (t + rest)[0] == t[0];
    assert TrimStart(t + rest) == t + rest;
    TokenOfPrefix(t, rest);
  }

  lemma SpaceThenTokens(rest: string)
    ensures SplitWhitespace(" " + rest) == SplitWhitespace(rest)
  {
    assert (" " + rest)[1..] == rest;
    assert TrimStart(" " + rest) == TrimStart(rest);
  }

  lemma {:induction false} TokenOfPrefix(t: string, rest: string)
    requires IsToken(t)
    requires rest == [] || IsWhitespace(rest[0])
    ensures TokenLength(t + rest) == |t|
    ensures (t + rest)[..|t|] == t && (t + rest)[|t|..] == rest
    decreases |t|
  {
    if |t| > 1 {
      assert (t + rest)[1..] == t[1..] + rest;
      TokenOfPrefix(t[1..], rest);
    } else {
      assert (t + rest)[1..] == rest;
    }
  }

  /** `split(sep)`: the pieces between separators, empty ones included. */
  function Split(s: string, sep: char): (r: seq<string>)
    ensures |r| >= 1
    ensures forall k :: 0 <= k < |r| ==> sep !in r[k]
    decreases |s|
  {
    if sep !in s then [s]
    else
      var k := FirstIndex(s, sep);
      [s[..k]] + Split(s[k + 1..], sep)
  }

  /** The position of the first `sep` in `s`. */
  function FirstIndex(s: string, sep: char): (k: nat)
    requires sep in s
    ensures k < |s| && s[k] == sep && sep !in s[..k]
    ensures forall j :: 0 <= j < k ==> s[j] != sep
  {
    if s[0] == sep then 0
    else
      assert sep in s[1..] by {
        var j :| 0 <= j < |s| && s[j] == sep;
        assert s[1..][j - 1] == sep;
      }
      var k := FirstIndex(s[1..], sep);
      assert s[..k + 1] == [s[0]] + s[1..][..k];
      k + 1
  }

  /** The pieces joined by the separator. */
  function Join(ps: seq<string>, sep: char): string
    requires |ps| >= 1
  {
    if |ps| == 1 then ps[0] else ps[0] + [sep] + Join(ps[1..], sep)
  }

  /** Joining the pieces gives the string back. */
  lemma {:induction false} JoinSplit(s: string, sep: char)
    ensures Join(Split(s, sep), sep) == s
    decreases |s|
  {
    if sep in s {
      var k := FirstIndex(s, sep);
      var rest := Split(s[k + 1..], sep);
      assert Split(s, sep) == [s[..k]] + rest;
      JoinSplit(s[k + 1..], sep);
      JoinCons(s[..k], rest, sep);
      assert s == s[..k] + [sep] + s[k + 1..];
    } else {
      assert Split(s, sep) == [s];
    }
  }

  lemma JoinCons(p: string, rest: seq<string>, sep: char)
    requires |rest| >= 1
    ensures Join([p] + rest, sep) == p + [sep] + Join(rest, sep)
  {
    assert ([p] + rest)[1..] == rest;
  }

  /** Splitting joined separator-free pieces gives the pieces back. */
  lemma {:induction false} SplitJoin(ps: seq<string>, sep: char)
    requires |ps| >= 1
    requires forall k :: 0 <= k < |ps| ==> sep !in ps[k]
    ensures Split(Join(ps, sep), sep) == ps
  {
    if |ps| > 1 {
      var s := Join(ps, sep);
      var rest := Join(ps[1..], sep);
      assert s == ps[0] + ([sep] + rest);
      assert s[|ps[0]|] == sep;
      assert sep in s;
      var k := FirstIndex(s, sep);
      assert forall j :: 0 <= j < |ps[0]| ==> s[j] == ps[0][j] && ps[0][j] != sep;
      assert k == |ps[0]|;
      assert s[..k] == ps[0];
      assert s[k + 1..] == rest;
      SplitJoin(ps[1..], sep);
    } else {
      assert Join(ps, sep) == ps[0];
    }
  }

  /** UTF-8 width of one character. */
  function Utf8Width(c: char): nat
  {
    if c < '\U{0080}' then 1 else if c < '\U{0800}' then 2 else if c < '\U{10000}' then 3 else 4
  }

  /** `str::len`: the length in UTF-8 bytes. */
  function Utf8Len(s: string): (n: nat)
    ensures n >= |s|
    ensures n == |s| <==> forall k :: 0 <= k < |s| ==> s[k] < '\U{0080}'
  {
    if s == [] then 0
    else
      var n := Utf8Width(s[0]) + Utf8Len(s[1..]);
      assert forall k :: 1 <= k < |s| ==> s[k] == s[1..][k - 1];
      n
  }
}
