/**
 * The string operations of the Rust standard library that the job runner
 * relies on: `char::is_whitespace`, `str::split_whitespace`,
 * `str::strip_prefix` and `str::trim`.
 */
module Text {
  import opened Wrappers

  /** The characters with the Unicode White_Space property. */
  const WhiteSpace: set<char> := {
    '\t', '\n', '\U{000B}', '\U{000C}', '\r', ' ', '\U{0085}', '\U{00A0}', '\U{1680}',
    '\U{2000}', '\U{2001}', '\U{2002}', '\U{2003}', '\U{2004}', '\U{2005}', '\U{2006}',
    '\U{2007}', '\U{2008}', '\U{2009}', '\U{200A}', '\U{2028}', '\U{2029}', '\U{202F}',
    '\U{205F}', '\U{3000}'
  }

  /** Rust's `char::is_whitespace`. */
  predicate IsWhitespace(c: char) {
    c in WhiteSpace
  }

  predicate AllWhitespace(s: string) {
    forall i :: 0 <= i < |s| ==> IsWhitespace(s[i])
  }

  predicate NoWhitespace(s: string) {
    forall i :: 0 <= i < |s| ==> !IsWhitespace(s[i])
  }

  /** A token as `split_whitespace` yields it: non-empty and free of whitespace. */
  predicate IsToken(t: string) {
    t != [] && NoWhitespace(t)
  }

  /** Neither the first nor the last character is whitespace. */
  predicate NoEdgeWhitespace(s: string) {
    s != [] ==> !IsWhitespace(s[0]) && !IsWhitespace(s[|s| - 1])
  }

  // ---------------------------------------------------------------------
  // split_whitespace
  // ---------------------------------------------------------------------

  /** Length of the longest whitespace-free prefix of `s`. */
  function TokenLength(s: string): (n: nat)
    ensures n <= |s|
    ensures NoWhitespace(s[..n])
    ensures n < |s| ==> IsWhitespace(s[n])
  {
    if s == [] || IsWhitespace(s[0]) then 0 else 1 + TokenLength(s[1..])
  }

  /**
   * `str::split_whitespace`: the maximal runs of non-whitespace characters,
   * in order. Quotes and backslashes are ordinary characters.
   */
  function SplitWhitespace(s: string): (ts: seq<string>)
    ensures forall k :: 0 <= k < |ts| ==> IsToken(ts[k])
    decreases |s|
  {
    if s == [] then []
    else if IsWhitespace(s[0]) then SplitWhitespace(s[1..])
    else
      var n := TokenLength(s);
      [s[..n]] + SplitWhitespace(s[n..])
  }

  /** Reference: `s` with every whitespace character deleted. */
  function RemoveWhitespace(s: string): string {
    if s == [] then []
    else if IsWhitespace(s[0]) then RemoveWhitespace(s[1..])
    else [s[0]] + RemoveWhitespace(s[1..])
  }

  function Concat(ts: seq<string>): string {
    if ts == [] then [] else ts[0] + Concat(ts[1..])
  }

  /** The tokens joined by single spaces. */
  function JoinSpaced(ts: seq<string>): string {
    if ts == [] then []
    else if |ts| == 1 then ts[0]
    else ts[0] + " " + JoinSpaced(ts[1..])
  }

  lemma {:induction false} RemoveWhitespaceAppend(a: string, b: string)
    ensures RemoveWhitespace(a + b) == RemoveWhitespace(a) + RemoveWhitespace(b)
    decreases |a|
  {
    if a != [] {
      assert (a + b)[0] == a[0] && (a + b)[1..] == a[1..] + b;
      RemoveWhitespaceAppend(a[1..], b);
    } else {
      assert a + b == b;
    }
  }

  lemma {:induction false} RemoveWhitespaceOfToken(t: string)
    requires NoWhitespace(t)
    ensures RemoveWhitespace(t) == t
    decreases |t|
  {
    if t != [] {
      RemoveWhitespaceOfToken(t[1..]);
    }
  }

  lemma ConcatCons(t: string, ts: seq<string>)
    ensures Concat([t] + ts) == t + Concat(ts)
  {
    assert ([t] + ts)[1..] == ts;
  }

  /**
   * Nothing is lost or reordered but whitespace: the tokens, concatenated,
   * are exactly the non-whitespace characters of `s`.
   */
  lemma {:induction false} SplitWhitespaceKeepsCharacters(s: string)
    ensures Concat(SplitWhitespace(s)) == RemoveWhitespace(s)
    decreases |s|
  {
    if s == [] {
    } else if IsWhitespace(s[0]) {
      SplitWhitespaceKeepsCharacters(s[1..]);
    } else {
      var n := TokenLength(s);
      var token, rest := s[..n], s[n..];
      assert SplitWhitespace(s) == [token] + SplitWhitespace(rest);
      SplitWhitespaceKeepsCharacters(rest);
      ConcatCons(token, SplitWhitespace(rest));
      assert s == token + rest;
      RemoveWhitespaceAppend(token, rest);
      RemoveWhitespaceOfToken(token);
    }
  }

  /** No token at all exactly when the string is empty or all whitespace. */
  lemma {:induction false} SplitWhitespaceEmptyIff(s: string)
    ensures SplitWhitespace(s) == [] <==> AllWhitespace(s)
    decreases |s|
  {
    if s != [] && IsWhitespace(s[0]) {
      SplitWhitespaceEmptyIff(s[1..]);
      assert AllWhitespace(s) <==> AllWhitespace(s[1..]) by {
        if AllWhitespace(s[1..]) {
          forall i | 0 <= i < |s| ensures IsWhitespace(s[i]) {
            if i > 0 { assert s[i] == s[1..][i - 1]; }
          }
        }
      }
    }
  }

  /** Leading whitespace never changes the tokens. */
  lemma {:induction false} SplitWhitespaceSkipsLeading(w: string, s: string)
    requires AllWhitespace(w)
    ensures SplitWhitespace(w + s) == SplitWhitespace(s)
    decreases |w|
  {
    if w != [] {
      assert (w + s)[0] == w[0] && (w + s)[1..] == w[1..] + s;
      SplitWhitespaceSkipsLeading(w[1..], s);
    } else {
      assert w + s == s;
    }
  }

  lemma {:induction false} TokenLengthOfToken(t: string, rest: string)
    requires NoWhitespace(t)
    requires rest == [] || IsWhitespace(rest[0])
    ensures TokenLength(t + rest) == |t|
    decreases |t|
  {
    if t == [] {
    } else {
      assert (t + rest)[1..] == t[1..] + rest;
      TokenLengthOfToken(t[1..], rest);
    }
  }

  /** A token followed by whitespace or the end is split off as one token. */
  lemma SplitWhitespaceFirstToken(t: string, rest: string)
    requires IsToken(t)
    requires rest == [] || IsWhitespace(rest[0])
    ensures SplitWhitespace(t + rest) == [t] + SplitWhitespace(rest)
  {
    TokenLengthOfToken(t, rest);
    var s := t + rest;
    assert s[..|t|] == t;
    assert s[|t|..] == rest;
  }

  /**
   * Round trip: splitting tokens that were joined by single spaces gives
   * the same tokens back.
   */
  lemma {:induction false} SplitWhitespaceJoinSpaced(ts: seq<string>)
    requires forall k :: 0 <= k < |ts| ==> IsToken(ts[k])
    ensures SplitWhitespace(JoinSpaced(ts)) == ts
    decreases |ts|
  {
    if ts == [] {
    } else if |ts| == 1 {
      SplitWhitespaceFirstToken(ts[0], []);
      assert ts[0] + [] == ts[0];
    } else {
      var rest := JoinSpaced(ts[1..]);
      SplitWhitespaceJoinSpaced(ts[1..]);
      assert ts[0] + " " + rest == ts[0] + (" " + rest);
      SplitWhitespaceFirstToken(ts[0], " " + rest);
      assert AllWhitespace(" ");
      SplitWhitespaceSkipsLeading(" ", rest);
    }
  }

  // ---------------------------------------------------------------------
  // strip_prefix and trim
  // ---------------------------------------------------------------------

  /** `str::strip_prefix`: the rest of `s` after `p`, if `s` begins with `p`. */
  function StripPrefix(s: string, p: string): (r: Option<string>)
    ensures r.Some? <==> (|p| <= |s| && s[..|p|] == p)
    ensures r.Some? ==> p + r.value == s
  {
    if |p| <= |s| && s[..|p|] == p then Some(s[|p|..]) else None
  }

  lemma StripPrefixOfConcat(p: string, t: string)
    ensures StripPrefix(p + t, p) == Some(t)
  {
    assert (p + t)[..|p|] == p;
    assert (p + t)[|p|..] == t;
  }

  /** The number of whitespace characters `s` starts with. */
  function LeadingWhitespace(s: string): (n: nat)
    ensures n <= |s| && AllWhitespace(s[..n])
    ensures n < |s| ==> !IsWhitespace(s[n])
  {
    if s != [] && IsWhitespace(s[0]) then 1 + LeadingWhitespace(s[1..]) else 0
  }

  /** The number of whitespace characters `s` ends with. */
  function TrailingWhitespace(s: string): (n: nat)
    ensures n <= |s| && AllWhitespace(s[|s| - n..])
    ensures n < |s| ==> !IsWhitespace(s[|s| - n - 1])
  {
    if s != [] && IsWhitespace(s[|s| - 1]) then 1 + TrailingWhitespace(s[..|s| - 1]) else 0
  }

  /** `str::trim_start`: drops the leading whitespace. */
  function TrimStart(s: string): string {
    s[LeadingWhitespace(s)..]
  }

  /** `str::trim_end`: drops the trailing whitespace. */
  function TrimEnd(s: string): string {
    s[..|s| - TrailingWhitespace(s)]
  }

  /** `str::trim`: drops the leading and the trailing whitespace. */
  function Trim(s: string): (r: string)
    ensures NoEdgeWhitespace(r)
  {
    var a := TrimStart(s);
    var i := LeadingWhitespace(s);
    var j := TrailingWhitespace(a);
    assert a[..|a| - j] != [] ==> a[..|a| - j][0] == s[i];
    TrimEnd(a)
  }

  /** A sequence cut in three pieces, put back together. */
  lemma SplitThree<T>(s: seq<T>, i: nat, rest: seq<T>, k: nat)
    requires i <= |s| && rest == s[i..] && k <= |rest|
    ensures s == s[..i] + rest[..k] + rest[k..]
  {
    assert s == s[..i] + rest;
    assert rest == rest[..k] + rest[k..];
  }

  /** The whitespace `Trim` drops on either side of its result. */
  lemma TrimmedPadding(s: string) returns (a: string, b: string)
    ensures AllWhitespace(a) && AllWhitespace(b) && s == a + Trim(s) + b
  {
    var i := LeadingWhitespace(s);
    var rest := s[i..];
    var k := |rest| - TrailingWhitespace(rest);
    SplitThree(s, i, rest, k);
    assert Trim(s) == rest[..k];
    a, b := s[..i], rest[k..];
  }

  /** A string is its trimmed self with whitespace on either side. */
  lemma TrimDecomposes(s: string)
    ensures exists a, b :: AllWhitespace(a) && AllWhitespace(b) && s == a + Trim(s) + b
  {
    var a, b := TrimmedPadding(s);
  }

  lemma {:induction false} LeadingWhitespacePadded(w: string, t: string)
    requires AllWhitespace(w)
    requires t == [] || !IsWhitespace(t[0])
    ensures LeadingWhitespace(w + t) == |w|
    decreases |w|
  {
    if w != [] {
      assert (w + t)[0] == w[0] && (w + t)[1..] == w[1..] + t;
      LeadingWhitespacePadded(w[1..], t);
    } else {
      assert w + t == t;
    }
  }

  lemma {:induction false} TrailingWhitespacePadded(t: string, w: string)
    requires AllWhitespace(w)
    requires t == [] || !IsWhitespace(t[|t| - 1])
    ensures TrailingWhitespace(t + w) == |w|
    decreases |w|
  {
    if w != [] {
      assert (t + w)[|t + w| - 1] == w[|w| - 1];
      assert (t + w)[..|t + w| - 1] == t + w[..|w| - 1];
      TrailingWhitespacePadded(t, w[..|w| - 1]);
    } else {
      assert t + w == t;
    }
  }

  lemma TrimStartPadded(w: string, t: string)
    requires AllWhitespace(w)
    requires t == [] || !IsWhitespace(t[0])
    ensures TrimStart(w + t) == t
  {
    LeadingWhitespacePadded(w, t);
    assert (w + t)[|w|..] == t;
  }

  lemma TrimEndPadded(t: string, w: string)
    requires AllWhitespace(w)
    requires t == [] || !IsWhitespace(t[|t| - 1])
    ensures TrimEnd(t + w) == t
  {
    TrailingWhitespacePadded(t, w);
    assert (t + w)[..|t|] == t;
  }

  /** Whitespace around a string with no edge whitespace is exactly what trim removes. */
  lemma TrimPadded(a: string, t: string, b: string)
    requires AllWhitespace(a) && AllWhitespace(b)
    requires NoEdgeWhitespace(t)
    ensures Trim(a + t + b) == t
  {
    if t == [] {
      assert a + t + b == a + b;
      assert AllWhitespace(a + b) by {
        forall i | 0 <= i < |a + b| ensures IsWhitespace((a + b)[i]) {
          if i >= |a| { assert (a + b)[i] == b[i - |a|]; }
        }
      }
      TrimStartPadded(a + b, []);
      assert a + b + [] == a + b;
    } else {
      assert a + t + b == a + (t + b);
      TrimStartPadded(a, t + b);
      TrimEndPadded(t, b);
    }
  }
}
