/**
 * The .NET string primitives the sort-directive engine relies on: ordinal and
 * ordinal-ignore-case comparison, IndexOf from a start index, StartsWith and
 * EndsWith with a comparison mode, Trim and Split on one character.
 * Strings are sequences of UTF-16 code units (Dafny `char`).
 */
module DotNetStrings {

  /** The two members of System.StringComparison the system uses. */
  datatype StringComparison = Ordinal | OrdinalIgnoreCase

  /** Upper-case mapping used by OrdinalIgnoreCase, restricted to ASCII letters. */
  function ToUpperAscii(c: char): (u: char)
    ensures 'a' <= c <= 'z' ==> u as int == c as int - 32
    ensures !('a' <= c <= 'z') ==> u == c
  {
    if 'a' <= c <= 'z' then (c as int - 32) as char else c
  }

  predicate CharEquals(a: char, b: char, comparison: StringComparison) {
    match comparison
    case Ordinal => a == b
    case OrdinalIgnoreCase => ToUpperAscii(a) == ToUpperAscii(b)
  }

  /** `a` and `b` have the same length and agree code unit by code unit under `comparison`. */
  predicate SeqEquals(a: string, b: string, comparison: StringComparison)
    decreases |a|
  {
    |a| == |b| && (|a| == 0 || (CharEquals(a[0], b[0], comparison) && SeqEquals(a[1..], b[1..], comparison)))
  }

  lemma {:induction false} SeqEqualsPointwise(a: string, b: string, comparison: StringComparison)
    ensures SeqEquals(a, b, comparison) <==>
            |a| == |b| && forall k :: 0 <= k < |a| ==> CharEquals(a[k], b[k], comparison)
    decreases |a|
  {
    if |a| > 0 && |b| > 0 {
      SeqEqualsPointwise(a[1..], b[1..], comparison);
      if |a| == |b| && forall k :: 0 <= k < |a| ==> CharEquals(a[k], b[k], comparison) {
        assert forall k :: 0 <= k < |a| - 1 ==> CharEquals(a[1..][k], b[1..][k], comparison) by {
          forall k | 0 <= k < |a| - 1 ensures CharEquals(a[1..][k], b[1..][k], comparison) {
            assert a[1..][k] == a[k + 1] && b[1..][k] == b[k + 1];
          }
        }
      }
    }
  }

  /** Under Ordinal, comparison is plain equality. */
  lemma OrdinalEqualsIsEquality(a: string, b: string)
    ensures SeqEquals(a, b, Ordinal) <==> a == b
  {
    SeqEqualsPointwise(a, b, Ordinal);
  }

  /** Every Ordinal match is an OrdinalIgnoreCase match. */
  lemma OrdinalImpliesIgnoreCase(a: string, b: string)
    ensures SeqEquals(a, b, Ordinal) ==> SeqEquals(a, b, OrdinalIgnoreCase)
  {
    SeqEqualsPointwise(a, b, Ordinal);
    SeqEqualsPointwise(a, b, OrdinalIgnoreCase);
  }

  lemma SeqEqualsReflexive(a: string, comparison: StringComparison)
    ensures SeqEquals(a, a, comparison)
  {
    SeqEqualsPointwise(a, a, comparison);
  }

  /** Comparison of two non-empty strings is comparison of their first code units, then of the rest. */
  lemma SeqEqualsCons(a: string, b: string, comparison: StringComparison)
    requires |a| > 0 && |b| > 0
    ensures SeqEquals(a, b, comparison) <==> CharEquals(a[0], b[0], comparison) && SeqEquals(a[1..], b[1..], comparison)
  {
  }

  /** `s` with every ASCII letter upper-cased. */
  function UpperAscii(s: string): (u: string)
    ensures |u| == |s| && forall k :: 0 <= k < |s| ==> u[k] == ToUpperAscii(s[k])
  {
    seq(|s|, k requires 0 <= k < |s| => ToUpperAscii(s[k]))
  }

  /** Two strings are equal ignoring case exactly when their upper-cased forms are equal. */
  lemma IgnoreCaseEqualsUpper(a: string, b: string)
    ensures SeqEquals(a, b, OrdinalIgnoreCase) <==> UpperAscii(a) == UpperAscii(b)
  {
    SeqEqualsPointwise(a, b, OrdinalIgnoreCase);
    if UpperAscii(a) == UpperAscii(b) {
      forall k | 0 <= k < |a| ensures CharEquals(a[k], b[k], OrdinalIgnoreCase) {
        assert UpperAscii(a)[k] == UpperAscii(b)[k];
      }
    }
  }

  /** `value` occurs in `s` at index `i`. */
  predicate MatchesAt(s: string, value: string, i: int, comparison: StringComparison) {
    0 <= i && i + |value| <= |s| && SeqEquals(s[i..i + |value|], value, comparison)
  }

  /** A match inside `s` is a match inside any extension of `s`, and conversely. */
  lemma MatchesAtExtend(s: string, t: string, value: string, i: int, comparison: StringComparison)
    requires 0 <= i && i + |value| <= |s|
    ensures MatchesAt(s, value, i, comparison) <==> MatchesAt(s + t, value, i, comparison)
  {
    assert (s + t)[i..i + |value|] == s[i..i + |value|];
  }

  /**
   * String.IndexOf(value, startIndex, comparison): the first index at or after
   * `start` where `value` occurs, or -1 when there is none.
   */
  function IndexOf(s: string, value: string, start: nat, comparison: StringComparison): (r: int)
    requires start <= |s|
    ensures r == -1 || (start <= r && MatchesAt(s, value, r, comparison))
    ensures forall i :: start <= i && (r == -1 || i < r) ==> !MatchesAt(s, value, i, comparison)
  {
    FirstMatch(s, value, start, comparison)
  }

  /** The search behind IndexOf: try `start`, then move one code unit to the right. */
  function FirstMatch(s: string, value: string, start: nat, comparison: StringComparison): (r: int)
    requires start <= |s|
    ensures r == -1 || (start <= r && MatchesAt(s, value, r, comparison))
    ensures forall i :: start <= i && (r == -1 || i < r) ==> !MatchesAt(s, value, i, comparison)
    decreases |s| - start
  {
    if MatchesAt(s, value, start, comparison) then start
    else if start == |s| then -1
    else FirstMatch(s, value, start + 1, comparison)
  }

  predicate StartsWith(s: string, prefix: string, comparison: StringComparison) {
    |prefix| <= |s| && SeqEquals(s[..|prefix|], prefix, comparison)
  }

  predicate EndsWith(s: string, suffix: string, comparison: StringComparison) {
    |suffix| <= |s| && SeqEquals(s[|s| - |suffix|..], suffix, comparison)
  }

  /** Char.IsWhiteSpace: the Unicode separators and the control characters U+0009-U+000D and U+0085. */
  predicate IsWhiteSpace(c: char) {
    || '\U{0009}' <= c <= '\U{000D}'
    || c == ' ' || c == '\U{0085}' || c == '\U{00A0}' || c == '\U{1680}'
    || '\U{2000}' <= c <= '\U{200A}'
    || c == '\U{2028}' || c == '\U{2029}' || c == '\U{202F}' || c == '\U{205F}' || c == '\U{3000}'
  }

  /** The number of white-space code units at the start of `s`. */
  function LeadingWhiteSpace(s: string): (n: nat)
    ensures n <= |s|
    ensures forall k :: 0 <= k < n ==> IsWhiteSpace(s[k])
    ensures n < |s| ==> !IsWhiteSpace(s[n])
  {
    if s == [] || !IsWhiteSpace(s[0]) then 0
    else
      var n := LeadingWhiteSpace(s[1..]);
      assert forall k :: 1 <= k < n + 1 ==> s[k] == s[1..][k - 1];
      n + 1
  }

  /** The number of white-space code units at the end of `s`. */
  function TrailingWhiteSpace(s: string): (n: nat)
    ensures n <= |s|
    ensures forall k :: |s| - n <= k < |s| ==> IsWhiteSpace(s[k])
    ensures n < |s| ==> !IsWhiteSpace(s[|s| - 1 - n])
  {
    if s == [] || !IsWhiteSpace(s[|s| - 1]) then 0
    else
      var n := TrailingWhiteSpace(s[..|s| - 1]);
      assert forall k :: |s| - 1 - n <= k < |s| - 1 ==> s[k] == s[..|s| - 1][k];
      n + 1
  }

  /**
   * String.Trim(): `s` without its leading and trailing white space. The result is the
   * slice of `s` that starts after the leading white space, it neither starts nor ends
   * with white space, and only white space follows it in `s`.
   */
  function Trim(s: string): (r: string)
    ensures |r| <= |s| - LeadingWhiteSpace(s)
    ensures r == s[LeadingWhiteSpace(s)..LeadingWhiteSpace(s) + |r|]
    ensures r == [] || (!IsWhiteSpace(r[0]) && !IsWhiteSpace(r[|r| - 1]))
    ensures forall k :: LeadingWhiteSpace(s) + |r| <= k < |s| ==> IsWhiteSpace(s[k])
  {
    var a := LeadingWhiteSpace(s);
    if a == |s| then ""
    else
      var b := TrailingWhiteSpace(s);
      s[a..|s| - b]
  }

  /** A string that neither starts nor ends with white space is its own Trim. */
  lemma TrimUnchanged(s: string)
    requires s == [] || (!IsWhiteSpace(s[0]) && !IsWhiteSpace(s[|s| - 1]))
    ensures Trim(s) == s
  {
    if s != [] {
      assert LeadingWhiteSpace(s) == 0;
      assert TrailingWhiteSpace(s) == 0;
    }
  }

  /** The tokens of a split, put back together with the separator between them. */
  function Join(tokens: seq<string>, separator: char): string
    requires |tokens| >= 1
    decreases |tokens|
  {
    if |tokens| == 1 then tokens[0] else tokens[0] + [separator] + Join(tokens[1..], separator)
  }

  /**
   * String.Split(separator): the maximal separator-free pieces of `s`, in order, empty
   * pieces included. Joining them with the separator gives `s` back.
   */
  function Split(s: string, separator: char): (r: seq<string>)
    ensures |r| >= 1
    ensures Join(r, separator) == s
    ensures forall i :: 0 <= i < |r| ==> separator !in r[i]
    decreases |s|
  {
    if s == [] then [""]
    else
      var rest := Split(s[1..], separator);
      if s[0] == separator then
        assert [""] + rest == [""] + rest[..];
        [""] + rest
      else
        var r := [[s[0]] + rest[0]] + rest[1..];
        assert r[1..] == rest[1..];
        assert s == [s[0]] + s[1..];
        r
  }

  /** Split undoes Join when no token contains the separator. */
  lemma {:induction false} SplitJoin(tokens: seq<string>, separator: char)
    requires |tokens| >= 1
    requires forall i :: 0 <= i < |tokens| ==> separator !in tokens[i]
    ensures Split(Join(tokens, separator), separator) == tokens
    decreases |tokens|, |tokens[0]|
  {
    if tokens[0] == [] {
      if |tokens| > 1 {
        SplitJoin(tokens[1..], separator);
        SplitJoinEmptyHead(tokens, separator);
      }
    } else {
      var shorter := [tokens[0][1..]] + tokens[1..];
      forall i | 0 <= i < |shorter| ensures separator !in shorter[i] {
        if i > 0 { assert shorter[i] == tokens[i]; }
      }
      SplitJoin(shorter, separator);
      SplitJoinConsHead(tokens, separator);
    }
  }

  /** Joining tokens whose first is empty starts with the separator. */
  lemma SplitJoinEmptyHead(tokens: seq<string>, separator: char)
    requires |tokens| > 1 && tokens[0] == []
    requires Split(Join(tokens[1..], separator), separator) == tokens[1..]
    ensures Split(Join(tokens, separator), separator) == tokens
  {
    var s := Join(tokens, separator);
    assert s == [separator] + Join(tokens[1..], separator);
    assert s[1..] == Join(tokens[1..], separator);
    assert tokens == [""] + tokens[1..];
  }

  /** Joining tokens whose first is not empty starts with that token's first code unit. */
  lemma SplitJoinConsHead(tokens: seq<string>, separator: char)
    requires |tokens| >= 1 && tokens[0] != [] && tokens[0][0] != separator
    requires Split(Join([tokens[0][1..]] + tokens[1..], separator), separator) == [tokens[0][1..]] + tokens[1..]
    ensures Split(Join(tokens, separator), separator) == tokens
  {
    var head := tokens[0];
    var shorter := [head[1..]] + tokens[1..];
    assert shorter[1..] == tokens[1..];
    var s := Join(tokens, separator);
    assert s == [head[0]] + Join(shorter, separator);
    assert s[1..] == Join(shorter, separator);
    assert Split(s, separator) == [[head[0]] + head[1..]] + tokens[1..];
    assert [head[0]] + head[1..] == head;
  }
}
