/**
 * Core/StringExtensions.cs: search-and-replace with a comparison mode, and the
 * Remove helpers built on it.
 *
 * `Replaced` is the reference meaning of a replacement: read the string from the
 * left; where the old value starts, emit the new value and skip past the match,
 * otherwise copy one code unit. The `Replace` method is the C# code's IndexOf loop,
 * proved to compute exactly that.
 */
module StringExtensions {
  import opened Wrappers
  import opened DotNetStrings

  /** String.Replace(string, string) throws ArgumentException for an empty old value. */
  datatype StringError = EmptyOldValue

  /** `value` occurs somewhere in `s`. */
  ghost predicate Contains(s: string, value: string, comparison: StringComparison) {
    exists i :: MatchesAt(s, value, i, comparison)
  }

  /** Left-to-right, non-overlapping replacement of `oldValue` by `newValue`. */
  function Replaced(s: string, oldValue: string, newValue: string, comparison: StringComparison): string
    requires |oldValue| > 0
    decreases |s|
  {
    if |s| < |oldValue| then s
    else if SeqEquals(s[..|oldValue|], oldValue, comparison) then
      newValue + Replaced(s[|oldValue|..], oldValue, newValue, comparison)
    else [s[0]] + Replaced(s[1..], oldValue, newValue, comparison)
  }

  /** The number of matches a left-to-right replacement finds. */
  function MatchCount(s: string, value: string, comparison: StringComparison): nat
    requires |value| > 0
    decreases |s|
  {
    if |s| < |value| then 0
    else if SeqEquals(s[..|value|], value, comparison) then 1 + MatchCount(s[|value|..], value, comparison)
    else MatchCount(s[1..], value, comparison)
  }

  /** A match at index `i + 1` of `s` is a match at index `i` of `s[1..]`, and back. */
  lemma MatchesAtTail(s: string, value: string, i: int, comparison: StringComparison)
    requires |s| > 0 && 0 <= i
    ensures MatchesAt(s, value, i + 1, comparison) <==> MatchesAt(s[1..], value, i, comparison)
  {
    if i + 1 + |value| <= |s| {
      assert s[i + 1..i + 1 + |value|] == s[1..][i..i + |value|];
    }
  }

  /** A match at index `i + k` of `s` is a match at index `i` of `s[k..]`, and back. */
  lemma MatchesAtDrop(s: string, value: string, k: nat, i: int, comparison: StringComparison)
    requires k <= |s| && 0 <= i
    ensures MatchesAt(s, value, i + k, comparison) <==> MatchesAt(s[k..], value, i, comparison)
  {
    if i + k + |value| <= |s| {
      assert s[i + k..i + k + |value|] == s[k..][i..i + |value|];
    }
  }

  /**
   * The scan finds a match exactly when the old value occurs somewhere: every
   * occurrence is either found or lies inside one that is.
   */
  lemma {:induction false} MatchCountPositive(s: string, value: string, comparison: StringComparison)
    requires |value| > 0
    ensures MatchCount(s, value, comparison) > 0 <==> Contains(s, value, comparison)
    decreases |s|
  {
    if |s| < |value| {
      assert !Contains(s, value, comparison);
    } else if SeqEquals(s[..|value|], value, comparison) {
      assert MatchesAt(s, value, 0, comparison);
    } else {
      MatchCountPositive(s[1..], value, comparison);
      if Contains(s, value, comparison) {
        var i :| MatchesAt(s, value, i, comparison);
        assert i != 0;
        MatchesAtTail(s, value, i - 1, comparison);
      }
      if Contains(s[1..], value, comparison) {
        var i :| MatchesAt(s[1..], value, i, comparison);
        MatchesAtTail(s, value, i, comparison);
      }
    }
  }

  lemma Distribute(c: nat, d: int)
    ensures (1 + c) * d == c * d + d
  {
  }

  /** Each match found changes the length by the difference of the two values' lengths. */
  lemma {:induction false} ReplacedLength(s: string, oldValue: string, newValue: string, comparison: StringComparison)
    requires |oldValue| > 0
    ensures |Replaced(s, oldValue, newValue, comparison)|
            == |s| + MatchCount(s, oldValue, comparison) * (|newValue| - |oldValue|)
    decreases |s|
  {
    if |s| < |oldValue| {
    } else if SeqEquals(s[..|oldValue|], oldValue, comparison) {
      var rest := s[|oldValue|..];
      ReplacedLength(rest, oldValue, newValue, comparison);
      assert Replaced(s, oldValue, newValue, comparison) == newValue + Replaced(rest, oldValue, newValue, comparison);
      assert MatchCount(s, oldValue, comparison) == 1 + MatchCount(rest, oldValue, comparison);
      Distribute(MatchCount(rest, oldValue, comparison), |newValue| - |oldValue|);
    } else {
      ReplacedLength(s[1..], oldValue, newValue, comparison);
    }
  }

  /** Without an occurrence of the old value the string comes back unchanged. */
  lemma {:induction false} ReplacedWithoutMatch(s: string, oldValue: string, newValue: string, comparison: StringComparison)
    requires |oldValue| > 0
    requires !Contains(s, oldValue, comparison)
    ensures Replaced(s, oldValue, newValue, comparison) == s
    decreases |s|
  {
    if |s| >= |oldValue| {
      assert !MatchesAt(s, oldValue, 0, comparison);
      if Contains(s[1..], oldValue, comparison) {
        var i :| MatchesAt(s[1..], oldValue, i, comparison);
        MatchesAtTail(s, oldValue, i, comparison);
        assert false;
      }
      ReplacedWithoutMatch(s[1..], oldValue, newValue, comparison);
      assert [s[0]] + s[1..] == s;
    }
  }

  /**
   * Replacing every Ordinal match by the old value itself gives the string back:
   * the text between and after the matches is copied verbatim and in order.
   */
  lemma {:induction false} ReplacedBySelf(s: string, value: string)
    requires |value| > 0
    ensures Replaced(s, value, value, Ordinal) == s
    decreases |s|
  {
    if |s| < |value| {
    } else if SeqEquals(s[..|value|], value, Ordinal) {
      OrdinalEqualsIsEquality(s[..|value|], value);
      ReplacedBySelf(s[|value|..], value);
      assert s[..|value|] + s[|value|..] == s;
    } else {
      ReplacedBySelf(s[1..], value);
      assert [s[0]] + s[1..] == s;
    }
  }

  /** Replacement of a suffix whose start is not a match: one code unit is copied. */
  lemma ReplacedSuffixStep(s: string, oldValue: string, newValue: string, comparison: StringComparison, p: nat)
    requires |oldValue| > 0 && p + |oldValue| <= |s| && !MatchesAt(s, oldValue, p, comparison)
    ensures Replaced(s[p..], oldValue, newValue, comparison) == [s[p]] + Replaced(s[p + 1..], oldValue, newValue, comparison)
  {
    var t := s[p..];
    assert t[..|oldValue|] == s[p..p + |oldValue|];
    assert t[1..] == s[p + 1..];
  }

  /** Replacement of a suffix that starts with a match: the new value is emitted. */
  lemma ReplacedSuffixMatch(s: string, oldValue: string, newValue: string, comparison: StringComparison, p: nat)
    requires |oldValue| > 0 && MatchesAt(s, oldValue, p, comparison)
    ensures Replaced(s[p..], oldValue, newValue, comparison)
            == newValue + Replaced(s[p + |oldValue|..], oldValue, newValue, comparison)
  {
    var t := s[p..];
    assert t[..|oldValue|] == s[p..p + |oldValue|];
    assert t[|oldValue|..] == s[p + |oldValue|..];
  }

  /** Replacement seen from index `p` when no match starts at or after `p`: the rest is copied. */
  lemma {:induction false} ReplacedFromNoMatch(s: string, oldValue: string, newValue: string, comparison: StringComparison, p: nat)
    requires |oldValue| > 0 && p <= |s|
    requires forall j :: p <= j ==> !MatchesAt(s, oldValue, j, comparison)
    ensures Replaced(s[p..], oldValue, newValue, comparison) == s[p..]
    decreases |s| - p
  {
    if |s| - p < |oldValue| {
      ReplacedWithoutShortString(s[p..], oldValue, newValue, comparison);
    } else {
      ReplacedSuffixStep(s, oldValue, newValue, comparison, p);
      ReplacedFromNoMatch(s, oldValue, newValue, comparison, p + 1);
      assert s[p..] == [s[p]] + s[p + 1..];
    }
  }

  /**
   * Replacement seen from index `p` when the first match at or after `p` is at `i`:
   * the text up to `i` is copied, the new value is emitted and the replacement
   * resumes just past the match.
   */
  lemma {:induction false} ReplacedFromMatch(s: string, oldValue: string, newValue: string, comparison: StringComparison, p: nat, i: nat)
    requires |oldValue| > 0 && p <= i
    requires MatchesAt(s, oldValue, i, comparison)
    requires forall j :: p <= j < i ==> !MatchesAt(s, oldValue, j, comparison)
    ensures Replaced(s[p..], oldValue, newValue, comparison)
            == s[p..i] + newValue + Replaced(s[i + |oldValue|..], oldValue, newValue, comparison)
    decreases i - p
  {
    if p == i {
      ReplacedSuffixMatch(s, oldValue, newValue, comparison, p);
    } else {
      ReplacedSuffixStep(s, oldValue, newValue, comparison, p);
      ReplacedFromMatch(s, oldValue, newValue, comparison, p + 1, i);
      assert s[p..i] == [s[p]] + s[p + 1..i];
    }
  }

  /**
   * No match starts in the first `k` code units: they are copied verbatim and the
   * replacement of the rest is unaffected by them.
   */
  lemma {:induction false} ReplacedKeepsPrefix(s: string, oldValue: string, newValue: string, comparison: StringComparison, k: nat)
    requires |oldValue| > 0 && k <= |s|
    requires forall j :: 0 <= j < k ==> !MatchesAt(s, oldValue, j, comparison)
    ensures Replaced(s, oldValue, newValue, comparison) == s[..k] + Replaced(s[k..], oldValue, newValue, comparison)
    decreases k
  {
    if k > 0 {
      var tail := s[1..];
      assert !MatchesAt(s, oldValue, 0, comparison);
      forall j | 0 <= j < k - 1 ensures !MatchesAt(tail, oldValue, j, comparison) {
        MatchesAtTail(s, oldValue, j, comparison);
      }
      ReplacedKeepsPrefix(tail, oldValue, newValue, comparison, k - 1);
      assert tail[k - 1..] == s[k..];
      if |s| < |oldValue| {
        ReplacedWithoutShortString(s[k..], oldValue, newValue, comparison);
        assert s[..k] + s[k..] == s;
      } else {
        assert s[0..|oldValue|] == s[..|oldValue|];
        assert Replaced(s, oldValue, newValue, comparison) == [s[0]] + Replaced(tail, oldValue, newValue, comparison);
        assert s[..k] == [s[0]] + tail[..k - 1];
      }
    }
  }

  lemma ReplacedWithoutShortString(s: string, oldValue: string, newValue: string, comparison: StringComparison)
    requires 0 < |oldValue| && |s| < |oldValue|
    ensures Replaced(s, oldValue, newValue, comparison) == s
  {
  }

  /** A string that is exactly one match is replaced by the new value. */
  lemma ReplacedWholeMatch(s: string, oldValue: string, newValue: string, comparison: StringComparison)
    requires |oldValue| > 0 && SeqEquals(s, oldValue, comparison)
    ensures Replaced(s, oldValue, newValue, comparison) == newValue
  {
    assert s[..|oldValue|] == s;
    assert Replaced(s[|oldValue|..], oldValue, newValue, comparison) == "";
  }

  /**
   * Replace(str, oldValue, newValue, comparison) (Core/StringExtensions.cs:9-27).
   * With an empty old value the C# code loops forever (the index never advances),
   * so a non-empty old value is what callers must supply.
   */
  method Replace(str: string, oldValue: string, newValue: string, comparison: StringComparison) returns (r: string)
    requires |oldValue| > 0
    ensures r == Replaced(str, oldValue, newValue, comparison)
  {
    var sb := "";
    var previousIndex: nat := 0;
    var index := IndexOf(str, oldValue, 0, comparison);
    assert str[0..] == str;
    while index != -1
      invariant previousIndex <= |str|
      invariant index == IndexOf(str, oldValue, previousIndex, comparison)
      invariant sb + Replaced(str[previousIndex..], oldValue, newValue, comparison)
                == Replaced(str, oldValue, newValue, comparison)
      decreases |str| - previousIndex
    {
      ReplaceStep(str, oldValue, newValue, comparison, sb, previousIndex, index);
      ghost var done := sb + str[previousIndex..index] + newValue;
      sb := sb + str[previousIndex..index];
      sb := sb + newValue;
      index := index + |oldValue|;
      previousIndex := index;
      assert sb == done;
      index := IndexOf(str, oldValue, index, comparison);
    }
    ReplacedFromNoMatch(str, oldValue, newValue, comparison, previousIndex);
    sb := sb + str[previousIndex..];
    r := sb;
  }

  /** One turn of the Replace loop keeps what is built plus what remains equal to the whole replacement. */
  lemma ReplaceStep(str: string, oldValue: string, newValue: string, comparison: StringComparison,
                    sb: string, previousIndex: nat, index: int)
    requires |oldValue| > 0 && previousIndex <= |str|
    requires index == IndexOf(str, oldValue, previousIndex, comparison) && index != -1
    requires sb + Replaced(str[previousIndex..], oldValue, newValue, comparison)
             == Replaced(str, oldValue, newValue, comparison)
    ensures previousIndex <= index && index + |oldValue| <= |str|
    ensures sb + str[previousIndex..index] + newValue + Replaced(str[index + |oldValue|..], oldValue, newValue, comparison)
            == Replaced(str, oldValue, newValue, comparison)
  {
    ReplacedFromMatch(str, oldValue, newValue, comparison, previousIndex, index);
  }

  /**
   * Remove(str, valueToRemove, comparison) (Core/StringExtensions.cs:34-37): every match
   * found is dropped. The result is shorter by the length of the removed matches, so it
   * is never longer than `str`, and strictly shorter exactly when the value occurs.
   */
  function Remove(str: string, valueToRemove: string, comparison: StringComparison): (r: string)
    requires |valueToRemove| > 0
    ensures |r| == |str| - MatchCount(str, valueToRemove, comparison) * |valueToRemove|
    ensures |r| < |str| <==> Contains(str, valueToRemove, comparison)
  {
    ReplacedLength(str, valueToRemove, "", comparison);
    MatchCountPositive(str, valueToRemove, comparison);
    ProductPositive(MatchCount(str, valueToRemove, comparison), |valueToRemove|);
    Replaced(str, valueToRemove, "", comparison)
  }

  lemma ProductPositive(c: nat, d: nat)
    requires d > 0
    ensures c * d >= 0 && (c * d > 0 <==> c > 0)
  {
    if c > 0 {
      assert c * d == (c - 1) * d + d;
    }
  }

  /**
   * Remove(str, valueToRemove) (Core/StringExtensions.cs:29-32) delegates to the built-in
   * ordinal String.Replace, which rejects an empty value instead of looping.
   */
  function RemoveOrdinal(str: string, valueToRemove: string): (r: Result<string, StringError>)
    ensures r.Failure? <==> valueToRemove == ""
    ensures r.Success? ==> r.value == Remove(str, valueToRemove, Ordinal)
  {
    if valueToRemove == "" then Failure(EmptyOldValue) else Success(Remove(str, valueToRemove, Ordinal))
  }

  /**
   * Remove(str, comparison, valuesToRemove) (Core/StringExtensions.cs:44-47): the values
   * are removed in the given order, each from the previous result.
   */
  function RemoveAll(str: string, comparison: StringComparison, valuesToRemove: seq<string>): (r: string)
    requires forall i :: 0 <= i < |valuesToRemove| ==> |valuesToRemove[i]| > 0
    ensures |r| <= |str|
    decreases |valuesToRemove|
  {
    if valuesToRemove == [] then str
    else RemoveAll(Remove(str, valuesToRemove[0], comparison), comparison, valuesToRemove[1..])
  }

  /** The fold is a left fold: the last value is removed from what the others left. */
  lemma {:induction false} RemoveAllLast(str: string, comparison: StringComparison, valuesToRemove: seq<string>, last: string)
    requires forall i :: 0 <= i < |valuesToRemove| ==> |valuesToRemove[i]| > 0
    requires |last| > 0
    ensures RemoveAll(str, comparison, valuesToRemove + [last])
            == Remove(RemoveAll(str, comparison, valuesToRemove), last, comparison)
    decreases |valuesToRemove|
  {
    if valuesToRemove == [] {
      assert [] + [last] == [last];
    } else {
      assert (valuesToRemove + [last])[1..] == valuesToRemove[1..] + [last];
      RemoveAllLast(Remove(str, valuesToRemove[0], comparison), comparison, valuesToRemove[1..], last);
    }
  }

  /**
   * Remove(str, valuesToRemove) (Core/StringExtensions.cs:39-42): the ordinal fold; the
   * first empty value makes the whole call fail, otherwise the values are removed in order.
   */
  function RemoveAllOrdinal(str: string, valuesToRemove: seq<string>): (r: Result<string, StringError>)
    ensures r.Failure? <==> exists i :: 0 <= i < |valuesToRemove| && valuesToRemove[i] == ""
    ensures r.Success? ==> r.value == RemoveAll(str, Ordinal, valuesToRemove)
    decreases |valuesToRemove|
  {
    if valuesToRemove == [] then Success(str)
    else match RemoveOrdinal(str, valuesToRemove[0])
      case Failure(e) => Failure(e)
      case Success(next) =>
        var r := RemoveAllOrdinal(next, valuesToRemove[1..]);
        assert forall i :: 1 <= i < |valuesToRemove| ==> valuesToRemove[i] == valuesToRemove[1..][i - 1];
        r
  }

  // ---------------------------------------------------------------------------
  // The vectors of the unit tests (Core.Tests/StringExtensionTests.cs)
  // ---------------------------------------------------------------------------

  /** The value cannot occur where its `k`-th code unit has no counterpart from `k` on. */
  lemma NoMatchWithout(s: string, value: string, k: nat, comparison: StringComparison)
    requires k < |value| && k <= |s|
    requires forall ch :: ch in s[k..] ==> !CharEquals(ch, value[k], comparison)
    ensures !Contains(s, value, comparison)
  {
    forall i | MatchesAt(s, value, i, comparison) ensures false {
      var m := s[i..i + |value|];
      assert m[k] == s[k..][i];
      SeqEqualsPointwise(m, value, comparison);
    }
  }

  /** A text that starts with a match and holds none after it loses the match. */
  lemma ReplacedMatchThenNone(m: string, rest: string, value: string, newValue: string, comparison: StringComparison)
    requires |value| > 0 && SeqEquals(m, value, comparison) && !Contains(rest, value, comparison)
    ensures Replaced(m + rest, value, newValue, comparison) == newValue + rest
  {
    var s := m + rest;
    assert s[..|value|] == m && s[|value|..] == rest;
    ReplacedWithoutMatch(rest, value, newValue, comparison);
  }

  /** A match followed by text in which no match starts before `rest`. */
  lemma ReplacedMatchThenGap(m: string, gap: string, rest: string, value: string, newValue: string, comparison: StringComparison)
    requires |value| > 0 && SeqEquals(m, value, comparison)
    requires forall ch :: ch in gap ==> !CharEquals(ch, value[0], comparison)
    ensures Replaced(m + gap + rest, value, newValue, comparison) == newValue + gap + Replaced(rest, value, newValue, comparison)
  {
    var s := m + gap + rest;
    assert s[..|value|] == m && s[|value|..] == gap + rest;
    ReplacedGap(gap, rest, value, newValue, comparison);
  }

  /** Text in which no match can start is copied. */
  lemma ReplacedGap(gap: string, rest: string, value: string, newValue: string, comparison: StringComparison)
    requires |value| > 0
    requires forall ch :: ch in gap ==> !CharEquals(ch, value[0], comparison)
    ensures Replaced(gap + rest, value, newValue, comparison) == gap + Replaced(rest, value, newValue, comparison)
  {
    var t := gap + rest;
    forall j | 0 <= j < |gap| ensures !MatchesAt(t, value, j, comparison) {
      assert t[j] == gap[j] && gap[j] in gap;
      if j + |value| <= |t| {
        SeqEqualsPointwise(t[j..j + |value|], value, comparison);
        assert t[j..j + |value|][0] == t[j];
      }
    }
    ReplacedKeepsPrefix(t, value, newValue, comparison, |gap|);
    assert t[..|gap|] == gap && t[|gap|..] == rest;
  }

  const Values: string := "VALUE1 VALUE2 VALUE3"

  /** "VALUE" equals "value" ignoring case. */
  lemma UpperValue()
    ensures SeqEquals("VALUE", "value", OrdinalIgnoreCase)
  {
    IgnoreCaseEqualsUpper("VALUE", "value");
    var u, v := UpperAscii("VALUE"), UpperAscii("value");
    assert u[0] == v[0] && u[1] == v[1] && u[2] == v[2] && u[3] == v[3] && u[4] == v[4];
    assert u == v;
  }

  /** Every match of `value` in Values, one per "VALUE", is removed. */
  lemma RemoveEachValue(value: string, comparison: StringComparison)
    requires SeqEquals("VALUE", value, comparison)
    ensures Remove(Values, value, comparison) == "1 2 3"
  {
    assert "VALUE"[0] == 'V';
    SeqEqualsCons("VALUE", value, comparison);
    assert Values == "VALUE" + "1 " + ("VALUE" + "2 " + ("VALUE" + "3" + ""));
    assert "1 2 3" == "1 " + ("2 " + ("3" + ""));
    RemoveThreeMatches(Values, "VALUE", "1 ", "2 ", "3", "1 2 3", value, comparison);
  }

  /** Three matches, each followed by text in which no match starts, are all removed. */
  lemma RemoveThreeMatches(s: string, m: string, gap1: string, gap2: string, gap3: string, r: string,
                           value: string, comparison: StringComparison)
    requires s == m + gap1 + (m + gap2 + (m + gap3 + "")) && r == gap1 + (gap2 + (gap3 + ""))
    requires |value| > 0 && SeqEquals(m, value, comparison)
    requires forall ch :: ch in gap1 ==> !CharEquals(ch, value[0], comparison)
    requires forall ch :: ch in gap2 ==> !CharEquals(ch, value[0], comparison)
    requires forall ch :: ch in gap3 ==> !CharEquals(ch, value[0], comparison)
    ensures Remove(s, value, comparison) == r
  {
    var r3 := Replaced(m + gap3 + "", value, "", comparison);
    var r2 := Replaced(m + gap2 + (m + gap3 + ""), value, "", comparison);
    assert Replaced("", value, "", comparison) == "";
    ReplacedMatchThenGap(m, gap3, "", value, "", comparison);
    assert r3 == gap3 + "";
    ReplacedMatchThenGap(m, gap2, m + gap3 + "", value, "", comparison);
    assert r2 == gap2 + r3;
    ReplacedMatchThenGap(m, gap1, m + gap2 + (m + gap3 + ""), value, "", comparison);
    assert Replaced(s, value, "", comparison) == gap1 + r2;
  }

  /** Remove("VALUE") drops each of the three matches (StringExtensionTests.cs:19-27). */
  lemma RemovesAllMatches()
    ensures RemoveOrdinal(Values, "VALUE") == Success("1 2 3")
  {
    SeqEqualsReflexive("VALUE", Ordinal);
    RemoveEachValue("VALUE", Ordinal);
  }

  /** Ordinal Remove("value") finds nothing, OrdinalIgnoreCase finds all three (lines 39-57). */
  lemma RemoveHonoursComparison()
    ensures Remove(Values, "value", Ordinal) == Values
    ensures Remove(Values, "value", OrdinalIgnoreCase) == "1 2 3"
  {
    NoMatchWithout(Values, "value", 0, Ordinal);
    ReplacedWithoutMatch(Values, "value", "", Ordinal);
    UpperValue();
    RemoveEachValue("value", OrdinalIgnoreCase);
  }

  /** A value that does not occur leaves the text as it is (lines 29-37). */
  lemma RemoveWithoutMatch()
    ensures RemoveOrdinal(Values, "DUMMY") == Success(Values)
  {
    NoMatchWithout(Values, "DUMMY", 0, Ordinal);
    ReplacedWithoutMatch(Values, "DUMMY", "", Ordinal);
  }

  /** Remove(comparison, "VALUE1", "VALUE2", " ") on Values, for the two spellings of the values. */
  lemma RemoveValuesThenSpaces(first: string, second: string, comparison: StringComparison)
    requires SeqEquals("VALUE1", first, comparison) && |first| == 6 && first[5] == '1'
    requires SeqEquals("VALUE2", second, comparison) && |second| == 6 && second[5] == '2'
    requires second[0] == 'V' || second[0] == 'v'
    ensures RemoveAll(Values, comparison, [first, second, " "]) == "VALUE3"
  {
    RemoveAllThree(Values, comparison, first, second, " ");
    RemoveFirstValue(first, comparison);
    RemoveSecondValue(second, comparison);
    RemoveSpaces(comparison);
  }

  /** Removing three values is removing them one after another. */
  lemma RemoveAllThree(str: string, comparison: StringComparison, a: string, b: string, c: string)
    requires |a| > 0 && |b| > 0 && |c| > 0
    ensures RemoveAll(str, comparison, [a, b, c])
            == Remove(Remove(Remove(str, a, comparison), b, comparison), c, comparison)
  {
    var r1 := Remove(str, a, comparison);
    var r2 := Remove(r1, b, comparison);
    assert [a, b, c][1..] == [b, c] && [b, c][1..] == [c] && [c][1..] == [];
    assert RemoveAll(r2, comparison, [c]) == RemoveAll(Remove(r2, c, comparison), comparison, []);
    assert RemoveAll(r1, comparison, [b, c]) == RemoveAll(r2, comparison, [c]);
  }

  lemma RemoveFirstValue(first: string, comparison: StringComparison)
    requires SeqEquals("VALUE1", first, comparison) && |first| == 6 && first[5] == '1'
    ensures Remove(Values, first, comparison) == " VALUE2 VALUE3"
  {
    assert Values == "VALUE1" + " VALUE2 VALUE3";
    assert " VALUE2 VALUE3"[5..] == "E2 VALUE3";
    NoMatchWithout(" VALUE2 VALUE3", first, 5, comparison);
    ReplacedMatchThenNone("VALUE1", " VALUE2 VALUE3", first, "", comparison);
  }

  lemma RemoveSecondValue(second: string, comparison: StringComparison)
    requires SeqEquals("VALUE2", second, comparison) && |second| == 6 && second[5] == '2'
    requires second[0] == 'V' || second[0] == 'v'
    ensures Remove(" VALUE2 VALUE3", second, comparison) == "  VALUE3"
  {
    assert " VALUE3"[5..] == "E3";
    NoMatchWithout(" VALUE3", second, 5, comparison);
    assert !CharEquals(' ', second[0], comparison);
    ReplacedGapMatchThenNone(" VALUE2 VALUE3", " ", "VALUE2", " VALUE3", "  VALUE3", second, comparison);
  }

  /** Text in which no match starts, then a match, then text without one. */
  lemma ReplacedGapMatchThenNone(s: string, gap: string, m: string, rest: string, r: string, value: string, comparison: StringComparison)
    requires s == gap + (m + rest) && r == gap + rest
    requires |value| > 0 && SeqEquals(m, value, comparison) && !Contains(rest, value, comparison)
    requires forall ch :: ch in gap ==> !CharEquals(ch, value[0], comparison)
    ensures Remove(s, value, comparison) == r
  {
    ReplacedGap(gap, m + rest, value, "", comparison);
    ReplacedMatchThenNone(m, rest, value, "", comparison);
  }

  lemma RemoveSpaces(comparison: StringComparison)
    ensures Remove("  VALUE3", " ", comparison) == "VALUE3"
  {
    SeqEqualsReflexive(" ", comparison);
    assert "  VALUE3" == " " + "" + (" " + "VALUE3");
    NoMatchWithout("VALUE3", " ", 0, comparison);
    ReplacedMatchThenNone(" ", "VALUE3", " ", "", comparison);
    ReplacedMatchThenGap(" ", "", " " + "VALUE3", " ", "", comparison);
  }

  /** RemoveAll with Ordinal (StringExtensionTests.cs:59-67). */
  lemma RemoveAllOrdinalVector()
    ensures RemoveAllOrdinal(Values, ["VALUE1", "VALUE2", " "]) == Success("VALUE3")
  {
    SeqEqualsReflexive("VALUE1", Ordinal);
    SeqEqualsReflexive("VALUE2", Ordinal);
    RemoveValuesThenSpaces("VALUE1", "VALUE2", Ordinal);
  }

  /** RemoveAll with OrdinalIgnoreCase and mixed-case values (lines 69-77). */
  lemma RemoveAllIgnoreCaseVector()
    ensures RemoveAll(Values, OrdinalIgnoreCase, ["Value1", "Value2", " "]) == "VALUE3"
  {
    IgnoreCaseEqualsUpper("VALUE1", "Value1");
    IgnoreCaseEqualsUpper("VALUE2", "Value2");
    assert UpperAscii("VALUE1") == UpperAscii("Value1") == "VALUE1";
    assert UpperAscii("VALUE2") == UpperAscii("Value2") == "VALUE2";
    RemoveValuesThenSpaces("Value1", "Value2", OrdinalIgnoreCase);
  }
}
