/**
 * Parsing a sort directive (SortExpression.cs:40-71): the direction comes from a trailing
 * "desc" matched ignoring case, provider mode from a leading "sortexpr:" matched ignoring
 * case, and the trailing " asc" / " desc" modifiers are removed (everywhere they occur)
 * before the command is taken. In provider mode the text after the prefix is trimmed and
 * split on spaces: the first token is the command, the rest are the parameters. In path
 * mode the whole remaining text is the command and the parameters stay unset.
 */
module Directives {
  import opened Wrappers
  import opened DotNetStrings
  import opened StringExtensions
  import opened Ordering

  const DefinitionPrefix: string := "sortexpr:"
  const DirectionModifiers: seq<string> := [" asc", " desc"]

  /** What ParseExpression leaves in the four properties; `parameters` is None while unset (null). */
  datatype Directive = Directive(
    sortDirection: SortDirection,
    isSortExpressionDefinition: bool,
    command: string,
    parameters: Option<seq<string>>)

  /** ResolveSortDirection (SortExpression.cs:56-61). */
  function ResolveSortDirection(expression: string): SortDirection {
    if EndsWith(expression, "desc", OrdinalIgnoreCase) then Descending else Ascending
  }

  /** VerifyIsSortExpressionDefinition (SortExpression.cs:63-66). */
  predicate VerifyIsSortExpressionDefinition(expression: string) {
    StartsWith(expression, DefinitionPrefix, OrdinalIgnoreCase)
  }

  /**
   * RemoveTrailingDirectionModifiers (SortExpression.cs:68-71): removes every " asc", then
   * every " desc", ignoring case. It never lengthens the text, and since both modifiers
   * start with a space it keeps a leading "sortexpr:" as it is.
   */
  function RemoveTrailingDirectionModifiers(expression: string): (r: string)
    ensures |r| <= |expression|
    ensures VerifyIsSortExpressionDefinition(expression) ==>
              |DefinitionPrefix| <= |r| && r[..|DefinitionPrefix|] == expression[..|DefinitionPrefix|]
  {
    StripKeepsPrefix(expression);
    RemoveAll(expression, OrdinalIgnoreCase, DirectionModifiers)
  }

  /** ParseExpression (SortExpression.cs:40-54) as a function of the directive text. */
  function Parse(expression: string): (d: Directive)
    ensures d.isSortExpressionDefinition == VerifyIsSortExpressionDefinition(expression)
    ensures d.parameters.Some? <==> d.isSortExpressionDefinition
  {
    var direction := ResolveSortDirection(expression);
    var isDefinition := VerifyIsSortExpressionDefinition(expression);
    var stripped := RemoveTrailingDirectionModifiers(expression);
    if isDefinition then
      var tokens := Split(Trim(stripped[|DefinitionPrefix|..]), ' ');
      Directive(direction, true, tokens[0], Some(tokens[1..]))
    else
      Directive(direction, false, stripped, None)
  }

  // ---------------------------------------------------------------------------
  // Helpers about the modifiers
  // ---------------------------------------------------------------------------

  lemma StripIsTwoRemovals(expression: string)
    ensures RemoveAll(expression, OrdinalIgnoreCase, DirectionModifiers)
            == Remove(Remove(expression, " asc", OrdinalIgnoreCase), " desc", OrdinalIgnoreCase)
  {
    assert DirectionModifiers[1..] == [" desc"];
    assert DirectionModifiers[1..][1..] == [];
  }

  lemma StripKeepsPrefix(expression: string)
    ensures VerifyIsSortExpressionDefinition(expression) ==>
              var r := RemoveAll(expression, OrdinalIgnoreCase, DirectionModifiers);
              |DefinitionPrefix| <= |r| && r[..|DefinitionPrefix|] == expression[..|DefinitionPrefix|]
  {
    StripIsTwoRemovals(expression);
    if VerifyIsSortExpressionDefinition(expression) {
      PrefixHasNoSpace(expression);
      var once := Remove(expression, " asc", OrdinalIgnoreCase);
      RemovalKeepsSpaceFreePrefix(expression, " asc", |DefinitionPrefix|);
      assert forall j :: 0 <= j < |DefinitionPrefix| ==> once[j] == once[..|DefinitionPrefix|][j];
      RemovalKeepsSpaceFreePrefix(once, " desc", |DefinitionPrefix|);
    }
  }

  /** Only a space is a space when case is ignored. */
  lemma UpperSpace(c: char)
    ensures ToUpperAscii(c) == ' ' <==> c == ' '
  {
  }

  /** A value that starts with a space cannot match where `s` has no space. */
  lemma NoMatchAtNonSpace(s: string, v: string, j: int)
    requires |v| > 0 && v[0] == ' ' && 0 <= j < |s| && s[j] != ' '
    ensures !MatchesAt(s, v, j, OrdinalIgnoreCase)
  {
    if j + |v| <= |s| {
      assert s[j..j + |v|][0] == s[j];
      UpperSpace(s[j]);
    }
  }

  /** A text that starts with "sortexpr:" ignoring case has no space among its first nine code units. */
  lemma PrefixHasNoSpace(e: string)
    ensures VerifyIsSortExpressionDefinition(e) ==> forall j :: 0 <= j < |DefinitionPrefix| ==> e[j] != ' '
  {
    if VerifyIsSortExpressionDefinition(e) {
      SeqEqualsPointwise(e[..|DefinitionPrefix|], DefinitionPrefix, OrdinalIgnoreCase);
      forall j | 0 <= j < |DefinitionPrefix| ensures e[j] != ' ' {
        assert CharEquals(e[..|DefinitionPrefix|][j], DefinitionPrefix[j], OrdinalIgnoreCase);
        assert DefinitionPrefix[j] != ' ';
        UpperSpace(e[j]);
        UpperSpace(DefinitionPrefix[j]);
      }
    }
  }

  /** Removing a value that starts with a space keeps a space-free prefix of `s`. */
  lemma RemovalKeepsSpaceFreePrefix(s: string, v: string, k: nat)
    requires |v| > 0 && v[0] == ' ' && k <= |s|
    requires forall j :: 0 <= j < k ==> s[j] != ' '
    ensures k <= |Remove(s, v, OrdinalIgnoreCase)|
    ensures Remove(s, v, OrdinalIgnoreCase)[..k] == s[..k]
  {
    forall j | 0 <= j < k ensures !MatchesAt(s, v, j, OrdinalIgnoreCase) {
      NoMatchAtNonSpace(s, v, j);
    }
    ReplacedKeepsPrefix(s, v, "", OrdinalIgnoreCase, k);
  }

  /** Text in which neither modifier occurs is left as it is. */
  lemma NoModifierUnchanged(s: string)
    requires !Contains(s, " asc", OrdinalIgnoreCase) && !Contains(s, " desc", OrdinalIgnoreCase)
    ensures RemoveTrailingDirectionModifiers(s) == s
  {
    StripIsTwoRemovals(s);
    ReplacedWithoutMatch(s, " asc", "", OrdinalIgnoreCase);
    ReplacedWithoutMatch(s, " desc", "", OrdinalIgnoreCase);
  }

  /** A value that starts with a space and does not occur in `rest` does not occur in "sortexpr:" + rest. */
  lemma NoModifierAfterPrefix(rest: string, v: string)
    requires |v| > 0 && v[0] == ' ' && !Contains(rest, v, OrdinalIgnoreCase)
    ensures !Contains(DefinitionPrefix + rest, v, OrdinalIgnoreCase)
  {
    var e := DefinitionPrefix + rest;
    var n := |DefinitionPrefix|;
    assert e[n..] == rest;
    forall j | 0 <= j < |e| ensures !MatchesAt(e, v, j, OrdinalIgnoreCase) {
      if j < n {
        assert e[j] == DefinitionPrefix[j] && DefinitionPrefix[j] != ' ';
        NoMatchAtNonSpace(e, v, j);
      } else {
        MatchesAtDrop(e, v, n, j - n, OrdinalIgnoreCase);
      }
    }
  }

  /** The first code unit of a join is that of the first token, the last that of the last token. */
  lemma {:induction false} JoinEnds(tokens: seq<string>, separator: char)
    requires |tokens| >= 1 && forall i :: 0 <= i < |tokens| ==> |tokens[i]| > 0
    ensures var j := Join(tokens, separator);
            |j| > 0 && j[0] == tokens[0][0] && j[|j| - 1] == tokens[|tokens| - 1][|tokens[|tokens| - 1]| - 1]
    decreases |tokens|
  {
    if |tokens| > 1 {
      JoinEnds(tokens[1..], separator);
    }
  }

  /** Trimming spaces in front of a text that neither starts nor ends with white space gives that text. */
  lemma TrimAfterSpaces(lead: string, s: string)
    requires forall k :: 0 <= k < |lead| ==> lead[k] == ' '
    requires |s| > 0 && !IsWhiteSpace(s[0]) && !IsWhiteSpace(s[|s| - 1])
    ensures Trim(lead + s) == s
  {
    var t := lead + s;
    assert forall k :: 0 <= k < |lead| ==> IsWhiteSpace(t[k]);
    assert t[|lead|] == s[0];
    assert LeadingWhiteSpace(t) == |lead|;
    assert t[|lead| + |s| - 1] == s[|s| - 1];
    assert t[|lead|..] == s;
  }

  /**
   * Parsing is the inverse of writing a provider directive: "sortexpr:", a run of spaces and
   * then non-empty tokens without white space, separated by single spaces, give back the first
   * token as the command and the others as the parameters, as long as no modifier occurs.
   */
  lemma ParseProviderDirective(lead: string, tokens: seq<string>)
    requires forall k :: 0 <= k < |lead| ==> lead[k] == ' '
    requires |tokens| >= 1
    requires forall i :: 0 <= i < |tokens| ==> |tokens[i]| > 0
    requires forall i, k :: 0 <= i < |tokens| && 0 <= k < |tokens[i]| ==> !IsWhiteSpace(tokens[i][k])
    requires !Contains(lead + Join(tokens, ' '), " asc", OrdinalIgnoreCase)
    requires !Contains(lead + Join(tokens, ' '), " desc", OrdinalIgnoreCase)
    ensures var d := Parse(DefinitionPrefix + lead + Join(tokens, ' '));
            d.isSortExpressionDefinition && d.command == tokens[0] && d.parameters == Some(tokens[1..])
  {
    var joined := Join(tokens, ' ');
    var rest := lead + joined;
    var e := DefinitionPrefix + rest;
    assert DefinitionPrefix + lead + joined == e;
    assert e[..|DefinitionPrefix|] == DefinitionPrefix;
    SeqEqualsReflexive(DefinitionPrefix, OrdinalIgnoreCase);
    NoModifierAfterPrefix(rest, " asc");
    NoModifierAfterPrefix(rest, " desc");
    NoModifierUnchanged(e);
    assert e[|DefinitionPrefix|..] == rest;
    JoinEnds(tokens, ' ');
    TrimAfterSpaces(lead, joined);
    assert forall i :: 0 <= i < |tokens| ==> ' ' !in tokens[i];
    SplitJoin(tokens, ' ');
  }

  /** In provider mode the command and the parameters are the space-free tokens of the trimmed rest. */
  lemma ProviderModeTokens(e: string)
    requires VerifyIsSortExpressionDefinition(e)
    ensures var d := Parse(e);
            var rest := Trim(RemoveTrailingDirectionModifiers(e)[|DefinitionPrefix|..]);
            d.parameters.Some? && Join([d.command] + d.parameters.value, ' ') == rest &&
            ' ' !in d.command && forall i :: 0 <= i < |d.parameters.value| ==> ' ' !in d.parameters.value[i]
  {
    var rest := Trim(RemoveTrailingDirectionModifiers(e)[|DefinitionPrefix|..]);
    var tokens := Split(rest, ' ');
    assert [tokens[0]] + tokens[1..] == tokens;
    assert forall i :: 0 <= i < |tokens| - 1 ==> tokens[1..][i] == tokens[i + 1];
  }

  /** In path mode the command is the text itself when no modifier occurs in it, and there are no parameters. */
  lemma PathModeCommand(e: string)
    requires !VerifyIsSortExpressionDefinition(e)
    requires !Contains(e, " asc", OrdinalIgnoreCase) && !Contains(e, " desc", OrdinalIgnoreCase)
    ensures Parse(e) == Directive(ResolveSortDirection(e), false, e, None)
  {
    NoModifierUnchanged(e);
  }

  /** The direction is descending exactly when the last four code units, upper-cased, are "DESC". */
  lemma DirectionIsTrailingDesc(e: string)
    ensures Parse(e).sortDirection == Descending <==> 4 <= |e| && UpperAscii(e[|e| - 4..]) == "DESC"
  {
    if 4 <= |e| {
      IgnoreCaseEqualsUpper(e[|e| - 4..], "desc");
      assert UpperAscii("desc") == "DESC";
    }
  }

  /** Provider mode is chosen exactly when the first nine code units, upper-cased, are "SORTEXPR:". */
  lemma ModeIsLeadingPrefix(e: string)
    ensures Parse(e).isSortExpressionDefinition <==> 9 <= |e| && UpperAscii(e[..9]) == "SORTEXPR:"
  {
    if 9 <= |e| {
      IgnoreCaseEqualsUpper(e[..9], DefinitionPrefix);
      assert UpperAscii(DefinitionPrefix) == "SORTEXPR:";
    }
  }

  /** The first code unit of a text equal to "asc" or "desc" ignoring case, and where it cannot match. */
  lemma ModifierHead(d: string)
    requires SeqEquals(d, "asc", OrdinalIgnoreCase) || SeqEquals(d, "desc", OrdinalIgnoreCase)
    ensures |d| > 0 && ToUpperAscii(d[0]) != ' '
    ensures SeqEquals(d, "desc", OrdinalIgnoreCase) ==> |d| == 4 && ToUpperAscii(d[0]) == 'D'
    ensures !SeqEquals(d, "desc", OrdinalIgnoreCase) ==> |d| == 3
  {
    if SeqEquals(d, "desc", OrdinalIgnoreCase) {
      SeqEqualsCons(d, "desc", OrdinalIgnoreCase);
    } else {
      SeqEqualsCons(d, "asc", OrdinalIgnoreCase);
    }
  }

  /** A space in front of an ignore-case match of "asc" or "desc" is a match of the modifier. */
  lemma SpacedModifier(d: string, word: string)
    requires |d| > 0 && |word| > 0 && SeqEquals(d, word, OrdinalIgnoreCase)
    ensures SeqEquals(" " + d, " " + word, OrdinalIgnoreCase)
  {
    assert (" " + d)[1..] == d && (" " + word)[1..] == word;
    SeqEqualsCons(" " + d, " " + word, OrdinalIgnoreCase);
  }

  /** " " + d, with d equal to "desc" ignoring case, holds no " asc". */
  lemma NoAscInSpacedDesc(d: string)
    requires SeqEquals(d, "desc", OrdinalIgnoreCase)
    ensures !Contains(" " + d, " asc", OrdinalIgnoreCase)
  {
    var m := " " + d;
    ModifierHead(d);
    forall j | 0 <= j < |m| ensures !MatchesAt(m, " asc", j, OrdinalIgnoreCase) {
      if j == 0 {
        assert m[0..4][1..][0] == d[0];
        SeqEqualsCons(m[0..4], " asc", OrdinalIgnoreCase);
        SeqEqualsCons(m[0..4][1..], "asc", OrdinalIgnoreCase);
        assert " asc"[1..] == "asc";
      } else if j == 1 {
        assert m[1..5] == d;
        SeqEqualsCons(d, " asc", OrdinalIgnoreCase);
      }
    }
  }

  /** Removing the modifiers from body + " " + d leaves body, when no modifier starts inside body. */
  lemma ModifierStripped(body: string, d: string)
    requires SeqEquals(d, "asc", OrdinalIgnoreCase) || SeqEquals(d, "desc", OrdinalIgnoreCase)
    requires forall j :: 0 <= j < |body| ==> !MatchesAt(body + " " + d, " asc", j, OrdinalIgnoreCase)
    requires forall j :: 0 <= j < |body| ==> !MatchesAt(body + " " + d, " desc", j, OrdinalIgnoreCase)
    ensures RemoveTrailingDirectionModifiers(body + " " + d) == body
    ensures RemoveTrailingDirectionModifiers(body) == body
  {
    var m := " " + d;
    var e := body + " " + d;
    assert e == body + m && e[..|body|] == body && e[|body|..] == m;
    StripIsTwoRemovals(e);
    StripIsTwoRemovals(body);
    ModifierHead(d);
    // no modifier occurs in body itself
    forall j | 0 <= j < |body| ensures !MatchesAt(body, " asc", j, OrdinalIgnoreCase) && !MatchesAt(body, " desc", j, OrdinalIgnoreCase) {
      if j + 4 <= |body| {
        MatchesAtExtend(body, m, " asc", j, OrdinalIgnoreCase);
      }
      if j + 5 <= |body| {
        MatchesAtExtend(body, m, " desc", j, OrdinalIgnoreCase);
      }
    }
    ReplacedWithoutMatch(body, " asc", "", OrdinalIgnoreCase);
    ReplacedWithoutMatch(body, " desc", "", OrdinalIgnoreCase);
    ReplacedKeepsPrefix(e, " asc", "", OrdinalIgnoreCase, |body|);
    if SeqEquals(d, "desc", OrdinalIgnoreCase) {
      NoAscInSpacedDesc(d);
      ReplacedWithoutMatch(m, " asc", "", OrdinalIgnoreCase);
      ReplacedKeepsPrefix(e, " desc", "", OrdinalIgnoreCase, |body|);
      SpacedModifier(d, "desc");
      ReplacedWholeMatch(m, " desc", "", OrdinalIgnoreCase);
      assert body + "" == body;
    } else {
      SpacedModifier(d, "asc");
      ReplacedWholeMatch(m, " asc", "", OrdinalIgnoreCase);
      assert body + "" == body;
    }
  }

  /** body + " " + d is a provider directive exactly when body is one. */
  lemma ModifierKeepsMode(body: string, d: string)
    ensures VerifyIsSortExpressionDefinition(body + " " + d) == VerifyIsSortExpressionDefinition(body)
  {
    var e := body + " " + d;
    var n := |DefinitionPrefix|;
    if n <= |body| {
      assert e[..n] == body[..n];
    } else {
      PrefixHasNoSpace(e);
      assert e[|body|] == ' ';
    }
  }

  /** body + " " + d ends with "desc" ignoring case exactly when d is "desc" ignoring case. */
  lemma ModifierDirection(body: string, d: string)
    requires SeqEquals(d, "asc", OrdinalIgnoreCase) || SeqEquals(d, "desc", OrdinalIgnoreCase)
    ensures ResolveSortDirection(body + " " + d) == if SeqEquals(d, "desc", OrdinalIgnoreCase) then Descending else Ascending
  {
    var e := body + " " + d;
    ModifierHead(d);
    if SeqEquals(d, "desc", OrdinalIgnoreCase) {
      assert e[|e| - 4..] == d;
    } else {
      assert e[|e| - 4..] == " " + d;
      SeqEqualsCons(" " + d, "desc", OrdinalIgnoreCase);
    }
  }

  /**
   * A trailing " asc" or " desc" (any case) only sets the direction: the mode, the command
   * and the parameters are those of the text without it, provided no modifier starts
   * inside that text.
   */
  lemma TrailingModifierDropped(body: string, d: string)
    requires SeqEquals(d, "asc", OrdinalIgnoreCase) || SeqEquals(d, "desc", OrdinalIgnoreCase)
    requires forall j :: 0 <= j < |body| ==> !MatchesAt(body + " " + d, " asc", j, OrdinalIgnoreCase)
    requires forall j :: 0 <= j < |body| ==> !MatchesAt(body + " " + d, " desc", j, OrdinalIgnoreCase)
    ensures Parse(body + " " + d).isSortExpressionDefinition == Parse(body).isSortExpressionDefinition
    ensures Parse(body + " " + d).command == Parse(body).command
    ensures Parse(body + " " + d).parameters == Parse(body).parameters
    ensures Parse(body + " " + d).sortDirection == if SeqEquals(d, "desc", OrdinalIgnoreCase) then Descending else Ascending
  {
    ModifierStripped(body, d);
    ModifierKeepsMode(body, d);
    ModifierDirection(body, d);
  }
}
