/**
 * SortExpression/SortExpression.cs: a sort directive object. FromString parses the text
 * into a direction, a mode, a command and parameters; Sort then returns the source as it
 * is (no command), hands it to the provider registered for the command (provider mode), or
 * orders it by the member reached along the dot-separated command (path mode).
 *
 * The process-wide CachedProviders dictionary is a ProviderCache object handed to the
 * operations that use it; reflection, Activator.CreateInstance and the providers' own Sort
 * are the parameters gathered in Runtime.
 */
module SortExpressions {
  import opened Wrappers
  import opened DotNetStrings
  import opened StringExtensions
  import opened ProviderEntries
  import opened Records
  import opened Ordering
  import opened Directives
  import opened Providers

  /** The exceptions a Sort call can end in. */
  datatype SortError =
    | ProviderError(cause: ResolveError)       // discovery (Single) or MakeGenericType threw
    | ProviderNotCreatable(providerType: TypeId) // CreateInstance threw or the instance is no ISortExpressionProvider<T>
    | NullParameters                            // Array.ForEach on a null Parameters array
    | UnboundMember(binding: BindError)         // Expression.PropertyOrField found no member, or several
    | KeyNotComparable                          // OrderBy over keys without a default order

  /**
   * What the runtime contributes: reflection, whether Activator.CreateInstance(providerType)
   * yields an ISortExpressionProvider<T> for element type T, and the Sort of a provider of a
   * given type once its Expression and Parameters are set.
   */
  datatype Runtime = Runtime(
    reflection: Reflection,
    canCreate: (TypeId, TypeId) -> bool,
    providerSort: (TypeId, Option<string>, seq<string>, seq<Value>, SortDirection) -> seq<Value>)

  // ---------------------------------------------------------------------------
  // Path mode
  // ---------------------------------------------------------------------------

  /**
   * SortUsingExpressions<T> (SortExpression.cs:113-137): the command split on '.', the
   * accessor built by folding PropertyOrField over the segments (GetAccessor), and OrderBy
   * or OrderByDescending with that accessor as key (GetOrderByMethod). The accessor reads
   * the members the segments bind to.
   */
  function SortUsingExpressions(source: seq<Value>, elementType: FieldType, command: string, direction: SortDirection)
    : (r: Result<seq<Value>, SortError>)
    ensures r.Success? ==> multiset(r.value) == multiset(source)
    ensures r.Failure? ==> r.error.UnboundMember? || r.error == KeyNotComparable
  {
    var path := Split(command, '.');
    match Bind(elementType, path)
    case Failure(e) => Failure(UnboundMember(e))
    case Success(binding) =>
      if binding.memberType.RecordType? then Failure(KeyNotComparable)
      else
        SortByCorrect(source, binding.members, direction);
        Success(SortBy(source, binding.members, direction))
  }

  ghost predicate AllOfType(xs: seq<Value>, t: FieldType) {
    forall i :: 0 <= i < |xs| ==> HasType(xs[i], t)
  }

  /**
   * Path mode succeeds exactly when every segment binds to one member (ignoring case) and
   * the key is a scalar; the result is then the source reordered by the key the bound members
   * reach (in the direction asked for), stably, and every key is of the key type. A segment
   * that binds to no member or to several is reported.
   */
  lemma PathSortCorrect(source: seq<Value>, elementType: FieldType, command: string, direction: SortDirection)
    requires AllOfType(source, elementType)
    ensures var binding := Bind(elementType, Split(command, '.'));
            var r := SortUsingExpressions(source, elementType, command, direction);
            && (r.Success? <==> binding.Success? && !binding.value.memberType.RecordType?)
            && (binding.Failure? ==> r == Failure(UnboundMember(binding.error)))
            && (r.Success? ==>
                  && SortedBy(r.value, binding.value.members, direction)
                  && multiset(r.value) == multiset(source)
                  && StableFor(r.value, source, binding.value.members)
                  && forall i :: 0 <= i < |r.value| ==>
                       HasType(Access(r.value[i], binding.value.members), binding.value.memberType))
  {
    var path := Split(command, '.');
    var binding := Bind(elementType, path);
    var r := SortUsingExpressions(source, elementType, command, direction);
    if r.Success? {
      var members := binding.value.members;
      SortByCorrect(source, members, direction);
      forall i | 0 <= i < |r.value| ensures HasType(Access(r.value[i], members), binding.value.memberType) {
        assert r.value[i] in multiset(source);
        var j :| 0 <= j < |source| && source[j] == r.value[i];
        AccessHasType(source[j], elementType, path);
      }
    }
  }

  /**
   * Fail-fast on the path: when the segments before the one at index `k` bind and that one names
   * no member, or several, of the type they reach, path mode fails with an error naming it.
   */
  lemma PathSortStopsAt(source: seq<Value>, elementType: FieldType, command: string, direction: SortDirection, k: nat)
    requires k < |Split(command, '.')| && Bind(elementType, Split(command, '.')[..k]).Success?
    ensures var path := Split(command, '.');
            var named := NamedIn(Bind(elementType, path[..k]).value.memberType, path[k]);
            var r := SortUsingExpressions(source, elementType, command, direction);
            && (named == {} ==> r == Failure(UnboundMember(NoSuchMember(path[k]))))
            && (|named| > 1 ==> r == Failure(UnboundMember(AmbiguousMember(path[k]))))
  {
    BindFailsAt(elementType, Split(command, '.'), k);
  }

  /** Two commands whose segments agree ignoring case sort alike. */
  lemma PathSortIgnoresCase(source: seq<Value>, elementType: FieldType, command: string, other: string, direction: SortDirection)
    requires SameIgnoringCase(Split(command, '.'), Split(other, '.'))
    ensures SortUsingExpressions(source, elementType, command, direction).Success?
            == SortUsingExpressions(source, elementType, other, direction).Success?
    ensures SortUsingExpressions(source, elementType, command, direction).Success? ==>
              SortUsingExpressions(source, elementType, command, direction)
              == SortUsingExpressions(source, elementType, other, direction)
  {
    BindIgnoresCase(elementType, Split(command, '.'), Split(other, '.'));
  }

  // ---------------------------------------------------------------------------
  // Provider mode and dispatch, on values
  // ---------------------------------------------------------------------------

  /** GetSortExpressionProvider<T> (SortExpression.cs:92-111) on the value of the cache: the provider type and the cache afterwards. */
  function ProviderFor(cache: map<string, EntryState>, command: string, elementType: FieldType, runtime: Runtime)
    : (r: (Result<TypeId, SortError>, map<string, EntryState>))
    requires CacheWellFormed(cache)
    ensures CacheWellFormed(r.1)
  {
    var (resolved, after) := ResolveStep(cache, command, TypeIdOf(elementType), runtime.reflection);
    match resolved
    case Failure(e) => (Failure(ProviderError(e)), after)
    case Success(p) =>
      if runtime.canCreate(p, TypeIdOf(elementType)) then (Success(p), after) else (Failure(ProviderNotCreatable(p)), after)
  }

  /** SortUsingProvider<T> (SortExpression.cs:83-90) on the value of the cache. */
  function ProviderOutcome(cache: map<string, EntryState>, d: Directive, source: seq<Value>, elementType: FieldType, runtime: Runtime)
    : (r: (Result<seq<Value>, SortError>, map<string, EntryState>))
    requires CacheWellFormed(cache)
    ensures CacheWellFormed(r.1)
  {
    var (found, after) := ProviderFor(cache, d.command, elementType, runtime);
    match found
    case Failure(e) => (Failure(e), after)
    case Success(p) =>
      match d.parameters
      case None => (Failure(NullParameters), after)
      case Some(ps) => (Success(runtime.providerSort(p, Some(d.command), ps, source, d.sortDirection)), after)
  }

  /** Sort<T> (SortExpression.cs:73-81) on the value of the cache: the result and the cache afterwards. */
  function SortOutcome(cache: map<string, EntryState>, d: Directive, source: seq<Value>, elementType: FieldType, runtime: Runtime)
    : (r: (Result<seq<Value>, SortError>, map<string, EntryState>))
    requires CacheWellFormed(cache)
    ensures CacheWellFormed(r.1)
  {
    if d.command == [] then (Success(source), cache)
    else if d.isSortExpressionDefinition then ProviderOutcome(cache, d, source, elementType, runtime)
    else (SortUsingExpressions(source, elementType, d.command, d.sortDirection), cache)
  }

  /**
   * A path-mode directive with a command never touches the cache, and its result is the
   * path sort: the source ordered stably by the key, or the error naming what is wrong.
   */
  lemma PathModeSorts(cache: map<string, EntryState>, d: Directive, source: seq<Value>, elementType: FieldType, runtime: Runtime)
    requires CacheWellFormed(cache) && AllOfType(source, elementType)
    requires !d.isSortExpressionDefinition && d.command != []
    ensures var (r, after) := SortOutcome(cache, d, source, elementType, runtime);
            var binding := Bind(elementType, Split(d.command, '.'));
            && after == cache
            && (r.Success? <==> binding.Success? && !binding.value.memberType.RecordType?)
            && (binding.Failure? ==> r == Failure(UnboundMember(binding.error)))
            && (r.Success? ==>
                  SortedBy(r.value, binding.value.members, d.sortDirection) && multiset(r.value) == multiset(source) &&
                  StableFor(r.value, source, binding.value.members))
  {
    PathSortCorrect(source, elementType, d.command, d.sortDirection);
  }

  /**
   * A provider-mode directive with a command resolves the command in the cache and, when a
   * provider of the resolved type can be created and the parameters are set, returns what
   * that provider's Sort returns for the command, the parameters and the direction.
   */
  lemma ProviderModeHandsOff(cache: map<string, EntryState>, d: Directive, source: seq<Value>, elementType: FieldType, runtime: Runtime)
    requires CacheWellFormed(cache)
    requires d.isSortExpressionDefinition && d.command != []
    ensures var (r, after) := SortOutcome(cache, d, source, elementType, runtime);
            var (resolved, resolvedCache) := ResolveStep(cache, d.command, TypeIdOf(elementType), runtime.reflection);
            && after == resolvedCache
            && (resolved.Failure? ==> r == Failure(ProviderError(resolved.error)))
            && (resolved.Success? && !runtime.canCreate(resolved.value, TypeIdOf(elementType)) ==>
                  r == Failure(ProviderNotCreatable(resolved.value)))
            && (r.Success? <==>
                  resolved.Success? && runtime.canCreate(resolved.value, TypeIdOf(elementType)) && d.parameters.Some?)
            && (r.Success? ==>
                  r.value == runtime.providerSort(resolved.value, Some(d.command), d.parameters.value, source, d.sortDirection))
  {
  }

  /** Sorting only ever adds to the cache: other commands keep their entries, and the command's entry only grows. */
  lemma SortOnlyGrowsCache(cache: map<string, EntryState>, d: Directive, source: seq<Value>, elementType: FieldType, runtime: Runtime)
    requires CacheWellFormed(cache)
    ensures var after := SortOutcome(cache, d, source, elementType, runtime).1;
            && after.Keys <= cache.Keys + {d.command}
            && (forall c :: c in cache && c != d.command ==> c in after && after[c] == cache[c])
            && (d.command in cache ==>
                  && d.command in after
                  && after[d.command].isGenericSpecific == cache[d.command].isGenericSpecific
                  && Extends(cache[d.command].providerTypes, after[d.command].providerTypes))
  {
    if d.command != [] && d.isSortExpressionDefinition {
      ResolveOnlyGrows(cache, d.command, TypeIdOf(elementType), runtime.reflection);
    }
  }

  /**
   * Writing a provider directive and sorting with it: "sortexpr:", spaces, and space-separated
   * tokens free of white space and of modifiers hand the first token to the provider as its
   * Expression and the others, in order, as its Parameters.
   */
  lemma ProviderDirectiveText(cache: map<string, EntryState>, lead: string, tokens: seq<string>,
                              source: seq<Value>, elementType: FieldType, runtime: Runtime)
    requires CacheWellFormed(cache)
    requires forall k :: 0 <= k < |lead| ==> lead[k] == ' '
    requires |tokens| >= 1
    requires forall i :: 0 <= i < |tokens| ==> |tokens[i]| > 0
    requires forall i, k :: 0 <= i < |tokens| && 0 <= k < |tokens[i]| ==> !IsWhiteSpace(tokens[i][k])
    requires !Contains(lead + Join(tokens, ' '), " asc", OrdinalIgnoreCase)
    requires !Contains(lead + Join(tokens, ' '), " desc", OrdinalIgnoreCase)
    ensures var d := Parse(DefinitionPrefix + lead + Join(tokens, ' '));
            var (r, _) := SortOutcome(cache, d, source, elementType, runtime);
            var (resolved, _) := ProviderFor(cache, tokens[0], elementType, runtime);
            && (r.Success? <==> resolved.Success?)
            && (r.Success? ==> r.value == runtime.providerSort(resolved.value, Some(tokens[0]), tokens[1..], source, d.sortDirection))
  {
    ParseProviderDirective(lead, tokens);
  }

  // ---------------------------------------------------------------------------
  // The directives of the unit tests
  // ---------------------------------------------------------------------------

  /** The SortDummy element type of the tests: an Integer and a String member. */
  const DummyType: FieldType := RecordType("SortDummy", map["Integer" := IntType, "String" := StringType])

  function Dummy(n: int, s: string): Value {
    RecordValue(map["Integer" := IntValue(n), "String" := StringValue(s)])
  }

  /** The four dummies of the tests, in their list order. */
  function Dummies(): seq<Value> {
    [Dummy(2, "B"), Dummy(4, "D"), Dummy(1, "A"), Dummy(3, "C")]
  }

  /** The dummies in ascending order of their Integer (and of their String). */
  function DummiesInOrder(): seq<Value> {
    [Dummy(1, "A"), Dummy(2, "B"), Dummy(3, "C"), Dummy(4, "D")]
  }

  /** A text without spaces holds neither modifier. */
  lemma SpaceFreeHasNoModifier(s: string)
    requires ' ' !in s
    ensures !Contains(s, " asc", OrdinalIgnoreCase) && !Contains(s, " desc", OrdinalIgnoreCase)
  {
    forall j | 0 <= j < |s| ensures !MatchesAt(s, " asc", j, OrdinalIgnoreCase) && !MatchesAt(s, " desc", j, OrdinalIgnoreCase) {
      NoMatchAtNonSpace(s, " asc", j);
      NoMatchAtNonSpace(s, " desc", j);
    }
  }

  /** A member name of fewer than nine code units, free of spaces and dots, is a one-segment path-mode command. */
  lemma ShortMemberDirective(name: string)
    requires |name| < |DefinitionPrefix| && ' ' !in name && '.' !in name
    ensures Parse(name) == Directive(ResolveSortDirection(name), false, name, None)
  {
    SpaceFreeHasNoModifier(name);
    PathModeCommand(name);
  }

  /** A member name without dots is a one-segment path. */
  lemma SingleSegmentPath(name: string)
    requires '.' !in name
    ensures Split(name, '.') == [name]
  {
    SplitJoin([name], '.');
  }

  lemma IntegerDirective()
    ensures Parse("Integer") == Directive(Ascending, false, "Integer", None)
    ensures Split("Integer", '.') == ["Integer"]
  {
    ShortMemberDirective("Integer");
    SingleSegmentPath("Integer");
    DirectionIsTrailingDesc("Integer");
    assert "Integer"[3..] == "eger";
    assert UpperAscii("eger")[0] == 'E';
  }

  lemma StringDirective()
    ensures Parse("String") == Directive(Ascending, false, "String", None)
    ensures Split("String", '.') == ["String"]
  {
    ShortMemberDirective("String");
    SingleSegmentPath("String");
    DirectionIsTrailingDesc("String");
    assert "String"[2..] == "ring";
    assert UpperAscii("ring")[0] == 'R';
  }

  lemma IntegerDescDirective()
    ensures Parse("Integer DESC") == Directive(Descending, false, "Integer", None)
  {
    var body, e := "Integer", "Integer DESC";
    assert e == body + " " + "DESC";
    forall j | 0 <= j < |body|
      ensures !MatchesAt(e, " asc", j, OrdinalIgnoreCase) && !MatchesAt(e, " desc", j, OrdinalIgnoreCase)
    {
      assert e[j] == body[j];
      NoMatchAtNonSpace(e, " asc", j);
      NoMatchAtNonSpace(e, " desc", j);
    }
    IgnoreCaseEqualsUpper("DESC", "desc");
    TrailingModifierDropped(body, "DESC");
    IntegerDirective();
  }

  /** The keys of a dummy. */
  lemma DummyKeys(n: int, s: string)
    ensures Access(Dummy(n, s), ["Integer"]) == IntValue(n)
    ensures Access(Dummy(n, s), ["String"]) == StringValue(s)
  {
    var fields := Dummy(n, s).fields;
    assert "Integer" in fields && fields["Integer"] == IntValue(n);
    assert "String" in fields && fields["String"] == StringValue(s);
    assert ["Integer"][1..] == [] && ["String"][1..] == [];
  }

  lemma InsertFront(x: Value, ys: seq<Value>, path: seq<string>, direction: SortDirection)
    requires ys != [] && Precedes(direction, Access(x, path), Access(ys[0], path))
    ensures Insert(x, ys, path, direction) == [x] + ys
  {
  }

  lemma InsertPast(x: Value, ys: seq<Value>, path: seq<string>, direction: SortDirection)
    requires ys != [] && !Precedes(direction, Access(x, path), Access(ys[0], path))
    ensures Insert(x, ys, path, direction) == [ys[0]] + Insert(x, ys[1..], path, direction)
  {
  }

  lemma SortByCons(xs: seq<Value>, path: seq<string>, direction: SortDirection)
    requires xs != []
    ensures SortBy(xs, path, direction) == Insert(xs[0], SortBy(xs[1..], path, direction), path, direction)
  {
  }

  /** The insertions that sort [w, x, y, z] into [y, w, z, x]. */
  lemma SortFourYWZX(w: Value, x: Value, y: Value, z: Value, path: seq<string>, direction: SortDirection)
    requires var kw, kx, ky, kz := Access(w, path), Access(x, path), Access(y, path), Access(z, path);
             && Precedes(direction, ky, kz)
             && !Precedes(direction, kx, ky) && !Precedes(direction, kx, kz)
             && !Precedes(direction, kw, ky) && Precedes(direction, kw, kz)
    ensures SortBy([w, x, y, z], path, direction) == [y, w, z, x]
  {
    assert [w, x, y, z][1..] == [x, y, z] && [x, y, z][1..] == [y, z] && [y, z][1..] == [z] && [z][1..] == [];
    SortByCons([z], path, direction);
    SortByCons([y, z], path, direction);
    InsertFront(y, [z], path, direction);
    SortByCons([x, y, z], path, direction);
    InsertPast(x, [y, z], path, direction);
    InsertPast(x, [z], path, direction);
    assert [y, z, x] == [y] + ([z] + [x]);
    SortByCons([w, x, y, z], path, direction);
    InsertPast(w, [y, z, x], path, direction);
    assert [y, z, x][1..] == [z, x];
    InsertFront(w, [z, x], path, direction);
  }

  /** The insertions that sort [w, x, y, z] into [x, z, w, y]. */
  lemma SortFourXZWY(w: Value, x: Value, y: Value, z: Value, path: seq<string>, direction: SortDirection)
    requires var kw, kx, ky, kz := Access(w, path), Access(x, path), Access(y, path), Access(z, path);
             && !Precedes(direction, ky, kz)
             && Precedes(direction, kx, kz)
             && !Precedes(direction, kw, kx) && !Precedes(direction, kw, kz) && Precedes(direction, kw, ky)
    ensures SortBy([w, x, y, z], path, direction) == [x, z, w, y]
  {
    assert [w, x, y, z][1..] == [x, y, z] && [x, y, z][1..] == [y, z] && [y, z][1..] == [z] && [z][1..] == [];
    SortByCons([z], path, direction);
    SortByCons([y, z], path, direction);
    InsertPast(y, [z], path, direction);
    SortByCons([x, y, z], path, direction);
    InsertFront(x, [z, y], path, direction);
    SortByCons([w, x, y, z], path, direction);
    InsertPast(w, [x, z, y], path, direction);
    assert [x, z, y][1..] == [z, y] && [z, y][1..] == [y];
    InsertPast(w, [z, y], path, direction);
    InsertFront(w, [y], path, direction);
  }

  /** The segments "Integer" and "String" bind to the members of SortDummy of those names. */
  lemma DummyMembers()
    ensures Bind(DummyType, ["Integer"]) == Success(Binding(["Integer"], IntType))
    ensures Bind(DummyType, ["String"]) == Success(Binding(["String"], StringType))
  {
    assert CaseDistinct(DummyType.members) by {
      forall a, b | a in DummyType.members && b in DummyType.members && SeqEquals(a, b, OrdinalIgnoreCase)
        ensures a == b
      {
      }
    }
    BindDeclaredName(DummyType, "Integer");
    BindDeclaredName(DummyType, "String");
  }

  lemma DummiesByInteger()
    ensures SortBy(Dummies(), ["Integer"], Ascending) == DummiesInOrder()
    ensures SortBy(Dummies(), ["Integer"], Descending) == [Dummy(4, "D"), Dummy(3, "C"), Dummy(2, "B"), Dummy(1, "A")]
  {
    DummyKeys(1, "A"); DummyKeys(2, "B"); DummyKeys(3, "C"); DummyKeys(4, "D");
    SortFourYWZX(Dummy(2, "B"), Dummy(4, "D"), Dummy(1, "A"), Dummy(3, "C"), ["Integer"], Ascending);
    SortFourXZWY(Dummy(2, "B"), Dummy(4, "D"), Dummy(1, "A"), Dummy(3, "C"), ["Integer"], Descending);
  }

  lemma DummiesByString()
    ensures SortBy(Dummies(), ["String"], Ascending) == DummiesInOrder()
  {
    DummyKeys(1, "A"); DummyKeys(2, "B"); DummyKeys(3, "C"); DummyKeys(4, "D");
    assert "A"[1..] == [] && "B"[1..] == [] && "C"[1..] == [];
    SortFourYWZX(Dummy(2, "B"), Dummy(4, "D"), Dummy(1, "A"), Dummy(3, "C"), ["String"], Ascending);
  }

  /** "Integer" orders the dummies 1, 2, 3, 4 and leaves the cache alone. */
  lemma SortsDummiesByInteger(cache: map<string, EntryState>, runtime: Runtime)
    requires CacheWellFormed(cache)
    ensures SortOutcome(cache, Parse("Integer"), Dummies(), DummyType, runtime) == (Success(DummiesInOrder()), cache)
  {
    IntegerDirective();
    DummyMembers();
    DummiesByInteger();
  }

  /** "Integer DESC" orders the dummies 4, 3, 2, 1 and leaves the cache alone. */
  lemma SortsDummiesByIntegerDescending(cache: map<string, EntryState>, runtime: Runtime)
    requires CacheWellFormed(cache)
    ensures SortOutcome(cache, Parse("Integer DESC"), Dummies(), DummyType, runtime)
            == (Success([Dummy(4, "D"), Dummy(3, "C"), Dummy(2, "B"), Dummy(1, "A")]), cache)
  {
    IntegerDescDirective();
    IntegerDirective();
    DummyMembers();
    DummiesByInteger();
  }

  /** "String" orders the dummies "A", "B", "C", "D" (ordinally) and leaves the cache alone. */
  lemma SortsDummiesByString(cache: map<string, EntryState>, runtime: Runtime)
    requires CacheWellFormed(cache)
    ensures SortOutcome(cache, Parse("String"), Dummies(), DummyType, runtime) == (Success(DummiesInOrder()), cache)
  {
    StringDirective();
    DummyMembers();
    DummiesByString();
  }

  lemma LowerCaseIntegerDirective()
    ensures Parse("integer") == Directive(Ascending, false, "integer", None)
    ensures Split("integer", '.') == ["integer"]
  {
    ShortMemberDirective("integer");
    SingleSegmentPath("integer");
    DirectionIsTrailingDesc("integer");
    assert "integer"[3..] == "eger";
    assert UpperAscii("eger")[0] == 'E';
  }

  /** The segments "integer" and "Integer" agree ignoring case. */
  lemma LowerCaseIntegerSegment()
    ensures SameIgnoringCase(["integer"], ["Integer"])
  {
    IgnoreCaseEqualsUpper("integer", "Integer");
    var u, v := UpperAscii("integer"), UpperAscii("Integer");
    assert u[0] == v[0] && u[1] == v[1] && u[2] == v[2] && u[3] == v[3] && u[4] == v[4] && u[5] == v[5] && u[6] == v[6];
    assert u == v;
  }

  /**
   * Members bind ignoring case: "integer" orders the dummies by their Integer member,
   * 1, 2, 3, 4, and leaves the cache alone.
   */
  lemma SortsDummiesByLowerCaseInteger(cache: map<string, EntryState>, runtime: Runtime)
    requires CacheWellFormed(cache)
    ensures SortOutcome(cache, Parse("integer"), Dummies(), DummyType, runtime) == (Success(DummiesInOrder()), cache)
  {
    LowerCaseIntegerDirective();
    IntegerDirective();
    LowerCaseIntegerSegment();
    BindIgnoresCase(DummyType, ["integer"], ["Integer"]);
    DummyMembers();
    DummiesByInteger();
  }

  /** "sortexpr:" alone: provider mode, ascending, nothing to strip. */
  lemma BareDefinitionParts()
    ensures VerifyIsSortExpressionDefinition(DefinitionPrefix)
    ensures ResolveSortDirection(DefinitionPrefix) == Ascending
    ensures RemoveTrailingDirectionModifiers(DefinitionPrefix) == DefinitionPrefix
  {
    assert DefinitionPrefix[..|DefinitionPrefix|] == DefinitionPrefix;
    SeqEqualsReflexive(DefinitionPrefix, OrdinalIgnoreCase);
    SpaceFreeHasNoModifier(DefinitionPrefix);
    NoModifierUnchanged(DefinitionPrefix);
    DirectionIsTrailingDesc(DefinitionPrefix);
    assert DefinitionPrefix[5..] == "xpr:";
    assert UpperAscii("xpr:")[0] == 'X';
  }

  /** "sortexpr:" with nothing after it is a provider directive with an empty command. */
  lemma BareDefinitionParse()
    ensures Parse(DefinitionPrefix) == Directive(Ascending, true, "", Some([]))
  {
    BareDefinitionParts();
    assert DefinitionPrefix[|DefinitionPrefix|..] == "";
    assert Trim("") == "";
    assert Split("", ' ') == [""] && [""][1..] == [];
  }

  /** Sort with an empty command returns the source as it is, in either mode, without consulting the cache. */
  lemma EmptyCommandReturnsSource(cache: map<string, EntryState>, d: Directive, source: seq<Value>, elementType: FieldType, runtime: Runtime)
    requires CacheWellFormed(cache) && d.command == []
    ensures SortOutcome(cache, d, source, elementType, runtime) == (Success(source), cache)
  {
  }

  /** A directive that is only " asc", in any case, parses to an empty ascending path command. */
  lemma AscendingModifierAlone(e: string)
    requires SeqEquals(e, " asc", OrdinalIgnoreCase)
    ensures Parse(e) == Directive(Ascending, false, "", None)
  {
    StripIsTwoRemovals(e);
    ReplacedWholeMatch(e, " asc", "", OrdinalIgnoreCase);
    assert Replaced("", " desc", "", OrdinalIgnoreCase) == "";
    SeqEqualsCons(e, " asc", OrdinalIgnoreCase);
    assert e[|e| - 4..] == e;
    SeqEqualsCons(e, "desc", OrdinalIgnoreCase);
  }

  /** Sort with "Id", a member the dummy does not have, fails naming that segment. */
  lemma SortsDummiesByUnknownMember(cache: map<string, EntryState>, runtime: Runtime)
    requires CacheWellFormed(cache)
    ensures SortOutcome(cache, Parse("Id"), Dummies(), DummyType, runtime) == (Failure(UnboundMember(NoSuchMember("Id"))), cache)
  {
    ShortMemberDirective("Id");
    SingleSegmentPath("Id");
    assert NamedIn(DummyType, "Id") == {};
  }

  /** So Sort with "sortexpr:" returns the source as it is, without consulting the cache. */
  lemma BareDefinitionReturnsSource(cache: map<string, EntryState>, source: seq<Value>, elementType: FieldType, runtime: Runtime)
    requires CacheWellFormed(cache)
    ensures SortOutcome(cache, Parse(DefinitionPrefix), source, elementType, runtime) == (Success(source), cache)
  {
    BareDefinitionParse();
  }

  // ---------------------------------------------------------------------------
  // The objects
  // ---------------------------------------------------------------------------

  /**
   * The provider instance CreateInstance returns: its type, its Expression (null until set)
   * and its Parameters collection, which SortExpressionProviderImplBase starts empty.
   */
  class Provider {
    const providerType: TypeId
    var expression: Option<string>
    var parameters: seq<string>

    constructor (providerType: TypeId)
      ensures this.providerType == providerType && expression == None && parameters == []
    {
      this.providerType := providerType;
      expression := None;
      parameters := [];
    }

    /** Array.ForEach(ps, p => Parameters.Add(p)) (SortExpression.cs:87): adds each of `ps`, in order. */
    method AddParameters(ps: seq<string>)
      modifies this
      ensures parameters == old(parameters) + ps
      ensures expression == old(expression)
    {
      var i := 0;
      while i < |ps|
        invariant 0 <= i <= |ps|
        invariant parameters == old(parameters) + ps[..i]
        invariant expression == old(expression)
      {
        parameters := parameters + [ps[i]];
        i := i + 1;
        assert ps[..i] == ps[..i - 1] + [ps[i - 1]];
      }
      assert ps[..i] == ps;
    }

    /** The provider's Sort(source, direction), as its type and the state it was given decide. */
    function Sorted(source: seq<Value>, direction: SortDirection,
                    providerSort: (TypeId, Option<string>, seq<string>, seq<Value>, SortDirection) -> seq<Value>): seq<Value>
      reads this
    {
      providerSort(providerType, expression, parameters, source, direction)
    }
  }

  class SortExpression {
    const expression: string
    var sortDirection: SortDirection
    var isSortExpressionDefinition: bool
    var command: string
    var parameters: Option<seq<string>>

    /** The four properties as a directive. */
    function State(): Directive
      reads this
    {
      Directive(sortDirection, isSortExpressionDefinition, command, parameters)
    }

    /**
     * The private constructor (SortExpression.cs:21-25): the properties start at their
     * defaults and ParseExpression fills them in from the text.
     */
    constructor (sortExpression: string)
      ensures expression == sortExpression
      ensures State() == Parse(sortExpression)
    {
      expression := sortExpression;
      sortDirection := Ascending;
      isSortExpressionDefinition := false;
      command := [];
      parameters := None;
      new;
      ParseExpression();
    }

    /** FromString (SortExpression.cs:27-30): a new directive object parsed from the text. */
    static method FromString(sortExpression: string) returns (r: SortExpression)
      ensures fresh(r)
      ensures r.expression == sortExpression && r.State() == Parse(sortExpression)
    {
      r := new SortExpression(sortExpression);
    }

    /**
     * ParseExpression (SortExpression.cs:40-54): the properties become those Parse computes
     * from the text, except that path mode leaves Parameters as it was.
     */
    method ParseExpression()
      modifies this
      ensures var d := Parse(expression);
              && sortDirection == d.sortDirection
              && isSortExpressionDefinition == d.isSortExpressionDefinition
              && command == d.command
              && parameters == if d.isSortExpressionDefinition then d.parameters else old(parameters)
    {
      sortDirection := ResolveSortDirection(expression);
      isSortExpressionDefinition := VerifyIsSortExpressionDefinition(expression);
      var stripped := RemoveTrailingDirectionModifiers(expression);
      if isSortExpressionDefinition {
        var tokens := Split(Trim(stripped[|DefinitionPrefix|..]), ' ');
        command := tokens[0];
        parameters := Some(tokens[1..]);
      } else {
        command := stripped;
      }
    }

    /** The Command setter (SortExpression.cs:36). */
    method SetCommand(value: string)
      modifies this
      ensures State() == old(State()).(command := value)
    {
      command := value;
    }

    /** The Parameters setter (SortExpression.cs:38); None is null. */
    method SetParameters(value: Option<seq<string>>)
      modifies this
      ensures State() == old(State()).(parameters := value)
    {
      parameters := value;
    }

    /**
     * GetSortExpressionProvider<T> (SortExpression.cs:92-111): the provider type from the
     * cache, then a new instance of it with no Expression and no Parameters.
     */
    method GetSortExpressionProvider(elementType: FieldType, registry: ProviderCache, runtime: Runtime)
      returns (r: Result<Provider, SortError>)
      requires registry.Valid()
      modifies registry, registry.cachedProviders.Values
      ensures registry.Valid()
      ensures CacheWellFormed(old(registry.snapshot))
      ensures var (found, after) := ProviderFor(old(registry.snapshot), command, elementType, runtime);
              && registry.snapshot == after
              && r.Success? == found.Success?
              && (r.Failure? ==> r.error == found.error)
              && (r.Success? ==> fresh(r.value) && r.value.providerType == found.value &&
                                 r.value.expression == None && r.value.parameters == [])
    {
      var providerType := registry.GetProviderType(command, TypeIdOf(elementType), runtime.reflection);
      if providerType.Failure? {
        return Failure(ProviderError(providerType.error));
      }
      if !runtime.canCreate(providerType.value, TypeIdOf(elementType)) {
        return Failure(ProviderNotCreatable(providerType.value));
      }
      var provider := new Provider(providerType.value);
      r := Success(provider);
    }

    /**
     * SortUsingProvider<T> (SortExpression.cs:83-90): the provider gets the command as its
     * Expression and the parameters appended to its Parameters, then sorts.
     */
    method SortUsingProvider(source: seq<Value>, elementType: FieldType, registry: ProviderCache, runtime: Runtime)
      returns (r: Result<seq<Value>, SortError>)
      requires registry.Valid()
      modifies registry, registry.cachedProviders.Values
      ensures registry.Valid()
      ensures CacheWellFormed(old(registry.snapshot))
      ensures (r, registry.snapshot) == ProviderOutcome(old(registry.snapshot), State(), source, elementType, runtime)
    {
      var found := GetSortExpressionProvider(elementType, registry, runtime);
      if found.Failure? {
        return Failure(found.error);
      }
      var provider := found.value;
      provider.expression := Some(command);
      if parameters.None? {
        return Failure(NullParameters);
      }
      provider.AddParameters(parameters.value);
      assert provider.parameters == parameters.value;
      r := Success(provider.Sorted(source, sortDirection, runtime.providerSort));
    }

    /** Sort<T> (SortExpression.cs:73-81). */
    method Sort(source: seq<Value>, elementType: FieldType, registry: ProviderCache, runtime: Runtime)
      returns (r: Result<seq<Value>, SortError>)
      requires registry.Valid()
      modifies registry, registry.cachedProviders.Values
      ensures registry.Valid()
      ensures CacheWellFormed(old(registry.snapshot))
      ensures (r, registry.snapshot) == SortOutcome(old(registry.snapshot), State(), source, elementType, runtime)
    {
      assert CacheWellFormed(registry.snapshot) by {
        forall c | c in registry.snapshot ensures WellFormed(registry.snapshot[c]) {
          assert registry.cachedProviders[c].Valid();
        }
      }
      if command == [] {
        return Success(source);
      }
      if isSortExpressionDefinition {
        r := SortUsingProvider(source, elementType, registry, runtime);
        return;
      }
      r := SortUsingExpressions(source, elementType, command, sortDirection);
    }
  }
}
