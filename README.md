# SortExpression sort directives in Dafny

This project models the core of SortExpression. That is the .NET library that turns a sort
directive string such as `"Integer DESC"` or `"sortexpr: SortDummy p1 p2"` into an
ordering of a query. It covers four things:

- **The directive text.** `SortExpression.FromString` parses the text into four properties:
  - the direction, descending when the text ends with `desc` in any case;
  - the mode, provider mode when it starts with `sortexpr:` in any case;
  - the command;
  - in provider mode, the parameters.

  Every `" asc"` and `" desc"` is removed before the command is taken. The removal uses the
  `StringExtensions` helpers of `Core`: they replace text with a chosen comparison mode, and
  the `Remove` forms fold over several values.
- **Sort.** `Sort` does one of three things:
  - with no command, it returns the source as it is;
  - in path mode, it orders the source by the member reached along the dot-separated
    command, with `OrderBy` or `OrderByDescending`, a stable sort under the key's default
    comparer;
  - in provider mode, it hands the source to the provider registered for the command.
- **Provider resolution.** A process-wide cache maps each command to a `ProviderEntry`. The
  entry is filled on the first use of a command, by discovering the single type that
  implements `ISortExpressionProvider<>` and carries the command's name. A generic-specific
  entry then adds one closed provider type per element type, on first use.
- **The provider object.** It receives the command as its `Expression` and the parameters in
  its `Parameters` collection before it sorts.

The modules follow the source:

| module | source |
|---|---|
| `Wrappers` | `Option` and `Result` |
| `DotNetStrings` | the .NET string primitives used: comparison modes, `IndexOf`, `StartsWith`, `EndsWith`, `Trim`, `Split` |
| `StringExtensions` | `Core/StringExtensions.cs` |
| `ProviderEntries` | `SortExpression/ProviderEntry.cs` |
| `Records` | element values and the member lookup `GetAccessor` |
| `Ordering` | keys, their order and the stable sort `OrderBy` performs |
| `Directives` | the parsing half of `SortExpression/SortExpression.cs` |
| `Providers` | the provider cache and discovery |
| `SortExpressions` | the `SortExpression` class, its `Sort`, and the unit-test directives |

Each operation is given on values first, as a function on the directive text or on the
cache's contents. The lemmas about it sit beside it. The classes `ProviderEntry`,
`ProviderCache`, `Provider` and `SortExpression` are then written imperatively. Each of their
methods is proved to leave exactly the state that the function on values describes.

Four things the code uses are not modelled directly; they are parameters instead:

- The static `CachedProviders` dictionary is a `ProviderCache` object handed to the
  operations that use it.
- Reflection is a `Reflection` value: `AllTypes.Everywhere()` with its `Implements` and
  attribute queries becomes a catalog of `TypeDecl`, and `MakeGenericType` becomes a partial
  function.
- Whether `Activator.CreateInstance` gives an `ISortExpressionProvider<T>` is a parameter.
- A provider's own `Sort` is a parameter.

That is, reflection, `Activator.CreateInstance` and the providers' `Sort` are the fields of
`Runtime`.

In three places the code does something other than its names suggest, and the model follows the code:

- **Modifiers are removed anywhere.** The method is called `RemoveTrailingDirectionModifiers`, but `" asc"` and `" desc"` are
  removed wherever they occur.
- **A bare `sortexpr:` is allowed.** It yields an empty command, and then `Sort` returns the
  source unchanged (`BareDefinitionReturnsSource`).
- **The factory gets the element type twice.** The factory that `GetSortExpressionProvider`
  gives to a cached generic entry is `t => t.MakeGenericType(typeof(T))`, and
  `ProviderEntry.GetOrAdd<T>` calls it with `typeof(T)` itself. So for a new element type the
  code closes the element type over itself, not the provider definition
  (`NewElementTypeForCachedGeneric`).

## Model

| member | source | states |
|---|---|---|
| DotNetStrings.IndexOf | Core/StringExtensions.cs:13-14 | the result is -1 or a match at or after the start index, and no match lies between the start and the result |
| DotNetStrings.Trim | SortExpression/SortExpression.cs:48 | the result is the slice of the text after its leading white space; it neither starts nor ends with white space, and only white space follows it |
| DotNetStrings.Split | SortExpression/SortExpression.cs:48 | splitting gives at least one piece, no piece holds the separator, and joining the pieces with the separator gives the text back |
| DotNetStrings.SplitJoin | SortExpression/SortExpression.cs:115 | splitting the join of separator-free tokens gives the tokens back |
| DotNetStrings.StartsWith | SortExpression/SortExpression.cs:65 | String.StartsWith with a comparison mode; ModeIsLeadingPrefix states it for "sortexpr:" and OrdinalIgnoreCase |
| DotNetStrings.EndsWith | SortExpression/SortExpression.cs:58 | String.EndsWith with a comparison mode; DirectionIsTrailingDesc states it for "desc" and OrdinalIgnoreCase |
| DotNetStrings.IgnoreCaseEqualsUpper | SortExpression/SortExpression.cs:58 | OrdinalIgnoreCase equality holds exactly when the upper-cased forms are equal |
| DotNetStrings.OrdinalEqualsIsEquality | Core/StringExtensions.cs:29-32 | Ordinal equality is plain equality |
| StringExtensions.Replace | Core/StringExtensions.cs:9-27 | the IndexOf loop builds exactly the left-to-right, non-overlapping replacement of every match (a non-empty old value is required, since for an empty one the loop never ends) |
| StringExtensions.ReplaceStep | Core/StringExtensions.cs:15-23 | one turn of the loop keeps "built so far + replacement of the rest" equal to the whole replacement |
| StringExtensions.MatchCountPositive | Core/StringExtensions.cs:13-15 | the loop finds a match exactly when the old value occurs somewhere in the string |
| StringExtensions.ReplacedLength | Core/StringExtensions.cs:17-19 | the length changes by the number of matches times the difference of the two values' lengths |
| StringExtensions.ReplacedWithoutMatch | Core/StringExtensions.cs:24 | a string without an occurrence of the old value comes back unchanged |
| StringExtensions.ReplacedBySelf | Core/StringExtensions.cs:9-27 | replacing every Ordinal match by the old value itself gives the string back |
| StringExtensions.ReplacedKeepsPrefix | Core/StringExtensions.cs:17 | text before the first match is copied verbatim |
| StringExtensions.ReplacedWholeMatch | Core/StringExtensions.cs:17-18 | a string that is exactly one match becomes the new value |
| StringExtensions.Remove | Core/StringExtensions.cs:34-37 | the result is shorter by the length of the removed matches, and strictly shorter exactly when the value occurs |
| StringExtensions.RemoveOrdinal | Core/StringExtensions.cs:29-32 | fails exactly for an empty value (String.Replace throws); otherwise it is the ordinal Remove |
| StringExtensions.RemoveAll | Core/StringExtensions.cs:44-47 | the fold never lengthens the string |
| StringExtensions.RemoveAllLast | Core/StringExtensions.cs:46 | the fold is a left fold: the last value is removed from what the others left |
| StringExtensions.RemoveAllOrdinal | Core/StringExtensions.cs:39-42 | fails exactly when some value is empty; otherwise it is the ordinal fold in order |
| StringExtensions.NoMatchWithout | Core/StringExtensions.cs:13 | a value cannot occur where one of its code units has no counterpart |
| StringExtensions.ReplacedMatchThenNone | Core/StringExtensions.cs:15-24 | a text that starts with a match and holds no other becomes the new value followed by the rest |
| StringExtensions.ReplacedGap | Core/StringExtensions.cs:13-17 | text in which no match can start is copied |
| StringExtensions.ReplacedMatchThenGap | Core/StringExtensions.cs:15-18 | a match is replaced and the text after it, up to the next possible match, is copied |
| StringExtensions.RemoveAllThree | Core/StringExtensions.cs:44-47 | removing three values is removing them one after another |
| StringExtensions.RemovesAllMatches | Core.Tests/StringExtensionTests.cs:19-27 | removing "VALUE" from "VALUE1 VALUE2 VALUE3" gives "1 2 3" |
| StringExtensions.RemoveWithoutMatch | Core.Tests/StringExtensionTests.cs:29-37 | removing "DUMMY" leaves "VALUE1 VALUE2 VALUE3" as it is |
| StringExtensions.RemoveHonoursComparison | Core.Tests/StringExtensionTests.cs:39-57 | removing "value" with Ordinal leaves the text as it is; with OrdinalIgnoreCase it gives "1 2 3" |
| StringExtensions.RemoveAllOrdinalVector | Core.Tests/StringExtensionTests.cs:59-67 | removing "VALUE1", "VALUE2" and " " in turn gives "VALUE3" |
| StringExtensions.RemoveAllIgnoreCaseVector | Core.Tests/StringExtensionTests.cs:69-77 | removing "Value1", "Value2" and " " ignoring case gives "VALUE3" |
| ProviderEntries.GetOrAddStep | SortExpression/ProviderEntry.cs:36-47 | the entry stays well formed and of the same kind, keeps every mapping it had, and maps the key it served to the type it returned |
| ProviderEntries.GetOrAddNonGeneric | SortExpression/ProviderEntry.cs:46 | a non-generic entry serves its object-keyed type for every element type, ignores the factory and is unchanged |
| ProviderEntries.GetOrAddKnown | SortExpression/ProviderEntry.cs:38-44 | a generic entry that knows the element type returns the stored type without calling the factory |
| ProviderEntries.GetOrAddNew | SortExpression/ProviderEntry.cs:40-44 | a generic entry that does not know the element type adds exactly that key, mapped to what the factory returns, and returns it |
| ProviderEntries.GetOrAddIdempotent | SortExpression/ProviderEntry.cs:36-47 | a second GetOrAdd for the same element type returns the same type and changes nothing |
| ProviderEntries.ProviderEntry.NonGeneric | SortExpression/ProviderEntry.cs:13-18 | the new entry is not generic-specific and maps object to the provider type |
| ProviderEntries.ProviderEntry.Generic | SortExpression/ProviderEntry.cs:20-25 | the new entry is generic-specific and maps the element type to the provider type |
| ProviderEntries.ProviderEntry.AddProviderType | SortExpression/ProviderEntry.cs:27-30 | adds the key exactly when it is new, and otherwise reports the duplicate and leaves the table unchanged |
| ProviderEntries.ProviderEntry.GetOrAdd | SortExpression/ProviderEntry.cs:36-47 | the result and the new entry are those of GetOrAddStep on the old entry |
| Records.Bind | SortExpression/SortExpression.cs:124-128 | Expression.PropertyOrField with IgnoreCase: an empty path binds to the element type; a first segment that names no member (or a scalar is reached) fails with NoSuchMember of it, one that names several fails with AmbiguousMember of it, and on success it binds to the single member it names; every bound name equals its segment ignoring case, and any error names a segment of the path |
| Records.BindAppend | SortExpression/SortExpression.cs:126 | Aggregate is a left fold: binding p + q binds p, then q on the type p reached, and a failure in p is the failure of the whole path |
| Records.BindSegment | SortExpression/SortExpression.cs:126 | one segment binds exactly when it names a single member |
| Records.BindFailsAt | SortExpression/SortExpression.cs:124-128 | when the segments before index k bind and segment k names no member, or several, of the type reached, the whole path fails with NoSuchMember or AmbiguousMember of segment k |
| Records.BindSucceedsAt | SortExpression/SortExpression.cs:124-128 | on success, every prefix binds to the binding's own leading members, and each segment's bound name is the single member it names in the type the segments before it reach |
| Records.BindFailureLocated | SortExpression/SortExpression.cs:124-128 | every failure is located at a segment whose prefix binds and which names no member or several, with the error of that segment |
| Records.MembersNamedIgnoresCase | SortExpression/SortExpression.cs:126 | two segments equal ignoring case select the same members |
| Records.BindIgnoresCase | SortExpression/SortExpression.cs:124-128 | paths that differ only in the case of their segments bind alike: both succeed or both fail, to the same members and member type |
| Records.BindDeclaredPath | SortExpression/SortExpression.cs:124-128 | in records whose member names are distinct ignoring case, a path of declared names binds to exactly those names |
| Records.BindDeclaredName | SortExpression/SortExpression.cs:126 | a declared name binds to itself and to its member's type |
| Records.Access | SortExpression/SortExpression.cs:124-128 | the compiled accessor reads the bound members one after another; AccessHasType pins its result's type |
| Records.AccessHasType | SortExpression/SortExpression.cs:124-128 | on a well-typed value, the accessor over the bound members reaches a value of the bound member type |
| Ordering.StringLeTotal | SortExpression/SortExpression.cs:130-136 | the ordinal order on strings is total |
| Ordering.StringLeTransitive | SortExpression/SortExpression.cs:130-136 | the ordinal order on strings is transitive |
| Ordering.StringLeAntisymmetric | SortExpression/SortExpression.cs:130-136 | strings that sort both ways are equal |
| Ordering.KeyLe | SortExpression/SortExpression.cs:130-136 | the default comparer on keys; KeyLeReflexive, KeyLeTotal, KeyLeTransitive and KeyLeAntisymmetric make it a total order on scalar keys of one kind |
| Ordering.KeyLeReflexive | SortExpression/SortExpression.cs:130-136 | every key sorts before or with itself |
| Ordering.KeyLeTotal | SortExpression/SortExpression.cs:130-136 | any two keys are ordered one way or the other |
| Ordering.KeyLeTransitive | SortExpression/SortExpression.cs:130-136 | the key order is transitive |
| Ordering.KeyLeAntisymmetric | SortExpression/SortExpression.cs:130-136 | scalar keys of one kind that sort both ways are equal |
| Ordering.PrecedesTransitive | SortExpression/SortExpression.cs:132 | both directions order keys transitively |
| Ordering.InsertPermutes | SortExpression/SortExpression.cs:121 | one insertion step adds exactly the inserted element |
| Ordering.InsertSorted | SortExpression/SortExpression.cs:121 | insertion into a sorted sequence keeps it sorted |
| Ordering.InsertStable | SortExpression/SortExpression.cs:121 | insertion keeps the relative order of elements with equal keys |
| Ordering.SortBy | SortExpression/SortExpression.cs:121 | OrderBy / OrderByDescending on the key the path reaches; keeps the length, and SortByCorrect states the rest |
| Ordering.SortByCorrect | SortExpression/SortExpression.cs:130-137 | OrderBy / OrderByDescending is sorted in the chosen direction, a permutation, and stable |
| Directives.RemoveTrailingDirectionModifiers | SortExpression/SortExpression.cs:68-71 | never lengthens the text, and keeps a leading "sortexpr:" as it was |
| Directives.Parse | SortExpression/SortExpression.cs:40-54 | provider mode is VerifyIsSortExpressionDefinition of the text, and parameters are set exactly in provider mode |
| Directives.ResolveSortDirection | SortExpression/SortExpression.cs:56-61 | the direction test; DirectionIsTrailingDesc states when it says descending |
| Directives.VerifyIsSortExpressionDefinition | SortExpression/SortExpression.cs:63-66 | the provider-mode test; ModeIsLeadingPrefix states when it holds |
| Directives.DirectionIsTrailingDesc | SortExpression/SortExpression.cs:56-61 | descending exactly when the last four code units, upper-cased, are "DESC" |
| Directives.ModeIsLeadingPrefix | SortExpression/SortExpression.cs:63-66 | provider mode exactly when the first nine code units, upper-cased, are "SORTEXPR:" |
| Directives.StripKeepsPrefix | SortExpression/SortExpression.cs:45-48 | removing the modifiers keeps the first nine code units of a provider directive |
| Directives.NoModifierUnchanged | SortExpression/SortExpression.cs:68-71 | text in which neither modifier occurs is left as it is |
| Directives.ProviderModeTokens | SortExpression/SortExpression.cs:48-50 | in provider mode, command and parameters are the space-free tokens whose join is the trimmed rest |
| Directives.ParseProviderDirective | SortExpression/SortExpression.cs:45-50 | "sortexpr:", spaces and space-separated tokens parse back to the first token as command and the others as parameters |
| Directives.PathModeCommand | SortExpression/SortExpression.cs:52-53 | in path mode, text without a modifier is its own command and the parameters stay unset |
| Directives.TrailingModifierDropped | SortExpression/SortExpression.cs:42-54 | a trailing " asc" / " desc" in any case only sets the direction: mode, command and parameters are those of the text without it |
| Providers.Declares | SortExpression/SortExpression.cs:97-99 | a catalog type declares a command when it implements the provider interface and its attribute names the command; Matching and DiscoverUnique select by it |
| Providers.Matching | SortExpression/SortExpression.cs:96-100 | the selected types are catalog types that implement the interface and carry the command's name |
| Providers.Discover | SortExpression/SortExpression.cs:96-100 | Single() succeeds with a declaring catalog type, or fails naming the command |
| Providers.MatchingEmpty | SortExpression/SortExpression.cs:96-100 | the query selects nothing exactly when no catalog type declares the command |
| Providers.DiscoverUnique | SortExpression/SortExpression.cs:96-100 | discovery succeeds exactly when one catalog position declares the command, and then yields that type |
| Providers.NewEntry | SortExpression/SortExpression.cs:95-105 | the entry built for a new command is well formed |
| Providers.FoundEntry | SortExpression/SortExpression.cs:94-105 | a cached command gets its cached entry; any entry found is well formed |
| Providers.ResolveStep | SortExpression/SortExpression.cs:94-108 | resolution keeps every cached entry well formed |
| Providers.CachedCommandIgnoresCatalog | SortExpression/SortExpression.cs:94 | a cached command is resolved the same way whatever the catalog holds |
| Providers.MissWithoutUniqueProvider | SortExpression/SortExpression.cs:96-100 | a new command that no single type declares fails and leaves the cache unchanged |
| Providers.ResolveOnlyGrows | SortExpression/SortExpression.cs:94-108 | resolution adds at most the command; other entries are untouched and the command's entry keeps its kind and its mappings |
| Providers.ResolveConverges | SortExpression/SortExpression.cs:94-108 | after a successful resolution, resolving again gives the same type and changes nothing, whatever reflection offers |
| Providers.FirstUseOfGenericProvider | SortExpression/SortExpression.cs:102-103 | the first use of a generic provider stores and returns its definition closed over the element type |
| Providers.FirstUseOfNonGenericProvider | SortExpression/SortExpression.cs:104 | the first use of a non-generic provider stores it under object and returns it |
| Providers.NonGenericServesEveryElementType | SortExpression/SortExpression.cs:108 | a cached non-generic provider is returned for every element type and the cache is unchanged |
| Providers.NewElementTypeForCachedGeneric | SortExpression/SortExpression.cs:108 | a cached generic entry that meets a new element type stores and returns MakeGenericType applied to that element type itself |
| Providers.GenericFactory | SortExpression/SortExpression.cs:108 | the factory handed to a cached entry, MakeGenericType with the element type; NewElementTypeForCachedGeneric states what it stores |
| Providers.ServeEntry | SortExpression/SortExpression.cs:108 | the entry's GetOrAdd inside the cache keeps the cache well formed; ResolveStepParts and ResolveOnlyGrows state the rest |
| Providers.ResolveStepParts | SortExpression/SortExpression.cs:94-108 | resolution is the cache's GetOrAdd followed by the entry's GetOrAdd |
| Providers.ProviderCache.constructor | SortExpression/SortExpression.cs:16-19 | the cache starts empty |
| Providers.ProviderCache.EntryFor | SortExpression/SortExpression.cs:94-105 | returns the command's entry as FoundEntry does; a new entry is fresh and stored; nothing is stored on failure |
| Providers.ProviderCache.Store | SortExpression/SortExpression.cs:94-105 | storing a new entry adds exactly that command and keeps the cache consistent |
| Providers.ProviderCache.Serve | SortExpression/SortExpression.cs:108 | only the command's entry changes, and as GetOrAddStep says |
| Providers.ProviderCache.GetProviderType | SortExpression/SortExpression.cs:92-108 | the result and the new cache contents are those of ResolveStep on the old contents |
| SortExpressions.SortUsingExpressions | SortExpression/SortExpression.cs:113-137 | a success is a permutation of the source; a failure is a segment that binds to no member or to several, or a key without a default order |
| SortExpressions.PathSortCorrect | SortExpression/SortExpression.cs:113-137 | path mode succeeds exactly when the path binds (each segment naming one member ignoring case) and the key is scalar; then the result is sorted by the bound members, a permutation, stable, and has keys of the bound type; otherwise the error is the binding's |
| SortExpressions.PathSortStopsAt | SortExpression/SortExpression.cs:115-128 | an unknown or ambiguous segment, after segments that bind, makes path mode fail with the error naming that segment |
| SortExpressions.PathSortIgnoresCase | SortExpression/SortExpression.cs:113-137 | two commands whose segments differ only in case sort alike |
| SortExpressions.ProviderFor | SortExpression/SortExpression.cs:92-111 | keeps the cache well formed |
| SortExpressions.ProviderOutcome | SortExpression/SortExpression.cs:83-90 | keeps the cache well formed |
| SortExpressions.SortOutcome | SortExpression/SortExpression.cs:73-81 | keeps the cache well formed |
| SortExpressions.PathModeSorts | SortExpression/SortExpression.cs:80 | a path directive with a command leaves the cache alone and gives the path sort by the bound members, or the binding's error |
| SortExpressions.ProviderModeHandsOff | SortExpression/SortExpression.cs:77-78 | a provider directive succeeds exactly when resolution and creation succeed and the parameters are set; it then returns the provider's sort for the command, the parameters and the direction |
| SortExpressions.SortOnlyGrowsCache | SortExpression/SortExpression.cs:73-81 | sorting only adds to the cache |
| SortExpressions.ProviderDirectiveText | SortExpression/SortExpression.cs:83-90 | a written provider directive hands the first token to the provider as Expression and the rest as Parameters |
| SortExpressions.SpaceFreeHasNoModifier | SortExpression/SortExpression.cs:70 | a text without spaces holds neither modifier |
| SortExpressions.ShortMemberDirective | SortExpression/SortExpression.cs:40-54 | a short member name without spaces and dots is a path directive whose command is that name |
| SortExpressions.SingleSegmentPath | SortExpression/SortExpression.cs:115 | a name without dots is a one-segment path |
| SortExpressions.IntegerDirective | Core.Tests/Linq/SortExpressionTests.cs:126 | "Integer" parses as ascending path mode with command "Integer" |
| SortExpressions.StringDirective | Core.Tests/Linq/SortExpressionTests.cs:135 | "String" parses as ascending path mode with command "String" |
| SortExpressions.IntegerDescDirective | Core.Tests/Linq/SortExpressionTests.cs:144 | "Integer DESC" parses as descending path mode with command "Integer" |
| SortExpressions.DummiesByInteger | Core.Tests/Linq/SortExpressionTests.cs:123-148 | by Integer the dummies come out 1, 2, 3, 4 ascending and 4, 3, 2, 1 descending |
| SortExpressions.DummiesByString | Core.Tests/Linq/SortExpressionTests.cs:132-139 | by String the dummies come out A, B, C, D |
| SortExpressions.SortsDummiesByInteger | Core.Tests/Linq/SortExpressionTests.cs:123-130 | Sort with "Integer" orders the dummies 1, 2, 3, 4 and leaves the cache alone |
| SortExpressions.SortsDummiesByString | Core.Tests/Linq/SortExpressionTests.cs:132-139 | Sort with "String" orders the dummies 1, 2, 3, 4 and leaves the cache alone |
| SortExpressions.SortsDummiesByIntegerDescending | Core.Tests/Linq/SortExpressionTests.cs:141-148 | Sort with "Integer DESC" orders the dummies 4, 3, 2, 1 and leaves the cache alone |
| SortExpressions.DummyMembers | Core.Tests/Linq/SortExpressionTests.cs:123-148 | "Integer" and "String" bind to the dummy's members of those names and types |
| SortExpressions.LowerCaseIntegerDirective | SortExpression/SortExpression.cs:40-54 | "integer" parses as ascending path mode with command "integer", a one-segment path |
| SortExpressions.LowerCaseIntegerSegment | SortExpression/SortExpression.cs:126 | "integer" and "Integer" are the same segment ignoring case |
| SortExpressions.SortsDummiesByLowerCaseInteger | SortExpression/SortExpression.cs:124-128 | Sort with "integer" binds to the member Integer and orders the dummies 1, 2, 3, 4, leaving the cache alone |
| SortExpressions.EmptyCommandReturnsSource | SortExpression/SortExpression.cs:75 | a directive with an empty command, in either mode, returns the source as it is and leaves the cache alone |
| SortExpressions.AscendingModifierAlone | SortExpression/SortExpression.cs:40-54 | " asc" alone, in any case, parses to an ascending path directive with an empty command |
| SortExpressions.SortsDummiesByUnknownMember | SortExpression/SortExpression.cs:124-128 | Sort with "Id" on the dummies fails with NoSuchMember("Id") and leaves the cache alone |
| SortExpressions.BareDefinitionParse | SortExpression/SortExpression.cs:40-54 | "sortexpr:" alone is an ascending provider directive with an empty command and no parameters |
| SortExpressions.BareDefinitionReturnsSource | SortExpression/SortExpression.cs:75 | so Sort with "sortexpr:" returns the source and leaves the cache alone |
| SortExpressions.Provider.constructor | SortExpression/SortExpressionProviderImplBase.cs:8-11 | a new provider has no Expression and an empty Parameters collection |
| SortExpressions.Provider.Sorted | SortExpression/SortExpression.cs:89 | the provider's Sort over its Expression and Parameters; SortExpression.SortUsingProvider and ProviderOutcome state what it is given |
| SortExpressions.Provider.AddParameters | SortExpression/SortExpression.cs:87 | the parameters are appended in order, and the Expression is unchanged |
| SortExpressions.SortExpression.constructor | SortExpression/SortExpression.cs:21-25 | the properties are those Parse computes from the text |
| SortExpressions.SortExpression.FromString | SortExpression/SortExpression.cs:27-30 | a new object whose properties are those Parse computes from the text |
| SortExpressions.SortExpression.ParseExpression | SortExpression/SortExpression.cs:40-54 | the properties become Parse's, except that path mode leaves Parameters as they were |
| SortExpressions.SortExpression.SetCommand | SortExpression/SortExpression.cs:36 | only Command changes |
| SortExpressions.SortExpression.SetParameters | SortExpression/SortExpression.cs:38 | only Parameters changes |
| SortExpressions.SortExpression.GetSortExpressionProvider | SortExpression/SortExpression.cs:92-111 | a fresh, empty provider of the type ProviderFor resolves, or its error, with the cache as ProviderFor leaves it |
| SortExpressions.SortExpression.SortUsingProvider | SortExpression/SortExpression.cs:83-90 | the result and the new cache contents are those of ProviderOutcome |
| SortExpressions.SortExpression.Sort | SortExpression/SortExpression.cs:73-81 | the result and the new cache contents are those of SortOutcome |

## Left out

- Concurrency: the ConcurrentDictionary of providers and the plain Dictionary inside each entry are used from one thread only. Races between two first uses of a command are not modelled.
- Reflection: `AllTypes.Everywhere()`, `Implements` and the attribute lookup are a catalog of `TypeDecl` values. Each value has the `CommandName` of the type's first `SortExpressionProvider` attribute, as `Attribute` returns it. `Core/Reflection/ReflectionExtensions.cs` and `Core/Reflection/AllTypes.cs` are not part of this model.
- `Type.MakeGenericType` is a partial function; None stands for the exception it throws.
- `Activator.CreateInstance(providerType) as ISortExpressionProvider<T>` is a predicate on the provider type and the element type. A null from the `as` cast, which then fails in `SortUsingProvider`, is folded into the `ProviderNotCreatable` error.
- A provider's own `Sort` is a parameter, since each provider class defines it; `Core.Tests/Linq/Fakes/SortProviderFake.cs` is not part of this model. The provider-mode unit tests (`SortExpressionTests.cs`, lines 150-180) depend on the fakes and are not restated.
- Expression trees and the `Queryable` method lookup: `GetOrderByMethod` is the choice of direction in `SortBy`, and the compiled lambda is `Records.Access`. `IQueryable<T>` with deferred execution is a sequence of values that is sorted at once.
- `Expression.PropertyOrField` binding: a record has named members only, so properties and fields are not told apart and the property-first rule has no counterpart. Ignoring case is ASCII-only, as for OrdinalIgnoreCase. Two members that differ only in case make the segment ambiguous, where the runtime throws an AmbiguousMatchException.
- A null directive text, for which `FromString` throws when it calls `Trim`, is not modelled: a `string` here is never null.
- Elements are integers, strings or records with named members. Other .NET member kinds and types, such as other scalar types and `String.Length`, are not modelled.
- Key order: integers numerically, strings in ordinal order. The default string comparer is culture-sensitive, and culture is not modelled.
- OrdinalIgnoreCase upper-cases ASCII letters only; full Unicode case mapping is not modelled.
- SortUsingExpressions: a record-typed key without a default order is rejected before sorting. The runtime fails only when the comparer is first called, so with fewer than two elements it would succeed.
- TrailingModifierDropped: stated only when no modifier starts inside the text before the trailing one. Modifiers are removed wherever they occur, so `"sortexpr: Foo d descesc DESC"` gets the parameter `"desc"`.
- The Remove test at `Core.Tests/StringExtensionTests.cs`:9-17, a single match inside a 43-character sentence, is not restated as a lemma: proving it over that literal exceeds the resource limit. The generic lemmas `ReplacedGap` and `ReplacedMatchThenGap` cover its shape.
- StringExtensions.Replace: requires a non-empty old value. For an empty one the C# loop never ends, because the index never advances.
- ProviderEntries.ProviderEntry.AddProviderType: `Dictionary.Add` throws on a key that is already present; the model reports that case as `added == false` and leaves the table unchanged.
- A null `Command`, which can only come from setting it explicitly, is the empty string, since `String.IsNullOrEmpty` treats both alike.
- The implicit conversion from a string (`SortExpression.cs`:139-142) builds the object exactly as `FromString` does, so `SortExpressions.SortExpression.FromString` stands for both.
- The duplicate copies under `Core/Linq/` and `Core/ActionExtensions.cs` are not part of this model.
