/**
 * Provider resolution (SortExpression.cs:92-108): the process-wide cache from command to
 * ProviderEntry, filled on first use of a command by discovering the single type that
 * implements ISortExpressionProvider<> and carries the command's name, and the entry's
 * GetOrAdd for the element type.
 */
module Providers {
  import opened Wrappers
  import opened ProviderEntries

  /**
   * A type as discovery sees it: its identity, whether it implements ISortExpressionProvider<>,
   * the CommandName of its first SortExpressionProvider attribute (None without one), and
   * whether it is an open generic type definition.
   */
  datatype TypeDecl = TypeDecl(
    id: TypeId,
    implementsProvider: bool,
    commandName: Option<string>,
    isGenericTypeDefinition: bool)

  /**
   * What reflection offers: every type of every loaded assembly (AllTypes.Everywhere()), and
   * Type.MakeGenericType(definition, argument), None where it throws.
   */
  datatype Reflection = Reflection(
    catalog: seq<TypeDecl>,
    makeGenericType: (TypeId, TypeId) -> Option<TypeId>)

  datatype ResolveError =
    | NoUniqueProvider(command: string)   // Single() found no type or more than one
    | GenericInstantiationFailed           // MakeGenericType threw

  /** The where-clause of the discovery query (SortExpression.cs:96-100). */
  predicate Declares(d: TypeDecl, command: string) {
    d.implementsProvider && d.commandName == Some(command)
  }

  /** The catalog types the discovery query selects, in catalog order. */
  function Matching(catalog: seq<TypeDecl>, command: string): (r: seq<TypeDecl>)
    ensures |r| <= |catalog|
    ensures forall d :: d in r ==> d in catalog && Declares(d, command)
  {
    if catalog == [] then []
    else (if Declares(catalog[0], command) then [catalog[0]] else []) + Matching(catalog[1..], command)
  }

  /** The query's Single(): the one selected type, or an error when there are none or several. */
  function Discover(catalog: seq<TypeDecl>, command: string): (r: Result<TypeDecl, ResolveError>)
    ensures r.Success? ==> r.value in catalog && Declares(r.value, command)
    ensures r.Failure? ==> r.error == NoUniqueProvider(command)
  {
    var found := Matching(catalog, command);
    if |found| == 1 then Success(found[0]) else Failure(NoUniqueProvider(command))
  }

  /** Index `i` is the only catalog position whose type declares `command`. */
  ghost predicate UniqueAt(catalog: seq<TypeDecl>, command: string, i: int) {
    0 <= i < |catalog| && Declares(catalog[i], command) &&
    forall j :: 0 <= j < |catalog| && j != i ==> !Declares(catalog[j], command)
  }

  lemma {:induction false} MatchingEmpty(catalog: seq<TypeDecl>, command: string)
    ensures Matching(catalog, command) == [] <==> forall j :: 0 <= j < |catalog| ==> !Declares(catalog[j], command)
    decreases |catalog|
  {
    if catalog != [] {
      MatchingEmpty(catalog[1..], command);
      assert forall j :: 1 <= j < |catalog| ==> catalog[j] == catalog[1..][j - 1];
    }
  }

  lemma {:induction false} MatchingSingle(catalog: seq<TypeDecl>, command: string)
    ensures |Matching(catalog, command)| == 1 <==> exists i :: UniqueAt(catalog, command, i)
    ensures forall i :: UniqueAt(catalog, command, i) ==> Matching(catalog, command) == [catalog[i]]
    decreases |catalog|
  {
    if catalog != [] {
      var tail := catalog[1..];
      MatchingSingle(tail, command);
      MatchingEmpty(tail, command);
      assert forall j :: 1 <= j < |catalog| ==> catalog[j] == tail[j - 1];
      if Declares(catalog[0], command) {
        forall i | UniqueAt(catalog, command, i) ensures i == 0 {
        }
        if Matching(tail, command) == [] {
          assert UniqueAt(catalog, command, 0);
        }
      } else {
        forall i | UniqueAt(catalog, command, i) ensures UniqueAt(tail, command, i - 1) {
        }
        forall i | UniqueAt(tail, command, i) ensures UniqueAt(catalog, command, i + 1) {
        }
      }
    }
  }

  /** Discovery succeeds exactly when one catalog position declares the command, and then yields that type. */
  lemma DiscoverUnique(catalog: seq<TypeDecl>, command: string)
    ensures Discover(catalog, command).Success? <==> exists i :: UniqueAt(catalog, command, i)
    ensures forall i :: UniqueAt(catalog, command, i) ==> Discover(catalog, command) == Success(catalog[i])
  {
    MatchingSingle(catalog, command);
  }

  /** The factory handed to GetOrAdd (SortExpression.cs:108): closes its argument over the element type. */
  function GenericFactory(makeGenericType: (TypeId, TypeId) -> Option<TypeId>, elementType: TypeId): TypeId -> Option<TypeId> {
    t => makeGenericType(t, elementType)
  }

  /** The value factory of the cache's GetOrAdd (SortExpression.cs:95-105): the entry for a new command. */
  function NewEntry(reflection: Reflection, command: string, elementType: TypeId): (r: Result<EntryState, ResolveError>)
    ensures r.Success? ==> WellFormed(r.value)
  {
    match Discover(reflection.catalog, command)
    case Failure(e) => Failure(e)
    case Success(d) =>
      if d.isGenericTypeDefinition then
        match reflection.makeGenericType(d.id, elementType)
        case None => Failure(GenericInstantiationFailed)
        case Some(closed) => Success(EntryState(true, map[elementType := closed]))
      else Success(EntryState(false, map[ObjectType := d.id]))
  }

  ghost predicate CacheWellFormed(cache: map<string, EntryState>) {
    forall c :: c in cache ==> WellFormed(cache[c])
  }

  /**
   * One resolution on the value of the cache: the provider type for `command` and element
   * type `elementType`, and the cache afterwards.
   */
  function ResolveStep(cache: map<string, EntryState>, command: string, elementType: TypeId, reflection: Reflection)
    : (r: (Result<TypeId, ResolveError>, map<string, EntryState>))
    requires CacheWellFormed(cache)
    ensures CacheWellFormed(r.1)
  {
    match FoundEntry(cache, command, elementType, reflection)
    case Failure(e) => (Failure(e), cache)
    case Success(entry) => ServeEntry(cache, command, entry, elementType, reflection)
  }

  /** The command's entry: the cached one, or a new one from discovery. */
  function FoundEntry(cache: map<string, EntryState>, command: string, elementType: TypeId, reflection: Reflection)
    : (r: Result<EntryState, ResolveError>)
    requires CacheWellFormed(cache)
    ensures r.Success? ==> WellFormed(r.value)
    ensures command in cache ==> r == Success(cache[command])
  {
    if command in cache then Success(cache[command]) else NewEntry(reflection, command, elementType)
  }

  /** The entry's GetOrAdd for the element type, and the cache with the entry as it is afterwards. */
  function ServeEntry(cache: map<string, EntryState>, command: string, entry: EntryState, elementType: TypeId, reflection: Reflection)
    : (r: (Result<TypeId, ResolveError>, map<string, EntryState>))
    requires CacheWellFormed(cache) && WellFormed(entry)
    ensures CacheWellFormed(r.1)
  {
    var (providerType, entry') := GetOrAddStep(entry, elementType, GenericFactory(reflection.makeGenericType, elementType));
    var cache' := cache[command := entry'];
    match providerType
    case None => (Failure(GenericInstantiationFailed), cache')
    case Some(p) => (Success(p), cache')
  }

  /** A cached command is served without discovery: the catalog plays no part. */
  lemma CachedCommandIgnoresCatalog(cache: map<string, EntryState>, command: string, elementType: TypeId,
                                    reflection: Reflection, other: seq<TypeDecl>)
    requires CacheWellFormed(cache) && command in cache
    ensures ResolveStep(cache, command, elementType, reflection)
            == ResolveStep(cache, command, elementType, reflection.(catalog := other))
  {
  }

  /** A new command that no single type declares fails and leaves the cache as it was. */
  lemma MissWithoutUniqueProvider(cache: map<string, EntryState>, command: string, elementType: TypeId, reflection: Reflection)
    requires CacheWellFormed(cache) && command !in cache
    requires !exists i :: UniqueAt(reflection.catalog, command, i)
    ensures ResolveStep(cache, command, elementType, reflection) == (Failure(NoUniqueProvider(command)), cache)
  {
    DiscoverUnique(reflection.catalog, command);
  }

  /**
   * Resolution only ever adds: other commands keep their entries, and the command's entry
   * keeps its kind and every element type it already had.
   */
  lemma ResolveOnlyGrows(cache: map<string, EntryState>, command: string, elementType: TypeId, reflection: Reflection)
    requires CacheWellFormed(cache)
    ensures var after := ResolveStep(cache, command, elementType, reflection).1;
            && after.Keys <= cache.Keys + {command}
            && (forall c :: c in cache && c != command ==> c in after && after[c] == cache[c])
            && (command in cache ==>
                  && command in after
                  && after[command].isGenericSpecific == cache[command].isGenericSpecific
                  && Extends(cache[command].providerTypes, after[command].providerTypes))
  {
  }

  /** After a successful resolution, resolving again gives the same type and changes nothing, whatever reflection offers. */
  lemma ResolveConverges(cache: map<string, EntryState>, command: string, elementType: TypeId,
                         reflection: Reflection, later: Reflection)
    requires CacheWellFormed(cache)
    requires ResolveStep(cache, command, elementType, reflection).0.Success?
    ensures var (first, after) := ResolveStep(cache, command, elementType, reflection);
            ResolveStep(after, command, elementType, later) == (first, after)
  {
    var (first, after) := ResolveStep(cache, command, elementType, reflection);
    assert command in after;
    if after[command].isGenericSpecific {
      assert elementType in after[command].providerTypes;
    }
    assert after[command := after[command]] == after;
  }

  /** First use of a generic provider stores and returns the definition closed over the element type. */
  lemma FirstUseOfGenericProvider(cache: map<string, EntryState>, command: string, elementType: TypeId,
                                  reflection: Reflection, i: int, closed: TypeId)
    requires CacheWellFormed(cache) && command !in cache
    requires UniqueAt(reflection.catalog, command, i) && reflection.catalog[i].isGenericTypeDefinition
    requires reflection.makeGenericType(reflection.catalog[i].id, elementType) == Some(closed)
    ensures ResolveStep(cache, command, elementType, reflection)
            == (Success(closed), cache[command := EntryState(true, map[elementType := closed])])
  {
    DiscoverUnique(reflection.catalog, command);
  }

  /** First use of a non-generic provider stores it under `object` and returns it. */
  lemma FirstUseOfNonGenericProvider(cache: map<string, EntryState>, command: string, elementType: TypeId,
                                     reflection: Reflection, i: int)
    requires CacheWellFormed(cache) && command !in cache
    requires UniqueAt(reflection.catalog, command, i) && !reflection.catalog[i].isGenericTypeDefinition
    ensures ResolveStep(cache, command, elementType, reflection)
            == (Success(reflection.catalog[i].id),
                cache[command := EntryState(false, map[ObjectType := reflection.catalog[i].id])])
  {
    DiscoverUnique(reflection.catalog, command);
  }

  /** A non-generic provider is served unchanged for every element type. */
  lemma NonGenericServesEveryElementType(cache: map<string, EntryState>, command: string, elementType: TypeId, reflection: Reflection)
    requires CacheWellFormed(cache) && command in cache && !cache[command].isGenericSpecific
    ensures ResolveStep(cache, command, elementType, reflection)
            == (Success(cache[command].providerTypes[ObjectType]), cache)
  {
    assert cache[command := cache[command]] == cache;
  }

  /**
   * A cached generic command asked for a new element type U calls MakeGenericType with U
   * itself as the definition (the factory closes its argument, which GetOrAdd passes as U),
   * and stores what that returns.
   */
  lemma NewElementTypeForCachedGeneric(cache: map<string, EntryState>, command: string, elementType: TypeId, reflection: Reflection)
    requires CacheWellFormed(cache) && command in cache && cache[command].isGenericSpecific
    requires elementType !in cache[command].providerTypes
    ensures var r := ResolveStep(cache, command, elementType, reflection);
            match reflection.makeGenericType(elementType, elementType)
            case None => r == (Failure(GenericInstantiationFailed), cache)
            case Some(p) =>
              r == (Success(p), cache[command := EntryState(true, cache[command].providerTypes[elementType := p])])
  {
    assert cache[command := cache[command]] == cache;
  }

  /** ResolveStep is FoundEntry followed by the entry's GetOrAdd. */
  lemma ResolveStepParts(cache: map<string, EntryState>, command: string, elementType: TypeId, reflection: Reflection,
                         entry: EntryState, served: (Option<TypeId>, EntryState))
    requires CacheWellFormed(cache) && FoundEntry(cache, command, elementType, reflection) == Success(entry)
    requires served == GetOrAddStep(entry, elementType, GenericFactory(reflection.makeGenericType, elementType))
    ensures ResolveStep(cache, command, elementType, reflection)
            == (if served.0.Some? then Success(served.0.value) else Failure(GenericInstantiationFailed), cache[command := served.1])
  {
  }

  lemma UpdateTwice(cache: map<string, EntryState>, command: string, first: EntryState, second: EntryState)
    ensures cache[command := first][command := second] == cache[command := second]
  {
  }

  class ProviderCache {
    var cachedProviders: map<string, ProviderEntry>
    /** The value of the cache: each command's entry state. */
    ghost var snapshot: map<string, EntryState>
    /** The command each entry object is stored under; it makes the entry objects distinct. */
    ghost var owner: map<ProviderEntry, string>

    /**
     * `snapshot` holds the state of each command's entry, every entry is valid, and no
     * entry object is shared between two commands.
     */
    ghost predicate Valid()
      reads this, cachedProviders.Values
    {
      && cachedProviders.Keys == snapshot.Keys
      && (forall c :: c in cachedProviders ==> cachedProviders[c].State() == snapshot[c] && cachedProviders[c].Valid())
      && (forall c :: c in cachedProviders ==> cachedProviders[c] in owner && owner[cachedProviders[c]] == c)
    }

    /** The static constructor (SortExpression.cs:16-19): an empty cache. */
    constructor ()
      ensures Valid() && snapshot == map[]
    {
      cachedProviders := map[];
      snapshot := map[];
      owner := map[];
    }

    /**
     * CachedProviders.GetOrAdd(Command, factory) (SortExpression.cs:94-105): the command's
     * entry, built by discovery and stored on first use. When discovery or the generic
     * instantiation fails nothing is stored.
     */
    method EntryFor(command: string, elementType: TypeId, reflection: Reflection) returns (r: Result<ProviderEntry, ResolveError>)
      requires Valid()
      modifies this
      ensures Valid()
      ensures CacheWellFormed(old(snapshot))
      ensures r.Failure? ==>
                && FoundEntry(old(snapshot), command, elementType, reflection) == Failure(r.error)
                && cachedProviders == old(cachedProviders) && snapshot == old(snapshot)
      ensures r.Success? ==>
                && FoundEntry(old(snapshot), command, elementType, reflection) == Success(r.value.State())
                && command in cachedProviders && cachedProviders[command] == r.value
                && snapshot == old(snapshot)[command := r.value.State()]
                && (command in old(cachedProviders) ==> cachedProviders == old(cachedProviders))
                && (command !in old(cachedProviders) ==> fresh(r.value) && cachedProviders == old(cachedProviders)[command := r.value])
    {
      assert CacheWellFormed(snapshot) by {
        forall c | c in snapshot ensures WellFormed(snapshot[c]) {
          assert cachedProviders[c].Valid();
        }
      }
      if command in cachedProviders {
        assert snapshot[command := cachedProviders[command].State()] == snapshot;
        return Success(cachedProviders[command]);
      }
      var found := Discover(reflection.catalog, command);
      if found.Failure? {
        return Failure(found.error);
      }
      var d := found.value;
      var entry: ProviderEntry;
      if d.isGenericTypeDefinition {
        var closed := reflection.makeGenericType(d.id, elementType);
        if closed.None? {
          return Failure(GenericInstantiationFailed);
        }
        entry := new ProviderEntry.Generic(elementType, closed.value);
      } else {
        entry := new ProviderEntry.NonGeneric(d.id);
      }
      Store(command, entry);
      r := Success(entry);
    }

    /** Stores a new entry object under a command the cache does not know. */
    method Store(command: string, entry: ProviderEntry)
      requires Valid() && entry.Valid() && command !in cachedProviders && entry !in owner
      modifies this
      ensures Valid()
      ensures cachedProviders == old(cachedProviders)[command := entry]
      ensures snapshot == old(snapshot)[command := entry.State()]
    {
      cachedProviders := cachedProviders[command := entry];
      snapshot := snapshot[command := entry.State()];
      owner := owner[entry := command];
      forall c | c in cachedProviders
        ensures cachedProviders[c].State() == snapshot[c] && cachedProviders[c].Valid()
        ensures cachedProviders[c] in owner && owner[cachedProviders[c]] == c
      {
        if c != command {
          assert cachedProviders[c] == old(cachedProviders)[c] && snapshot[c] == old(snapshot)[c];
        }
      }
    }

    /**
     * The stored entry's GetOrAdd<T>(factory) (ProviderEntry.cs:36-47) for `command`: only
     * that entry object changes.
     */
    method Serve(command: string, elementType: TypeId, factory: TypeId -> Option<TypeId>) returns (p: Option<TypeId>)
      requires Valid() && command in cachedProviders
      modifies this, cachedProviders[command]
      ensures Valid()
      ensures cachedProviders == old(cachedProviders)
      ensures command in old(snapshot) && WellFormed(old(snapshot)[command])
      ensures (p, snapshot) == (GetOrAddStep(old(snapshot)[command], elementType, factory).0,
                                old(snapshot)[command := GetOrAddStep(old(snapshot)[command], elementType, factory).1])
    {
      var entry := cachedProviders[command];
      assert entry.Valid();
      p := entry.GetOrAdd(elementType, factory);
      snapshot := snapshot[command := entry.State()];
      forall c | c in cachedProviders && c != command
        ensures cachedProviders[c].State() == snapshot[c]
      {
        assert owner[cachedProviders[c]] == c;
      }
    }

    /**
     * GetSortExpressionProvider<T> (SortExpression.cs:92-108) up to the provider type: the
     * cache's GetOrAdd for the command, then the entry's GetOrAdd for element type `elementType`.
     */
    method GetProviderType(command: string, elementType: TypeId, reflection: Reflection) returns (r: Result<TypeId, ResolveError>)
      requires Valid()
      modifies this, cachedProviders.Values
      ensures Valid()
      ensures CacheWellFormed(old(snapshot))
      ensures (r, snapshot) == ResolveStep(old(snapshot), command, elementType, reflection)
    {
      var found := EntryFor(command, elementType, reflection);
      if found.Failure? {
        return Failure(found.error);
      }
      ghost var found' := found.value.State();
      assert FoundEntry(old(snapshot), command, elementType, reflection) == Success(found');
      var factory := GenericFactory(reflection.makeGenericType, elementType);
      ghost var atServed := snapshot;
      assert atServed[command] == found';
      var providerType := Serve(command, elementType, factory);
      ghost var step := GetOrAddStep(found', elementType, factory);
      assert providerType == step.0;
      assert snapshot == atServed[command := step.1];
      assert atServed == old(snapshot)[command := found'];
      UpdateTwice(old(snapshot), command, found', step.1);
      ResolveStepParts(old(snapshot), command, elementType, reflection, found', step);
      if providerType.None? {
        return Failure(GenericInstantiationFailed);
      }
      r := Success(providerType.value);
    }
  }
}
