/**
 * SortExpression/ProviderEntry.cs: the per-command table of provider types.
 * A non-generic entry holds one provider type under the `object` key and serves it
 * for every element type; a generic-specific entry maps each element type to the
 * closed provider type built for it, adding entries on first use and never
 * removing one.
 */
module ProviderEntries {
  import opened Wrappers

  /** A runtime type (System.Type); `ObjectType` is typeof(object). */
  datatype TypeId = ObjectType | NamedType(name: string)

  /** The value of a ProviderEntry: its IsGenericSpecific flag and its ProviderTypes dictionary. */
  datatype EntryState = EntryState(isGenericSpecific: bool, providerTypes: map<TypeId, TypeId>)

  /** A non-generic entry always has its `object` key (it is added first and nothing removes it). */
  predicate WellFormed(e: EntryState) {
    !e.isGenericSpecific ==> ObjectType in e.providerTypes
  }

  /** `after` keeps every key of `before` with the same value. */
  ghost predicate Extends(before: map<TypeId, TypeId>, after: map<TypeId, TypeId>) {
    forall t :: t in before ==> t in after && after[t] == before[t]
  }

  /**
   * GetOrAdd<T>(factory) on the value of an entry: the provider type for element type `t`
   * (None when the factory fails) and the entry afterwards.
   */
  function GetOrAddStep(e: EntryState, t: TypeId, factory: TypeId -> Option<TypeId>): (r: (Option<TypeId>, EntryState))
    requires WellFormed(e)
    ensures WellFormed(r.1) && r.1.isGenericSpecific == e.isGenericSpecific
    ensures Extends(e.providerTypes, r.1.providerTypes)
    ensures r.0.Some? ==> var key := if e.isGenericSpecific then t else ObjectType;
                          key in r.1.providerTypes && r.1.providerTypes[key] == r.0.value
  {
    if !e.isGenericSpecific then (Some(e.providerTypes[ObjectType]), e)
    else if t in e.providerTypes then (Some(e.providerTypes[t]), e)
    else match factory(t)
      case None => (None, e)
      case Some(p) => (Some(p), EntryState(true, e.providerTypes[t := p]))
  }

  /** A non-generic entry serves its `object`-keyed type for every element type, ignores the factory and stays as it is. */
  lemma GetOrAddNonGeneric(e: EntryState, t: TypeId, factory: TypeId -> Option<TypeId>)
    requires WellFormed(e) && !e.isGenericSpecific
    ensures GetOrAddStep(e, t, factory) == (Some(e.providerTypes[ObjectType]), e)
  {
  }

  /** A generic entry that already knows `t` returns the stored type, does not call the factory and stays as it is. */
  lemma GetOrAddKnown(e: EntryState, t: TypeId, factory: TypeId -> Option<TypeId>)
    requires WellFormed(e) && e.isGenericSpecific && t in e.providerTypes
    ensures GetOrAddStep(e, t, factory) == (Some(e.providerTypes[t]), e)
  {
  }

  /**
   * A generic entry that does not know `t` adds exactly t -> factory(t) and returns it;
   * when the factory fails nothing is added.
   */
  lemma GetOrAddNew(e: EntryState, t: TypeId, factory: TypeId -> Option<TypeId>)
    requires WellFormed(e) && e.isGenericSpecific && t !in e.providerTypes
    ensures factory(t).None? ==> GetOrAddStep(e, t, factory) == (None, e)
    ensures factory(t).Some? ==>
              GetOrAddStep(e, t, factory) == (factory(t), EntryState(true, e.providerTypes[t := factory(t).value]))
    ensures factory(t).Some? ==> GetOrAddStep(e, t, factory).1.providerTypes.Keys == e.providerTypes.Keys + {t}
  {
  }

  /** Asking twice for the same element type gives the same type, and the second call changes nothing. */
  lemma GetOrAddIdempotent(e: EntryState, t: TypeId, factory: TypeId -> Option<TypeId>, factory2: TypeId -> Option<TypeId>)
    requires WellFormed(e)
    requires GetOrAddStep(e, t, factory).0.Some?
    ensures var (first, e1) := GetOrAddStep(e, t, factory);
            GetOrAddStep(e1, t, factory2) == (first, e1)
  {
  }

  class ProviderEntry {
    var isGenericSpecific: bool
    var providerTypes: map<TypeId, TypeId>

    function State(): EntryState
      reads this
    {
      EntryState(isGenericSpecific, providerTypes)
    }

    ghost predicate Valid()
      reads this
    {
      WellFormed(State())
    }

    /** ProviderEntry(providerType) (ProviderEntry.cs:13-18): one entry, object -> providerType. */
    constructor NonGeneric(providerType: TypeId)
      ensures Valid()
      ensures State() == EntryState(false, map[ObjectType := providerType])
    {
      isGenericSpecific := false;
      providerTypes := map[ObjectType := providerType];
    }

    /** ProviderEntry(genericType, providerType) (ProviderEntry.cs:20-25): one entry, genericType -> providerType. */
    constructor Generic(genericType: TypeId, providerType: TypeId)
      ensures Valid()
      ensures State() == EntryState(true, map[genericType := providerType])
    {
      providerTypes := map[];
      isGenericSpecific := true;
      new;
      var added := AddProviderType(genericType, providerType);
    }

    /**
     * AddProviderType (ProviderEntry.cs:27-30): Dictionary.Add, which throws on a key that
     * is already present; `added` is false exactly then, and the table is left unchanged.
     */
    method AddProviderType(genericType: TypeId, providerType: TypeId) returns (added: bool)
      requires Valid()
      modifies this
      ensures Valid()
      ensures added == (genericType !in old(providerTypes))
      ensures isGenericSpecific == old(isGenericSpecific)
      ensures providerTypes == if added then old(providerTypes)[genericType := providerType] else old(providerTypes)
    {
      added := genericType !in providerTypes;
      if added {
        providerTypes := providerTypes[genericType := providerType];
      }
    }

    /**
     * GetOrAdd<T>(factory) (ProviderEntry.cs:36-47) for element type `t`; None when the
     * factory fails, in which case the table is unchanged.
     */
    method GetOrAdd(t: TypeId, factory: TypeId -> Option<TypeId>) returns (r: Option<TypeId>)
      requires Valid()
      modifies this
      ensures Valid()
      ensures (r, State()) == GetOrAddStep(old(State()), t, factory)
    {
      if isGenericSpecific {
        if t !in providerTypes {
          var created := factory(t);
          if created.None? {
            return None;
          }
          providerTypes := providerTypes[t := created.value];
        }
        return Some(providerTypes[t]);
      }
      return Some(providerTypes[ObjectType]);
    }
  }
}
