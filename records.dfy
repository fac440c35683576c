/**
 * The element values a path-mode directive sorts, and the member binding that
 * GetAccessor (SortExpression.cs:124-128) performs: Expression.PropertyOrField
 * folded over the dot-separated segments of the command, starting at the element,
 * each segment naming a member ignoring case.
 */
module Records {
  import opened Wrappers
  import opened ProviderEntries
  import opened DotNetStrings

  /** The static type of an element or member: a scalar, or a record with named members. */
  datatype FieldType = IntType | StringType | RecordType(name: string, members: map<string, FieldType>)

  /** A runtime value of an element or member. */
  datatype Value = IntValue(i: int) | StringValue(s: string) | RecordValue(fields: map<string, Value>)

  /** The runtime type identity of a static type. */
  function TypeIdOf(t: FieldType): (id: TypeId)
    ensures id != ObjectType
  {
    match t
    case IntType => NamedType("System.Int32")
    case StringType => NamedType("System.String")
    case RecordType(name, _) => NamedType(name)
  }

  /** `v` is a value of type `t`: a record value has exactly the members of its type, each well typed. */
  predicate HasType(v: Value, t: FieldType)
    decreases v
  {
    match v
    case IntValue(_) => t == IntType
    case StringValue(_) => t == StringType
    case RecordValue(fields) =>
      t.RecordType? && fields.Keys == t.members.Keys &&
      forall m :: m in fields ==> HasType(fields[m], t.members[m])
  }

  /** Why Expression.PropertyOrField rejects a segment. */
  datatype BindError =
    | NoSuchMember(segment: string)     // no property or field has that name, ignoring case
    | AmbiguousMember(segment: string)  // several do (GetProperty / GetField throw AmbiguousMatchException)

  /** A bound path: the declared names of the members it goes through, and the type it reaches. */
  datatype Binding = Binding(members: seq<string>, memberType: FieldType)

  /** The declared member names that `segment` names: PropertyOrField looks them up ignoring case. */
  function MembersNamed(members: map<string, FieldType>, segment: string): set<string> {
    set n | n in members && SeqEquals(n, segment, OrdinalIgnoreCase)
  }

  lemma SingletonElement(names: set<string>, a: string, b: string)
    requires |names| == 1 && a in names && b in names
    ensures a == b
  {
    assert |names - {a}| == 0;
    assert b in names - {a} || b == a;
  }

  /** The declared member names of `t` that `segment` names; a scalar has none. */
  function NamedIn(t: FieldType, segment: string): set<string> {
    if t.RecordType? then MembersNamed(t.members, segment) else {}
  }

  /** The one element of a singleton set of names. */
  function OnlyMember(names: set<string>): (n: string)
    requires |names| == 1
    ensures names == {n}
  {
    assert forall a, b :: a in names && b in names ==> a == b by {
      forall a, b | a in names && b in names ensures a == b {
        SingletonElement(names, a, b);
      }
    }
    var n :| n in names;
    n
  }

  /**
   * GetAccessor (SortExpression.cs:124-128): PropertyOrField folded over the segments. Each
   * segment binds to the one member of the type reached so far whose name equals it ignoring
   * case; a segment that names no member, or several, makes PropertyOrField throw.
   */
  function Bind(t: FieldType, path: seq<string>): (r: Result<Binding, BindError>)
    ensures path == [] ==> r == Success(Binding([], t))
    ensures r.Success? ==> |r.value.members| == |path|
    ensures r.Success? ==> forall i :: 0 <= i < |path| ==> SeqEquals(r.value.members[i], path[i], OrdinalIgnoreCase)
    ensures r.Failure? ==> r.error.segment in path
    ensures path != [] && NamedIn(t, path[0]) == {} ==> r == Failure(NoSuchMember(path[0]))
    ensures path != [] && |NamedIn(t, path[0])| > 1 ==> r == Failure(AmbiguousMember(path[0]))
    ensures path != [] && r.Success? ==> NamedIn(t, path[0]) == {r.value.members[0]}
    decreases |path|
  {
    if path == [] then Success(Binding([], t))
    else if !t.RecordType? then Failure(NoSuchMember(path[0]))
    else
      var names := MembersNamed(t.members, path[0]);
      if |names| == 0 then Failure(NoSuchMember(path[0]))
      else if |names| > 1 then Failure(AmbiguousMember(path[0]))
      else
        var name := OnlyMember(names);
        match Bind(t.members[name], path[1..])
        case Failure(e) => Failure(e)
        case Success(b) =>
          assert forall i :: 1 <= i < |path| ==> path[i] == path[1..][i - 1];
          Success(Binding([name] + b.members, b.memberType))
  }

  /** `r` with `prefix` put before the members it binds: the binding of a path that `prefix` began. */
  function Under(prefix: seq<string>, r: Result<Binding, BindError>): Result<Binding, BindError> {
    if r.Success? then Success(Binding(prefix + r.value.members, r.value.memberType)) else r
  }

  /**
   * Aggregate is a left fold: binding `p + q` binds `p`, then binds `q` on the type `p`
   * reached; a failure in `p` is the failure of the whole path.
   */
  lemma {:induction false} BindAppend(t: FieldType, p: seq<string>, q: seq<string>)
    ensures Bind(t, p + q) == if Bind(t, p).Success?
                              then Under(Bind(t, p).value.members, Bind(Bind(t, p).value.memberType, q))
                              else Bind(t, p)
    decreases |p|
  {
    if p == [] {
      assert p + q == q;
      if Bind(t, q).Success? {
        assert [] + Bind(t, q).value.members == Bind(t, q).value.members;
      }
    } else {
      var whole := p + q;
      assert whole[0] == p[0] && whole[1..] == p[1..] + q;
      if t.RecordType? && |MembersNamed(t.members, p[0])| == 1 {
        var name := OnlyMember(MembersNamed(t.members, p[0]));
        var u := t.members[name];
        BindAppend(u, p[1..], q);
        if Bind(u, p[1..]).Success? {
          var b := Bind(u, p[1..]).value;
          var x := Bind(b.memberType, q);
          if x.Success? {
            assert [name] + (b.members + x.value.members) == ([name] + b.members) + x.value.members;
          }
        }
      }
    }
  }

  /** A one-segment path binds exactly when the segment names a single member. */
  lemma BindSegment(t: FieldType, segment: string)
    ensures Bind(t, [segment]).Success? <==> |NamedIn(t, segment)| == 1
  {
    if |NamedIn(t, segment)| == 1 {
      assert [segment][1..] == [];
    }
  }

  /**
   * Binding fails at the segment at index `k` when the segments before it bind and the type they
   * reach has no member, or several, named by it; the error names that segment.
   */
  lemma BindFailsAt(t: FieldType, path: seq<string>, k: nat)
    requires k < |path| && Bind(t, path[..k]).Success?
    ensures NamedIn(Bind(t, path[..k]).value.memberType, path[k]) == {} ==> Bind(t, path) == Failure(NoSuchMember(path[k]))
    ensures |NamedIn(Bind(t, path[..k]).value.memberType, path[k])| > 1 ==> Bind(t, path) == Failure(AmbiguousMember(path[k]))
  {
    assert path == path[..k] + path[k..];
    BindAppend(t, path[..k], path[k..]);
    assert path[k..][0] == path[k];
  }

  /**
   * On success, every segment binds to the single member it names in the type the segments before
   * it reach, and the members bound so far are those of the binding.
   */
  lemma BindSucceedsAt(t: FieldType, path: seq<string>, k: nat)
    requires k < |path| && Bind(t, path).Success?
    ensures Bind(t, path[..k]).Success?
    ensures Bind(t, path[..k]).value.members == Bind(t, path).value.members[..k]
    ensures NamedIn(Bind(t, path[..k]).value.memberType, path[k]) == {Bind(t, path).value.members[k]}
  {
    assert path == path[..k] + path[k..];
    BindAppend(t, path[..k], path[k..]);
    var b := Bind(t, path[..k]).value;
    var rest := Bind(b.memberType, path[k..]).value;
    assert path[k..][0] == path[k];
    assert Bind(t, path).value.members == b.members + rest.members;
    assert Bind(t, path).value.members[k] == rest.members[0];
  }

  /**
   * Every failure is located: some segment is the first that does not name exactly one member of
   * the type the segments before it reach, and the error is about that segment.
   */
  lemma BindFailureLocated(t: FieldType, path: seq<string>)
    requires Bind(t, path).Failure?
    ensures exists k :: 0 <= k < |path| && FailsAt(t, path, k)
  {
    assert path[..|path|] == path;
    var k := LastBoundPrefix(t, path, |path|);
    var u := Bind(t, path[..k]).value.memberType;
    assert path[..k + 1] == path[..k] + [path[k]];
    BindAppend(t, path[..k], [path[k]]);
    BindSegment(u, path[k]);
    BindFailsAt(t, path, k);
    assert FailsAt(t, path, k);
  }

  /** The segment at index `k` is where binding `path` stops, and the error says why. */
  ghost predicate FailsAt(t: FieldType, path: seq<string>, k: nat) {
    k < |path| && Bind(t, path[..k]).Success? &&
    var named := NamedIn(Bind(t, path[..k]).value.memberType, path[k]);
    (named == {} && Bind(t, path) == Failure(NoSuchMember(path[k]))) ||
    (|named| > 1 && Bind(t, path) == Failure(AmbiguousMember(path[k])))
  }

  /** The longest prefix shorter than `j` that binds, when the one of length `j` does not. */
  lemma LastBoundPrefix(t: FieldType, path: seq<string>, j: nat) returns (k: nat)
    requires j <= |path| && Bind(t, path[..j]).Failure?
    ensures k < j && Bind(t, path[..k]).Success? && Bind(t, path[..k + 1]).Failure?
  {
    assert path[..0] == [];
    if Bind(t, path[..j - 1]).Success? {
      k := j - 1;
    } else {
      k := LastBoundPrefix(t, path, j - 1);
    }
  }

  /** Two paths whose segments agree ignoring case. */
  ghost predicate SameIgnoringCase(p: seq<string>, q: seq<string>) {
    |p| == |q| && forall i :: 0 <= i < |p| ==> SeqEquals(p[i], q[i], OrdinalIgnoreCase)
  }

  /** A segment names the same members as any segment equal to it ignoring case. */
  lemma MembersNamedIgnoresCase(members: map<string, FieldType>, a: string, b: string)
    requires SeqEquals(a, b, OrdinalIgnoreCase)
    ensures MembersNamed(members, a) == MembersNamed(members, b)
  {
    IgnoreCaseEqualsUpper(a, b);
    forall n | n in members ensures SeqEquals(n, a, OrdinalIgnoreCase) == SeqEquals(n, b, OrdinalIgnoreCase) {
      IgnoreCaseEqualsUpper(n, a);
      IgnoreCaseEqualsUpper(n, b);
    }
  }

  /** The case of the segments plays no part: paths equal ignoring case bind alike. */
  lemma {:induction false} BindIgnoresCase(t: FieldType, p: seq<string>, q: seq<string>)
    requires SameIgnoringCase(p, q)
    ensures Bind(t, p).Success? == Bind(t, q).Success?
    ensures Bind(t, p).Success? ==> Bind(t, p).value == Bind(t, q).value
    decreases |p|
  {
    if p != [] && t.RecordType? {
      MembersNamedIgnoresCase(t.members, p[0], q[0]);
      var names := MembersNamed(t.members, p[0]);
      if |names| == 1 {
        assert SameIgnoringCase(p[1..], q[1..]) by {
          assert forall i :: 0 <= i < |p| - 1 ==> p[1..][i] == p[i + 1] && q[1..][i] == q[i + 1];
        }
        BindIgnoresCase(t.members[OnlyMember(names)], p[1..], q[1..]);
      }
    }
  }

  /** No two member names of a record type are equal ignoring case. */
  ghost predicate CaseDistinct(members: map<string, FieldType>) {
    forall a, b :: a in members && b in members && SeqEquals(a, b, OrdinalIgnoreCase) ==> a == b
  }

  /**
   * `path` spells declared member names exactly, along types whose member names are distinct
   * ignoring case.
   */
  ghost predicate DeclaredPath(t: FieldType, path: seq<string>)
    decreases |path|
  {
    path == [] ||
    (t.RecordType? && path[0] in t.members && CaseDistinct(t.members) && DeclaredPath(t.members[path[0]], path[1..]))
  }

  /** A declared name names exactly itself. */
  lemma DeclaredNameNamesItself(members: map<string, FieldType>, name: string)
    requires name in members && CaseDistinct(members)
    ensures MembersNamed(members, name) == {name}
  {
    SeqEqualsReflexive(name, OrdinalIgnoreCase);
  }

  /** A path of declared names binds, to exactly those names. */
  lemma {:induction false} BindDeclaredPath(t: FieldType, path: seq<string>)
    requires DeclaredPath(t, path)
    ensures Bind(t, path).Success? && Bind(t, path).value.members == path
    decreases |path|
  {
    if path != [] {
      DeclaredNameNamesItself(t.members, path[0]);
      assert OnlyMember({path[0]}) == path[0];
      BindDeclaredPath(t.members[path[0]], path[1..]);
      assert path == [path[0]] + path[1..];
    }
  }

  /** The value the compiled accessor returns for `v`. */
  function Access(v: Value, path: seq<string>): Value
    decreases |path|
  {
    if path == [] then v
    else if v.RecordValue? && path[0] in v.fields then Access(v.fields[path[0]], path[1..])
    else v
  }

  /** A one-segment path spelling a declared name binds to that member. */
  lemma BindDeclaredName(t: FieldType, name: string)
    requires t.RecordType? && name in t.members && CaseDistinct(t.members)
    ensures Bind(t, [name]) == Success(Binding([name], t.members[name]))
  {
    var path := [name];
    DeclaredNameNamesItself(t.members, name);
    var names := MembersNamed(t.members, path[0]);
    assert names == {name} && |names| == 1;
    assert OnlyMember(names) == name;
    assert path[1..] == [];
    assert Bind(t.members[name], path[1..]) == Success(Binding([], t.members[name]));
    assert [name] + [] == [name];
  }

  /** A path that binds on a type reaches, on every value of that type, a value of the type it binds to. */
  lemma {:induction false} AccessHasType(v: Value, t: FieldType, path: seq<string>)
    requires HasType(v, t)
    requires Bind(t, path).Success?
    ensures HasType(Access(v, Bind(t, path).value.members), Bind(t, path).value.memberType)
    decreases |path|
  {
    if path != [] {
      var name := OnlyMember(MembersNamed(t.members, path[0]));
      var rest := Bind(t.members[name], path[1..]).value;
      assert Bind(t, path).value == Binding([name] + rest.members, rest.memberType);
      assert v.RecordValue? && name in v.fields;
      assert ([name] + rest.members)[1..] == rest.members;
      AccessHasType(v.fields[name], t.members[name], path[1..]);
    }
  }
}
