/**
 * The order a path-mode directive produces: Queryable.OrderBy / OrderByDescending
 * with the accessor as key selector (SortExpression.cs:113-137), a stable sort under
 * the default comparer of the key type, ascending or descending.
 */
module Ordering {
  import opened Records

  /** SortDirections (SortExpression.cs:146-150). */
  datatype SortDirection = Ascending | Descending

  /** Ordinal lexicographic order on strings: code unit by code unit, a proper prefix first. */
  predicate StringLe(a: string, b: string)
    decreases |a|
  {
    a == [] || (b != [] && (a[0] < b[0] || (a[0] == b[0] && StringLe(a[1..], b[1..]))))
  }

  lemma {:induction false} StringLeReflexive(a: string)
    ensures StringLe(a, a)
    decreases |a|
  {
    if a != [] {
      StringLeReflexive(a[1..]);
    }
  }

  lemma {:induction false} StringLeTotal(a: string, b: string)
    ensures StringLe(a, b) || StringLe(b, a)
    decreases |a|
  {
    if a != [] && b != [] && a[0] == b[0] {
      StringLeTotal(a[1..], b[1..]);
    }
  }

  lemma {:induction false} StringLeTransitive(a: string, b: string, c: string)
    requires StringLe(a, b) && StringLe(b, c)
    ensures StringLe(a, c)
    decreases |a|
  {
    if a != [] && a[0] == b[0] && b[0] == c[0] {
      StringLeTransitive(a[1..], b[1..], c[1..]);
    }
  }

  lemma {:induction false} StringLeAntisymmetric(a: string, b: string)
    requires StringLe(a, b) && StringLe(b, a)
    ensures a == b
    decreases |a|
  {
    if a != [] {
      StringLeAntisymmetric(a[1..], b[1..]);
      assert a == [a[0]] + a[1..] && b == [b[0]] + b[1..];
    }
  }

  /** Kinds of values, ordered; values of different kinds never meet under a well-typed path. */
  function Rank(v: Value): nat {
    match v
    case IntValue(_) => 0
    case StringValue(_) => 1
    case RecordValue(_) => 2
  }

  /** The default comparer on keys: integers numerically, strings ordinally. Record keys all tie. */
  predicate KeyLe(a: Value, b: Value) {
    if a.IntValue? && b.IntValue? then a.i <= b.i
    else if a.StringValue? && b.StringValue? then StringLe(a.s, b.s)
    else Rank(a) <= Rank(b)
  }

  lemma KeyLeReflexive(a: Value)
    ensures KeyLe(a, a)
  {
    if a.StringValue? {
      StringLeReflexive(a.s);
    }
  }

  lemma KeyLeTotal(a: Value, b: Value)
    ensures KeyLe(a, b) || KeyLe(b, a)
  {
    if a.StringValue? && b.StringValue? {
      StringLeTotal(a.s, b.s);
    }
  }

  lemma KeyLeTransitive(a: Value, b: Value, c: Value)
    requires KeyLe(a, b) && KeyLe(b, c)
    ensures KeyLe(a, c)
  {
    if a.StringValue? && b.StringValue? && c.StringValue? {
      StringLeTransitive(a.s, b.s, c.s);
    }
  }

  /** On scalar keys of one kind the order is antisymmetric: ties are equal keys. */
  lemma KeyLeAntisymmetric(a: Value, b: Value)
    requires !a.RecordValue? && Rank(a) == Rank(b)
    requires KeyLe(a, b) && KeyLe(b, a)
    ensures a == b
  {
    if a.StringValue? {
      StringLeAntisymmetric(a.s, b.s);
    }
  }

  /** Key `a` may come before key `b` in a sort in direction `direction`. */
  predicate Precedes(direction: SortDirection, a: Value, b: Value) {
    match direction
    case Ascending => KeyLe(a, b)
    case Descending => KeyLe(b, a)
  }

  lemma PrecedesReflexive(direction: SortDirection, a: Value)
    ensures Precedes(direction, a, a)
  {
    KeyLeReflexive(a);
  }

  lemma PrecedesTotal(direction: SortDirection, a: Value, b: Value)
    ensures Precedes(direction, a, b) || Precedes(direction, b, a)
  {
    KeyLeTotal(a, b);
  }

  lemma PrecedesTransitive(direction: SortDirection, a: Value, b: Value, c: Value)
    requires Precedes(direction, a, b) && Precedes(direction, b, c)
    ensures Precedes(direction, a, c)
  {
    if direction == Ascending {
      KeyLeTransitive(a, b, c);
    } else {
      KeyLeTransitive(c, b, a);
    }
  }

  /** Every element's key may precede the key of every later element. */
  ghost predicate SortedBy(xs: seq<Value>, path: seq<string>, direction: SortDirection) {
    forall i, j :: 0 <= i < j < |xs| ==> Precedes(direction, Access(xs[i], path), Access(xs[j], path))
  }

  /** The elements of `xs` whose key is `k`, in their order in `xs`. */
  function WithKey(xs: seq<Value>, path: seq<string>, k: Value): (r: seq<Value>)
    ensures |r| <= |xs|
  {
    if xs == [] then []
    else (if Access(xs[0], path) == k then [xs[0]] else []) + WithKey(xs[1..], path, k)
  }

  /** Elements with equal keys keep their relative order. */
  ghost predicate StableFor(result: seq<Value>, source: seq<Value>, path: seq<string>) {
    forall k :: WithKey(result, path, k) == WithKey(source, path, k)
  }

  /** `x` goes before the first element of the sorted `ys` whose key it may precede. */
  function Insert(x: Value, ys: seq<Value>, path: seq<string>, direction: SortDirection): (r: seq<Value>)
    ensures |r| == |ys| + 1
    decreases |ys|
  {
    if ys == [] then [x]
    else if Precedes(direction, Access(x, path), Access(ys[0], path)) then [x] + ys
    else [ys[0]] + Insert(x, ys[1..], path, direction)
  }

  /** Insertion adds exactly `x`. */
  lemma {:induction false} InsertPermutes(x: Value, ys: seq<Value>, path: seq<string>, direction: SortDirection)
    ensures multiset(Insert(x, ys, path, direction)) == multiset(ys) + multiset{x}
    decreases |ys|
  {
    if ys != [] && !Precedes(direction, Access(x, path), Access(ys[0], path)) {
      InsertPermutes(x, ys[1..], path, direction);
      assert ys == [ys[0]] + ys[1..];
    }
  }

  /** The stable sort: each element, from the last to the first, inserted into the sorted rest. */
  function SortBy(xs: seq<Value>, path: seq<string>, direction: SortDirection): (r: seq<Value>)
    ensures |r| == |xs|
    decreases |xs|
  {
    if xs == [] then []
    else Insert(xs[0], SortBy(xs[1..], path, direction), path, direction)
  }

  lemma {:induction false} InsertSorted(x: Value, ys: seq<Value>, path: seq<string>, direction: SortDirection)
    requires SortedBy(ys, path, direction)
    ensures SortedBy(Insert(x, ys, path, direction), path, direction)
    decreases |ys|
  {
    var kx := Access(x, path);
    if ys == [] {
    } else if Precedes(direction, kx, Access(ys[0], path)) {
      var r := [x] + ys;
      forall i, j | 0 <= i < j < |r| ensures Precedes(direction, Access(r[i], path), Access(r[j], path)) {
        if i == 0 {
          if j > 1 {
            PrecedesTransitive(direction, kx, Access(ys[0], path), Access(ys[j - 1], path));
          }
        }
      }
    } else {
      var rest := Insert(x, ys[1..], path, direction);
      InsertSorted(x, ys[1..], path, direction);
      InsertPermutes(x, ys[1..], path, direction);
      PrecedesTotal(direction, kx, Access(ys[0], path));
      var r := [ys[0]] + rest;
      forall j | 0 <= j < |rest| ensures Precedes(direction, Access(ys[0], path), Access(rest[j], path)) {
        assert rest[j] in multiset(ys[1..]) + multiset{x};
        if rest[j] != x {
          assert rest[j] in ys[1..];
          var m :| 0 <= m < |ys[1..]| && ys[1..][m] == rest[j];
          assert ys[m + 1] == rest[j];
        }
      }
      forall i, j | 0 <= i < j < |r| ensures Precedes(direction, Access(r[i], path), Access(r[j], path)) {
        if i == 0 {
          assert r[j] == rest[j - 1];
        } else {
          assert r[i] == rest[i - 1] && r[j] == rest[j - 1];
        }
      }
    }
  }

  /** The part of WithKey contributed by one element. */
  function KeyPart(v: Value, path: seq<string>, k: Value): seq<Value> {
    if Access(v, path) == k then [v] else []
  }

  lemma WithKeyCons(v: Value, s: seq<Value>, path: seq<string>, k: Value)
    ensures WithKey([v] + s, path, k) == KeyPart(v, path, k) + WithKey(s, path, k)
  {
    assert ([v] + s)[1..] == s;
  }

  /** x's key precedes itself, so an element x is moved past has a key other than x's. */
  lemma MovedPastOtherKey(x: Value, y: Value, path: seq<string>, direction: SortDirection, k: Value)
    requires !Precedes(direction, Access(x, path), Access(y, path))
    ensures KeyPart(x, path, k) == [] || KeyPart(y, path, k) == []
  {
    PrecedesReflexive(direction, Access(x, path));
  }

  lemma SwapParts(px: seq<Value>, py: seq<Value>, t: seq<Value>)
    requires px == [] || py == []
    ensures py + (px + t) == px + (py + t)
  {
    if px == [] {
      assert px + t == t && px + (py + t) == py + t;
    } else {
      assert py + (px + t) == px + t && py + t == t;
    }
  }

  lemma {:induction false} InsertStable(x: Value, ys: seq<Value>, path: seq<string>, direction: SortDirection, k: Value)
    ensures WithKey(Insert(x, ys, path, direction), path, k) == WithKey([x] + ys, path, k)
    decreases |ys|
  {
    if ys == [] {
      assert [x] + ys == [x];
    } else if Precedes(direction, Access(x, path), Access(ys[0], path)) {
    } else {
      var y, tail := ys[0], ys[1..];
      assert ys == [y] + tail;
      var rest := Insert(x, tail, path, direction);
      assert Insert(x, ys, path, direction) == [y] + rest;
      InsertStable(x, tail, path, direction, k);
      var px, py := KeyPart(x, path, k), KeyPart(y, path, k);
      MovedPastOtherKey(x, y, path, direction, k);
      calc {
        WithKey([y] + rest, path, k);
        { WithKeyCons(y, rest, path, k); }
        py + WithKey([x] + tail, path, k);
        { WithKeyCons(x, tail, path, k); }
        py + (px + WithKey(tail, path, k));
        { SwapParts(px, py, WithKey(tail, path, k)); }
        px + (py + WithKey(tail, path, k));
        { WithKeyCons(y, tail, path, k); }
        px + WithKey(ys, path, k);
        { WithKeyCons(x, ys, path, k); }
        WithKey([x] + ys, path, k);
      }
    }
  }

  /** SortBy is sorted, a permutation, and stable. */
  lemma {:induction false} SortByCorrect(xs: seq<Value>, path: seq<string>, direction: SortDirection)
    ensures SortedBy(SortBy(xs, path, direction), path, direction)
    ensures multiset(SortBy(xs, path, direction)) == multiset(xs)
    ensures StableFor(SortBy(xs, path, direction), xs, path)
    decreases |xs|
  {
    if xs != [] {
      var rest := SortBy(xs[1..], path, direction);
      SortByCorrect(xs[1..], path, direction);
      InsertSorted(xs[0], rest, path, direction);
      InsertPermutes(xs[0], rest, path, direction);
      assert xs == [xs[0]] + xs[1..];
      forall k ensures WithKey(SortBy(xs, path, direction), path, k) == WithKey(xs, path, k) {
        InsertStable(xs[0], rest, path, direction, k);
        WithKeyCons(xs[0], rest, path, k);
        WithKeyCons(xs[0], xs[1..], path, k);
        assert [xs[0]] + xs[1..] == xs;
      }
    }
  }
}
