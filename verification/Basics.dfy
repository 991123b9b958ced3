/** Small vocabulary shared by every module: identifiers, options, and the ascending
    enumeration of a finite set that the source writes as `sorted(...)`. */
module Basics {

  /** A normalised identifier, represented by its place in the string order. */
  type Id = nat

  type Byte = b: int | 0 <= b < 256

  datatype Option<+T> = None | Some(value: T)

  /** What a call gave back: a value, or the exception it raised. State changed before a raise stays changed. */
  datatype Outcome<+T, +E> = Returned(value: T) | Raised(error: E)

  ghost predicate IsLeast(m: Id, keys: set<Id>) {
    m in keys && forall k :: k in keys ==> m <= k
  }

  lemma LeastExists(keys: set<Id>)
    requires keys != {}
    ensures exists m :: IsLeast(m, keys)
  {
    var k :| k in keys;
    if keys - {k} == {} {
      assert keys == {k};
      assert IsLeast(k, keys);
    } else {
      LeastExists(keys - {k});
      var m :| IsLeast(m, keys - {k});
      assert forall j :: j in keys ==> j == k || j in keys - {k};
      assert IsLeast(if k < m then k else m, keys);
    }
  }

  ghost function Least(keys: set<Id>): (m: Id)
    requires keys != {}
    ensures IsLeast(m, keys)
  {
    LeastExists(keys);
    var m :| IsLeast(m, keys);
    m
  }

  ghost predicate Ascending(s: seq<Id>) {
    forall i, j :: 0 <= i < j < |s| ==> s[i] < s[j]
  }

  /** `s` lists exactly the elements of `keys`, smallest first. */
  ghost predicate Enumerates(s: seq<Id>, keys: set<Id>) {
    Ascending(s) && forall k :: k in s <==> k in keys
  }

  ghost function Sorted(keys: set<Id>): (s: seq<Id>)
    ensures Enumerates(s, keys)
    ensures |s| == |keys|
    decreases |keys|
  {
    if keys == {} then [] else
      var m := Least(keys);
      var rest := Sorted(keys - {m});
      assert forall k :: k in rest ==> m < k;
      [m] + rest
  }

  lemma EnumerationIsUnique(a: seq<Id>, b: seq<Id>, keys: set<Id>)
    requires Enumerates(a, keys) && Enumerates(b, keys)
    ensures a == b
  {
    NonEmptyEnumeration(a, keys);
    NonEmptyEnumeration(b, keys);
    if a != [] && b != [] {
      assert a[0] == b[0];
      forall k ensures k in a[1..] <==> k in keys - {a[0]} { MemberOfTail(a, k); }
      forall k ensures k in b[1..] <==> k in keys - {a[0]} { MemberOfTail(b, k); }
      EnumerationIsUnique(a[1..], b[1..], keys - {a[0]});
      assert a == [a[0]] + a[1..] && b == [b[0]] + b[1..];
    }
  }

  lemma NonEmptyEnumeration(s: seq<Id>, keys: set<Id>)
    requires Enumerates(s, keys)
    ensures s == [] <==> keys == {}
    ensures s != [] ==> s[0] in keys
  {
    if s != [] { assert s[0] in s; }
    if keys != {} { var k :| k in keys; assert k in s; }
  }

  lemma MemberOfTail(s: seq<Id>, k: Id)
    requires Ascending(s) && s != []
    ensures k in s[1..] <==> k in s && k != s[0]
  {
    if k in s && k != s[0] {
      var i :| 0 <= i < |s| && s[i] == k;
      assert s[1..][i - 1] == k;
    }
  }

  /** The source's `sorted(...)` over a set of identifiers, by repeated selection of the least. */
  method SortedKeys(keys: set<Id>) returns (s: seq<Id>)
    ensures s == Sorted(keys)
  {
    s := [];
    var rest := keys;
    while rest != {}
      invariant rest <= keys
      invariant Enumerates(s, keys - rest)
      invariant forall i, k :: 0 <= i < |s| && k in rest ==> s[i] < k
      decreases |rest|
    {
      var m := LeastOf(rest);
      s := s + [m];
      rest := rest - {m};
    }
    assert keys - rest == keys;
    EnumerationIsUnique(s, Sorted(keys), keys);
  }

  method LeastOf(keys: set<Id>) returns (m: Id)
    requires keys != {}
    ensures IsLeast(m, keys)
  {
    m :| m in keys;
    var rest := keys - {m};
    while rest != {}
      invariant rest <= keys && m in keys
      invariant forall j :: j in keys && j !in rest ==> m <= j
      decreases |rest|
    {
      var k :| k in rest;
      if k < m { m := k; }
      rest := rest - {k};
    }
  }

  /** Every element of `a` is in `b` and the two sets have as many elements: they are equal. */
  lemma EqualBySize<T>(a: set<T>, b: set<T>)
    requires a <= b && |a| == |b|
    ensures a == b
  {
    assert |b - a| == |b| - |a|;
  }

  lemma SubsetSize<T>(a: set<T>, b: set<T>)
    requires a <= b
    ensures |a| <= |b|
  {
    assert |b - a| == |b| - |a|;
  }
}
