/**
 * Sequences and the iteration order of Go maps.
 *
 * Ranging over a Go map visits every key exactly once, in an order the
 * runtime chooses afresh each time.  The model writes such an order down as
 * an enumeration of the key set.
 */
module Collections {

  predicate NoDuplicates<T(==)>(s: seq<T>)
  {
    forall i, j :: 0 <= i < j < |s| ==> s[i] != s[j]
  }

  /** `order` lists every element of `keys` exactly once. */
  predicate IsEnumeration<T(==)>(order: seq<T>, keys: set<T>)
  {
    NoDuplicates(order) && (forall i :: 0 <= i < |order| ==> order[i] in keys) && (forall k :: k in keys ==> k in order)
  }

  function Flatten<T>(ss: seq<seq<T>>): seq<T>
  {
    if ss == [] then [] else ss[0] + Flatten(ss[1..])
  }

  /** The middle part of a concatenation of three. */
  lemma MiddleOf<T>(a: seq<T>, m: seq<T>, b: seq<T>)
    ensures (a + m + b)[|a|..|a + m + b| - |b|] == m
  {
    assert (a + m + b)[|a|..|a| + |m|] == m;
  }

  /** The three parts of a concatenation that ends in one element. */
  lemma ThreeParts<T>(a: seq<T>, m: seq<T>, x: T)
    ensures |a + m + [x]| == |a| + |m| + 1
    ensures (a + m + [x])[..|a|] == a
    ensures (a + m + [x])[|a|..|a| + |m|] == m
    ensures (a + m + [x])[|a| + |m|] == x
  {
    assert (a + m + [x])[..|a|] == a;
    assert (a + m + [x])[|a|..|a| + |m|] == m;
  }

  lemma {:induction false} FlattenAppend<T>(a: seq<seq<T>>, b: seq<seq<T>>)
    ensures Flatten(a + b) == Flatten(a) + Flatten(b)
  {
    if a != [] {
      assert (a + b)[1..] == a[1..] + b;
      FlattenAppend(a[1..], b);
    } else {
      assert a + b == b;
    }
  }

  lemma {:induction false} EnumerationSize<T>(order: seq<T>, keys: set<T>)
    requires IsEnumeration(order, keys)
    ensures |order| == |keys|
  {
    if order != [] {
      var last := order[|order| - 1];
      var rest := order[..|order| - 1];
      assert IsEnumeration(rest, keys - {last}) by {
        forall k | k in keys - {last} ensures k in rest {
          var i :| 0 <= i < |order| && order[i] == k;
          assert i != |order| - 1;
          assert rest[i] == k;
        }
      }
      EnumerationSize(rest, keys - {last});
    } else {
      assert forall k :: k !in keys;
      assert keys == {};
    }
  }

  /** A Go `range` over a map: some order of its keys, chosen by the runtime. */
  method Enumerate<T(==)>(keys: set<T>) returns (order: seq<T>)
    ensures IsEnumeration(order, keys)
  {
    order := [];
    var left := keys;
    while left != {}
      invariant left <= keys
      invariant NoDuplicates(order)
      invariant forall i :: 0 <= i < |order| ==> order[i] in keys && order[i] !in left
      invariant forall k :: k in keys ==> k in left || k in order
      decreases left
    {
      var k :| k in left;
      order := order + [k];
      left := left - {k};
    }
  }

  function Reverse<T>(s: seq<T>): (r: seq<T>)
    ensures |r| == |s|
    ensures forall i :: 0 <= i < |s| ==> r[i] == s[|s| - 1 - i]
  {
    if s == [] then [] else Reverse(s[1..]) + [s[0]]
  }

  /** A sequence that lists `s` from its last element to its first is its reverse. */
  lemma ReverseAt<T>(s: seq<T>, r: seq<T>)
    requires |r| == |s| && forall i :: 0 <= i < |s| ==> r[i] == s[|s| - 1 - i]
    ensures r == Reverse(s)
  {
  }
}
