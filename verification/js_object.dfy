/** The order in which a JavaScript object enumerates its own keys
    (`Object.keys`), for an object whose keys are numbers: keys that are
    array indices (integers from 0 to 2^32 - 2) come first in ascending
    order, then the remaining keys in the order they were first stored
    (section 10.1.11.1, OrdinaryOwnPropertyKeys, of ECMA-262). */
module JsObject {

  /** A key whose string form is an array index. */
  predicate IsIndexKey(k: real) {
    k == k.Floor as real && 0 <= k.Floor < 0xFFFF_FFFF
  }

  /** No key occurs twice. */
  predicate NoDup(s: seq<real>) {
    forall x :: x in s ==> multiset(s)[x] <= 1
  }

  lemma {:induction false} NoDupSnoc(s: seq<real>, x: real)
    requires NoDup(s) && x !in s
    ensures NoDup(s + [x])
  {
    assert multiset(s + [x]) == multiset(s) + multiset{x};
  }

  predicate Ascending(s: seq<real>) {
    forall i, j :: 0 <= i < j < |s| ==> s[i] <= s[j]
  }

  function IndexKeys(s: seq<real>): (r: seq<real>)
    ensures forall k :: k in r ==> IsIndexKey(k)
  {
    if s == [] then []
    else IndexKeys(s[..|s| - 1]) + (if IsIndexKey(s[|s| - 1]) then [s[|s| - 1]] else [])
  }

  function OtherKeys(s: seq<real>): (r: seq<real>)
    ensures forall k :: k in r ==> !IsIndexKey(k)
  {
    if s == [] then []
    else OtherKeys(s[..|s| - 1]) + (if IsIndexKey(s[|s| - 1]) then [] else [s[|s| - 1]])
  }

  /** The two groups split the keys without losing or adding any. */
  lemma {:induction false} SplitKeys(s: seq<real>)
    ensures multiset(IndexKeys(s)) + multiset(OtherKeys(s)) == multiset(s)
  {
    if s != [] {
      var init, k := s[..|s| - 1], s[|s| - 1];
      assert s == init + [k];
      assert multiset(s) == multiset(init) + multiset{k};
      SplitKeys(init);
      if IsIndexKey(k) {
        assert IndexKeys(s) == IndexKeys(init) + [k];
        assert OtherKeys(s) == OtherKeys(init) + [];
      } else {
        assert IndexKeys(s) == IndexKeys(init) + [];
        assert OtherKeys(s) == OtherKeys(init) + [k];
      }
    }
  }

  /** Other keys keep their relative order: they form the stored order with
      the index keys removed. */
  lemma {:induction false} OtherKeysKeepOrder(s: seq<real>, t: seq<real>)
    ensures OtherKeys(s + t) == OtherKeys(s) + OtherKeys(t)
    decreases |t|
  {
    if t == [] {
      assert s + t == s;
    } else {
      var init, k := t[..|t| - 1], t[|t| - 1];
      assert (s + t)[..|s + t| - 1] == s + init;
      OtherKeysKeepOrder(s, init);
    }
  }

  function InsertAscending(k: real, s: seq<real>): (r: seq<real>)
    requires Ascending(s)
    ensures Ascending(r)
    ensures multiset(r) == multiset(s) + multiset{k}
    ensures |r| == |s| + 1
    ensures r[0] == k || (s != [] && r[0] == s[0])
  {
    if s == [] || k <= s[0] then [k] + s
    else
      var rest := InsertAscending(k, s[1..]);
      assert s == [s[0]] + s[1..];
      [s[0]] + rest
  }

  function SortAscending(s: seq<real>): (r: seq<real>)
    ensures Ascending(r)
    ensures multiset(r) == multiset(s)
  {
    if s == [] then []
    else
      var init, k := s[..|s| - 1], s[|s| - 1];
      assert s == init + [k];
      InsertAscending(k, SortAscending(init))
  }

  /** `Object.keys` of an object whose keys were stored in order `stored`. */
  function ObjectKeys(stored: seq<real>): seq<real> {
    SortAscending(IndexKeys(stored)) + OtherKeys(stored)
  }

  /** `Object.keys` lists every stored key exactly once, index keys first and
      ascending. */
  lemma {:induction false} ObjectKeysPermutes(stored: seq<real>)
    requires NoDup(stored)
    ensures multiset(ObjectKeys(stored)) == multiset(stored)
    ensures NoDup(ObjectKeys(stored))
    ensures exists n :: (0 <= n <= |ObjectKeys(stored)| &&
                         Ascending(ObjectKeys(stored)[..n]) &&
                         (forall i :: 0 <= i < n ==> IsIndexKey(ObjectKeys(stored)[i])) &&
                         ObjectKeys(stored)[n..] == OtherKeys(stored))
  {
    SplitKeys(stored);
    var sorted := SortAscending(IndexKeys(stored));
    var n := |sorted|;
    assert ObjectKeys(stored)[..n] == sorted;
    assert ObjectKeys(stored)[n..] == OtherKeys(stored);
    forall i | 0 <= i < n
      ensures IsIndexKey(ObjectKeys(stored)[i])
    {
      assert sorted[i] in multiset(sorted);
    }
  }
}
