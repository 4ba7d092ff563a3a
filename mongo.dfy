/**
 * The collection operators the handlers call, spelled out over a collection held as a sequence of
 * documents in insertion order. A filter is a predicate on documents, an update a function on them.
 */
module Mongo {
  import opened Common

  /** `findOne`: the position of the first document the filter matches. */
  function FindFirst<T>(s: seq<T>, p: T -> bool): (r: Option<nat>)
    ensures r.Some? ==> r.value < |s| && p(s[r.value]) && forall j :: 0 <= j < r.value ==> !p(s[j])
    ensures r.None? ==> forall j :: 0 <= j < |s| ==> !p(s[j])
  {
    if |s| == 0 then None
    else if p(s[0]) then Some(0)
    else
      match FindFirst(s[1..], p)
      case None => None
      case Some(k) => Some(k + 1)
  }

  /** `updateOne`: applies the update to the first matching document only. */
  function UpdateFirst<T>(s: seq<T>, p: T -> bool, f: T -> T): (r: seq<T>)
    ensures FindFirst(s, p).None? ==> r == s
    ensures FindFirst(s, p).Some? ==>
      var i := FindFirst(s, p).value;
      r == s[i := f(s[i])]
  {
    if |s| == 0 then []
    else if p(s[0]) then [f(s[0])] + s[1..]
    else [s[0]] + UpdateFirst(s[1..], p, f)
  }

  /** `updateMany`: applies the update to every matching document. */
  function UpdateMany<T>(s: seq<T>, p: T -> bool, f: T -> T): (r: seq<T>)
    ensures |r| == |s|
    ensures forall i :: 0 <= i < |s| && p(s[i]) ==> r[i] == f(s[i])
    ensures forall i :: 0 <= i < |s| && !p(s[i]) ==> r[i] == s[i]
  {
    if |s| == 0 then []
    else [if p(s[0]) then f(s[0]) else s[0]] + UpdateMany(s[1..], p, f)
  }

  /** `deleteOne`: removes the first matching document only. */
  function DeleteFirst<T>(s: seq<T>, p: T -> bool): (r: seq<T>)
    ensures forall x :: x in r ==> x in s
    ensures FindFirst(s, p).None? ==> r == s
    ensures FindFirst(s, p).Some? ==>
      var i := FindFirst(s, p).value;
      r == s[..i] + s[i + 1..]
  {
    if |s| == 0 then []
    else if p(s[0]) then s[1..]
    else [s[0]] + DeleteFirst(s[1..], p)
  }

  /** `find(filter)`: every matching document, in collection order. */
  function Select<T(!new)>(s: seq<T>, p: T -> bool): (r: seq<T>)
    ensures |r| <= |s|
    ensures forall x :: x in r <==> x in s && p(x)
  {
    if |s| == 0 then []
    else
      assert s == s[..|s| - 1] + [s[|s| - 1]];
      Select(s[..|s| - 1], p) + if p(s[|s| - 1]) then [s[|s| - 1]] else []
  }

  /**
   * `deleteMany` on a collection and `$pull` on an array: every matching element is gone.
   * WithoutMultiset gives how often the others stay, WithoutAppend their order.
   */
  function Without<T(!new)>(s: seq<T>, p: T -> bool): (r: seq<T>)
    ensures |r| <= |s|
    ensures forall x :: x in r ==> x in s && !p(x)
    ensures forall x :: x in s && !p(x) ==> x in r
  {
    Select(s, x => !p(x))
  }

  /** Every element the predicate does not hold of stays as often as it occurred; the rest go. */
  lemma WithoutMultiset<T(!new)>(s: seq<T>, p: T -> bool)
    ensures forall x :: multiset(Without(s, p))[x] == if p(x) then 0 else multiset(s)[x]
  {
    SelectMultiset(s, x => !p(x));
  }

  /** Removal works piece by piece: the survivors of a + b are those of a followed by those of b. */
  lemma WithoutAppend<T(!new)>(a: seq<T>, b: seq<T>, p: T -> bool)
    ensures Without(a + b, p) == Without(a, p) + Without(b, p)
  {
    SelectAppend(a, b, x => !p(x));
  }

  /** `countDocuments(filter)`. */
  function Count<T(!new)>(s: seq<T>, p: T -> bool): (n: nat)
    ensures n == |Select(s, p)|
  {
    if |s| == 0 then 0
    else Count(s[..|s| - 1], p) + if p(s[|s| - 1]) then 1 else 0
  }

  /** No two documents share a key: the uniqueness the handlers keep by finding before inserting. */
  ghost predicate KeysUnique<T, K>(s: seq<T>, key: T -> K)
  {
    forall i, j :: 0 <= i < j < |s| ==> key(s[i]) != key(s[j])
  }

  lemma {:induction false} SelectAppend<T(!new)>(a: seq<T>, b: seq<T>, p: T -> bool)
    ensures Select(a + b, p) == Select(a, p) + Select(b, p)
    decreases |b|
  {
    if |b| == 0 {
      assert a + b == a;
    } else {
      var b', x := b[..|b| - 1], b[|b| - 1];
      var tail := if p(x) then [x] else [];
      assert (a + b)[..|a + b| - 1] == a + b' && (a + b)[|a + b| - 1] == x;
      assert Select(a + b, p) == Select(a + b', p) + tail;
      SelectAppend(a, b', p);
      assert Select(b, p) == Select(b', p) + tail;
    }
  }

  /** A filter keeps every matching document as often as it occurs and drops every other one. */
  lemma {:induction false} SelectMultiset<T(!new)>(s: seq<T>, p: T -> bool)
    ensures forall x :: multiset(Select(s, p))[x] == if p(x) then multiset(s)[x] else 0
    decreases |s|
  {
    if |s| > 0 {
      var s', x := s[..|s| - 1], s[|s| - 1];
      SelectMultiset(s', p);
      assert s == s' + [x];
    }
  }

  /** Filtering by p and then by q is filtering by their conjunction. */
  lemma {:induction false} SelectSelect<T(!new)>(s: seq<T>, p: T -> bool, q: T -> bool, pq: T -> bool)
    requires forall x :: pq(x) <==> p(x) && q(x)
    ensures Select(Select(s, p), q) == Select(s, pq)
    decreases |s|
  {
    if |s| > 0 {
      var s' := s[..|s| - 1];
      var x := s[|s| - 1];
      SelectSelect(s', p, q, pq);
      SelectAppend(Select(s', p), if p(x) then [x] else [], q);
      if p(x) {
        assert Select([x], q) == Select([], q) + (if q(x) then [x] else []);
      }
    }
  }

  /** Filtering by a predicate that holds of nothing in s gives nothing. */
  lemma SelectNone<T(!new)>(s: seq<T>, p: T -> bool)
    requires forall x :: x in s ==> !p(x)
    ensures Select(s, p) == []
  {
  }

  /** Removing everything a predicate holds of, when it holds of every element, leaves nothing. */
  lemma WithoutAll<T(!new)>(s: seq<T>, p: T -> bool)
    requires forall x :: x in s ==> p(x)
    ensures Without(s, p) == []
  {
    SelectNone(s, x => !p(x));
  }

  lemma AppendKeepsKeysUnique<T, K>(s: seq<T>, x: T, key: T -> K)
    requires KeysUnique(s, key)
    requires forall y :: y in s ==> key(y) != key(x)
    ensures KeysUnique(s + [x], key)
  {
    var t := s + [x];
    forall i, j | 0 <= i < j < |t|
      ensures key(t[i]) != key(t[j])
    {
      if j == |s| {
        assert t[i] in s;
      }
    }
  }

  /** An update that leaves the key alone cannot break uniqueness. */
  lemma UpdateFirstKeepsKeysUnique<T, K>(s: seq<T>, p: T -> bool, f: T -> T, key: T -> K)
    requires KeysUnique(s, key)
    requires forall x :: key(f(x)) == key(x)
    ensures KeysUnique(UpdateFirst(s, p, f), key)
  {
    var r := UpdateFirst(s, p, f);
    assert forall i :: 0 <= i < |s| ==> key(r[i]) == key(s[i]);
  }

  lemma UpdateManyKeepsKeysUnique<T, K>(s: seq<T>, p: T -> bool, f: T -> T, key: T -> K)
    requires KeysUnique(s, key)
    requires forall x :: key(f(x)) == key(x)
    ensures KeysUnique(UpdateMany(s, p, f), key)
  {
    var r := UpdateMany(s, p, f);
    assert forall i :: 0 <= i < |s| ==> key(r[i]) == key(s[i]);
  }

  lemma DeleteFirstKeepsKeysUnique<T, K>(s: seq<T>, p: T -> bool, key: T -> K)
    requires KeysUnique(s, key)
    ensures KeysUnique(DeleteFirst(s, p), key)
  {
    var r := DeleteFirst(s, p);
    match FindFirst(s, p)
    case None =>
    case Some(k) =>
      forall i, j | 0 <= i < j < |r|
        ensures key(r[i]) != key(r[j])
      {
        var i' := if i < k then i else i + 1;
        var j' := if j < k then j else j + 1;
        assert r[i] == s[i'] && r[j] == s[j'];
      }
  }

  /** Every element left after cutting out position m sits at some other position of s. */
  lemma CutOutSource<T>(s: seq<T>, m: nat, x: T)
    requires m < |s| && x in s[..m] + s[m + 1..]
    ensures exists i :: 0 <= i < |s| && i != m && s[i] == x
  {
    var r := s[..m] + s[m + 1..];
    var i :| 0 <= i < |r| && r[i] == x;
    var i' := if i < m then i else i + 1;
    assert s[i'] == x;
  }

  /** Every element at a position other than m survives cutting out position m. */
  lemma CutOutKeeps<T>(s: seq<T>, m: nat, i: nat)
    requires m < |s| && i < |s| && i != m
    ensures s[i] in s[..m] + s[m + 1..]
  {
    var r := s[..m] + s[m + 1..];
    if i < m {
      assert r[i] == s[i];
    } else {
      assert r[i - 1] == s[i];
    }
  }

  /** With unique keys, deleting the first document with key k deletes exactly the documents with key k. */
  lemma DeleteFirstUniqueKey<T, K>(s: seq<T>, p: T -> bool, key: T -> K, k: K)
    requires KeysUnique(s, key)
    requires forall x :: p(x) <==> key(x) == k
    ensures forall x :: x in DeleteFirst(s, p) <==> x in s && key(x) != k
    ensures |DeleteFirst(s, p)| == if exists x :: x in s && key(x) == k then |s| - 1 else |s|
  {
    var r := DeleteFirst(s, p);
    match FindFirst(s, p)
    case None =>
    case Some(m) =>
      assert s[m] in s && key(s[m]) == k;
      forall x | x in r
        ensures key(x) != k
      {
        CutOutSource(s, m, x);
      }
      forall x | x in s && key(x) != k
        ensures x in r
      {
        var i :| 0 <= i < |s| && s[i] == x;
        CutOutKeeps(s, m, i);
      }
  }

  /** With unique keys, updating the first document with key k updates exactly the documents with key k. */
  lemma UpdateFirstUniqueKey<T, K>(s: seq<T>, p: T -> bool, f: T -> T, key: T -> K, k: K)
    requires KeysUnique(s, key)
    requires forall x :: p(x) <==> key(x) == k
    ensures |UpdateFirst(s, p, f)| == |s|
    ensures forall i :: 0 <= i < |s| ==> UpdateFirst(s, p, f)[i] == if key(s[i]) == k then f(s[i]) else s[i]
  {
  }

  lemma {:induction false} SelectKeepsKeysUnique<T(!new), K>(s: seq<T>, p: T -> bool, key: T -> K)
    requires KeysUnique(s, key)
    ensures KeysUnique(Select(s, p), key)
    decreases |s|
  {
    if |s| > 0 {
      var s' := s[..|s| - 1];
      var x := s[|s| - 1];
      SelectKeepsKeysUnique(s', p, key);
      if p(x) {
        forall y | y in Select(s', p)
          ensures key(y) != key(x)
        {
          assert y in s';
        }
        AppendKeepsKeysUnique(Select(s', p), x, key);
      }
    }
  }

  lemma WithoutKeepsKeysUnique<T(!new), K>(s: seq<T>, p: T -> bool, key: T -> K)
    requires KeysUnique(s, key)
    ensures KeysUnique(Without(s, p), key)
  {
    SelectKeepsKeysUnique(s, x => !p(x), key);
  }
}
