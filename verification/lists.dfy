/**
 * List operations the pages share: `filter(y => y !== x)` and the
 * no-duplicates property that selection lists keep.
 */
module Lists {

  /** `s.filter(y => y !== x)`: every occurrence of `x` removed, the rest in order. */
  function Remove<T(==,!new)>(s: seq<T>, x: T): (r: seq<T>)
    ensures x !in r
    ensures forall y :: y != x ==> (y in r <==> y in s)
    ensures |r| <= |s|
    ensures x !in s ==> r == s
  {
    if |s| == 0 then []
    else if s[0] == x then Remove(s[1..], x)
    else [s[0]] + Remove(s[1..], x)
  }

  /**
   * `s.findIndex(y => key(y) === id)`: the first index whose key is `id`, or
   * -1 when there is none. `find` is the element at that index.
   */
  function FirstIndex<T, K(==)>(s: seq<T>, key: T -> K, id: K): (r: int)
    ensures -1 <= r < |s|
    ensures r == -1 <==> forall k :: 0 <= k < |s| ==> key(s[k]) != id
    ensures r >= 0 ==> key(s[r]) == id && forall k :: 0 <= k < r ==> key(s[k]) != id
  {
    if |s| == 0 then -1
    else if key(s[0]) == id then 0
    else
      var r := FirstIndex(s[1..], key, id);
      if r == -1 then -1 else r + 1
  }

  /** An index preceded by no element with its key is the one the search finds. */
  lemma FirstIndexAt<T, K>(s: seq<T>, key: T -> K, k: nat)
    requires k < |s|
    requires forall j :: 0 <= j < k ==> key(s[j]) != key(s[k])
    ensures FirstIndex(s, key, key(s[k])) == k
  {
  }

  /** No element appears twice. */
  predicate NoDuplicates<T(==,!new)>(s: seq<T>) {
    forall i, j :: 0 <= i < j < |s| ==> s[i] != s[j]
  }

  /** Removing from a concatenation removes from each part and keeps them in order. */
  lemma {:induction false} RemoveAppend<T(!new)>(a: seq<T>, b: seq<T>, x: T)
    ensures Remove(a + b, x) == Remove(a, x) + Remove(b, x)
  {
    if |a| > 0 {
      assert (a + b)[1..] == a[1..] + b;
      assert (a + b)[0] == a[0];
      RemoveAppend(a[1..], b, x);
    } else {
      assert a + b == b;
    }
  }

  /** The tail of a list without duplicates has none, and does not hold the head. */
  lemma TailNoDuplicates<T(!new)>(s: seq<T>)
    requires |s| > 0 && NoDuplicates(s)
    ensures NoDuplicates(s[1..]) && s[0] !in s[1..]
  {
    forall i, j | 0 <= i < j < |s| - 1
      ensures s[1..][i] != s[1..][j]
    {
      assert s[1..][i] == s[i + 1] && s[1..][j] == s[j + 1];
    }
    forall k | 0 <= k < |s| - 1
      ensures s[1..][k] != s[0]
    {
      assert s[1..][k] == s[k + 1];
    }
  }

  /** Removing from a list without duplicates leaves one without duplicates, one element shorter when `x` was there. */
  lemma {:induction false} RemoveKeepsNoDuplicates<T(!new)>(s: seq<T>, x: T)
    requires NoDuplicates(s)
    ensures NoDuplicates(Remove(s, x))
    ensures x in s ==> |Remove(s, x)| == |s| - 1
  {
    if |s| > 0 {
      TailNoDuplicates(s);
      RemoveKeepsNoDuplicates(s[1..], x);
      if s[0] != x {
        var rest := Remove(s[1..], x);
        assert s[0] !in rest;
        var r := [s[0]] + rest;
        forall i, j | 0 <= i < j < |r|
          ensures r[i] != r[j]
        {
          if i == 0 {
            assert r[j] == rest[j - 1];
          } else {
            assert r[i] == rest[i - 1] && r[j] == rest[j - 1];
          }
        }
        assert x in s ==> x in s[1..];
      } else {
        assert Remove(s[1..], x) == s[1..];
      }
    }
  }

  /** Appending an element that is not there keeps a list free of duplicates. */
  lemma AppendKeepsNoDuplicates<T(!new)>(s: seq<T>, x: T)
    requires NoDuplicates(s) && x !in s
    ensures NoDuplicates(s + [x])
  {
    var r := s + [x];
    forall i, j | 0 <= i < j < |r|
      ensures r[i] != r[j]
    {
      assert r[i] == s[i];
      if j < |s| {
        assert r[j] == s[j];
      }
    }
  }

  /** Removing an element just appended to a list without it undoes the append. */
  lemma {:induction false} RemoveAppended<T(!new)>(s: seq<T>, x: T)
    requires x !in s
    ensures Remove(s + [x], x) == s
  {
    if |s| == 0 {
      assert [x][1..] == [];
    } else {
      assert (s + [x])[1..] == s[1..] + [x];
      RemoveAppended(s[1..], x);
      assert s == [s[0]] + s[1..];
    }
  }
}
