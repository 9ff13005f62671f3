/**
 * Order-preserving selection over sequences: the `Array.prototype.filter`
 * calls of the hooks, keyed by one field of the element.
 */
module Lists {

  /** The elements of `s` whose key differs from `k`, in their original order. */
  function Remove<T, K(==)>(s: seq<T>, key: T -> K, k: K): (r: seq<T>)
    ensures |r| <= |s|
    ensures forall x :: x in r ==> x in s && key(x) != k
    ensures (forall i :: 0 <= i < |s| ==> key(s[i]) != k) ==> r == s
  {
    if |s| == 0 then []
    else (if key(s[0]) == k then [] else [s[0]]) + Remove(s[1..], key, k)
  }

  /** The elements of `s` whose key equals `k`, in their original order. */
  function Select<T, K(==)>(s: seq<T>, key: T -> K, k: K): (r: seq<T>)
    ensures |r| <= |s|
    ensures forall x :: x in r ==> x in s && key(x) == k
  {
    if |s| == 0 then []
    else (if key(s[0]) == k then [s[0]] else []) + Select(s[1..], key, k)
  }

  /** Removing distributes over concatenation, so the survivors keep their relative order. */
  lemma {:induction false} RemoveAppend<T, K>(a: seq<T>, b: seq<T>, key: T -> K, k: K)
    ensures Remove(a + b, key, k) == Remove(a, key, k) + Remove(b, key, k)
  {
    if |a| > 0 {
      assert (a + b)[1..] == a[1..] + b;
      RemoveAppend(a[1..], b, key, k);
    } else {
      assert a + b == b;
    }
  }

  /** Every element of `s` without key `k` survives, as often as it occurs. */
  lemma {:induction false} RemoveCount<T, K>(s: seq<T>, key: T -> K, k: K, x: T)
    ensures multiset(Remove(s, key, k))[x] == if key(x) == k then 0 else multiset(s)[x]
  {
    if |s| > 0 {
      RemoveCount(s[1..], key, k, x);
      assert s == [s[0]] + s[1..];
    }
  }

  /** Removing twice removes nothing more. */
  lemma RemoveIdempotent<T, K>(s: seq<T>, key: T -> K, k: K)
    ensures Remove(Remove(s, key, k), key, k) == Remove(s, key, k)
  {
    var r := Remove(s, key, k);
    assert forall i :: 0 <= i < |r| ==> r[i] in r;
  }

  /** Selecting distributes over concatenation. */
  lemma {:induction false} SelectAppend<T, K>(a: seq<T>, b: seq<T>, key: T -> K, k: K)
    ensures Select(a + b, key, k) == Select(a, key, k) + Select(b, key, k)
  {
    if |a| > 0 {
      assert (a + b)[1..] == a[1..] + b;
      SelectAppend(a[1..], b, key, k);
    } else {
      assert a + b == b;
    }
  }
}
