/** The list operations the stores and the join-table updates are built
    from: `filter` on a key, `findIndex` on a key, and `map` that swaps
    every element with a given key. Each is defined by recursion and
    characterised by its contract and the lemmas below it. */
module ListOps {

  /** The elements of `s` whose key is `k`, in their order in `s`. */
  function Keep<T(!new), K(==)>(s: seq<T>, key: T -> K, k: K): (r: seq<T>)
    ensures |r| <= |s|
    ensures forall x :: x in r <==> x in s && key(x) == k
  {
    if s == [] then []
    else
      assert forall x :: x in s <==> x == s[0] || x in s[1..];
      (if key(s[0]) == k then [s[0]] else []) + Keep(s[1..], key, k)
  }

  /** The elements of `s` whose key is not `k`, in their order in `s`. */
  function Drop<T(!new), K(==)>(s: seq<T>, key: T -> K, k: K): (r: seq<T>)
    ensures |r| <= |s|
    ensures forall x :: x in r <==> x in s && key(x) != k
  {
    if s == [] then []
    else
      assert forall x :: x in s <==> x == s[0] || x in s[1..];
      (if key(s[0]) != k then [s[0]] else []) + Drop(s[1..], key, k)
  }

  /** The index of the first element whose key is `k`, or -1 if there is none. */
  function FindIndex<T, K(==)>(s: seq<T>, key: T -> K, k: K): (i: int)
    ensures -1 <= i < |s|
    ensures i >= 0 ==> key(s[i]) == k
    ensures forall j :: 0 <= j < |s| && (i < 0 || j < i) ==> key(s[j]) != k
  {
    if s == [] then -1
    else if key(s[0]) == k then 0
    else
      var i := FindIndex(s[1..], key, k);
      if i < 0 then -1 else i + 1
  }

  /** `s` with every element whose key is `k` replaced by `x`. */
  function ReplaceAll<T, K(==)>(s: seq<T>, key: T -> K, k: K, x: T): (r: seq<T>)
    ensures |r| == |s|
    ensures forall i :: 0 <= i < |s| ==> r[i] == (if key(s[i]) == k then x else s[i])
  {
    if s == [] then []
    else [if key(s[0]) == k then x else s[0]] + ReplaceAll(s[1..], key, k, x)
  }

  /** Dropping distributes over concatenation, so the kept elements keep
      their relative order. */
  lemma {:induction false} DropAppend<T(!new), K>(a: seq<T>, b: seq<T>, key: T -> K, k: K)
    ensures Drop(a + b, key, k) == Drop(a, key, k) + Drop(b, key, k)
  {
    if a == [] {
      assert a + b == b;
    } else {
      assert (a + b)[0] == a[0] && (a + b)[1..] == a[1..] + b;
      DropAppend(a[1..], b, key, k);
    }
  }

  /** Keeping distributes over concatenation. */
  lemma {:induction false} KeepAppend<T(!new), K>(a: seq<T>, b: seq<T>, key: T -> K, k: K)
    ensures Keep(a + b, key, k) == Keep(a, key, k) + Keep(b, key, k)
  {
    if a == [] {
      assert a + b == b;
    } else {
      assert (a + b)[0] == a[0] && (a + b)[1..] == a[1..] + b;
      KeepAppend(a[1..], b, key, k);
    }
  }

  /** A list with no element of key `k` is left as it is by `Drop`. */
  lemma {:induction false} DropAbsent<T(!new), K>(s: seq<T>, key: T -> K, k: K)
    requires forall x :: x in s ==> key(x) != k
    ensures Drop(s, key, k) == s
  {
    if s != [] {
      DropAbsent(s[1..], key, k);
      assert [s[0]] + s[1..] == s;
    }
  }

  /** `Keep` and `Drop` split a list: together they hold every element as
      often as the list does. */
  lemma {:induction false} KeepDropPartition<T(!new), K>(s: seq<T>, key: T -> K, k: K)
    ensures multiset(Keep(s, key, k)) + multiset(Drop(s, key, k)) == multiset(s)
  {
    if s != [] {
      KeepDropPartition(s[1..], key, k);
      var head := if key(s[0]) == k then [s[0]] else [];
      var rest := if key(s[0]) != k then [s[0]] else [];
      assert Keep(s, key, k) == head + Keep(s[1..], key, k);
      assert Drop(s, key, k) == rest + Drop(s[1..], key, k);
      assert multiset(head) + multiset(rest) == multiset([s[0]]);
      assert s == [s[0]] + s[1..];
    }
  }

  /** Replacing by key never changes an element with another key, and
      leaves a list without that key as it is. */
  lemma {:induction false} ReplaceAllAbsent<T, K>(s: seq<T>, key: T -> K, k: K, x: T)
    requires forall y :: y in s ==> key(y) != k
    ensures ReplaceAll(s, key, k, x) == s
  {
    if s != [] {
      ReplaceAllAbsent(s[1..], key, k, x);
      assert [s[0]] + s[1..] == s;
    }
  }

  /** No two elements share a key. */
  predicate UniqueKeys<T, K(==)>(s: seq<T>, key: T -> K) {
    forall i, j :: 0 <= i < j < |s| ==> key(s[i]) != key(s[j])
  }

  /** When keys are unique, replacing the first element with key `k` is
      replacing every element with key `k`. */
  lemma ReplaceFirstIsReplaceAll<T, K>(s: seq<T>, key: T -> K, k: K, x: T)
    requires UniqueKeys(s, key)
    ensures var i := FindIndex(s, key, k);
            (if i >= 0 then s[i := x] else s) == ReplaceAll(s, key, k, x)
  {
    var i := FindIndex(s, key, k);
    var r := ReplaceAll(s, key, k, x);
    if i >= 0 {
      forall j | 0 <= j < |s|
        ensures s[i := x][j] == r[j]
      {
      }
    } else {
      ReplaceAllAbsent(s, key, k, x);
    }
  }

  /** Replacing the elements of key `k` by an element of key `k` and then
      dropping key `k` is dropping key `k`. */
  lemma {:induction false} DropAfterReplaceAll<T(!new), K>(s: seq<T>, key: T -> K, k: K, x: T)
    requires key(x) == k
    ensures Drop(ReplaceAll(s, key, k, x), key, k) == Drop(s, key, k)
  {
    if s != [] {
      DropAfterReplaceAll(s[1..], key, k, x);
      assert ReplaceAll(s, key, k, x)[1..] == ReplaceAll(s[1..], key, k, x);
    }
  }
}
