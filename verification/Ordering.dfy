/**
  The one ordering rule the sources share: `left < right ? -1 : left > right ? 1 : 0`
  under a stable sort. Packet answers, form fields and option lists are all put into
  canonical form this way before they are hashed, so what "canonical" means is settled
  here once: two lists sort to the same list exactly when they agree, key by key, on
  the elements carrying that key and on the order those elements appear in.
*/
module Ordering {

  /** Strict lexicographic order on strings. */
  predicate Before(a: string, b: string) {
    b != "" && (a == "" || a[0] < b[0] || (a[0] == b[0] && Before(a[1..], b[1..])))
  }

  lemma BeforeIsTotal(a: string, b: string)
    ensures a == b || Before(a, b) || Before(b, a)
  {
  }

  lemma {:induction false} BeforeIsStrict(a: string, b: string)
    requires Before(a, b)
    ensures a != b && !Before(b, a)
  {
    if a != "" && a[0] == b[0] {
      BeforeIsStrict(a[1..], b[1..]);
    }
  }

  lemma {:induction false} BeforeIsTransitive(a: string, b: string, c: string)
    requires Before(a, b) && Before(b, c)
    ensures Before(a, c)
  {
    if a != "" && a[0] == b[0] && b[0] == c[0] {
      BeforeIsTransitive(a[1..], b[1..], c[1..]);
    }
  }

  function Insert<T>(x: T, s: seq<T>, key: T -> string): seq<T> {
    if s == [] then [x]
    else if Before(key(s[0]), key(x)) then [s[0]] + Insert(x, s[1..], key)
    else [x] + s
  }

  /** A stable sort by key: `[...s].sort((l, r) => l.key < r.key ? -1 : l.key > r.key ? 1 : 0)`. */
  function SortBy<T>(s: seq<T>, key: T -> string): seq<T> {
    if s == [] then [] else Insert(s[0], SortBy(s[1..], key), key)
  }

  /** The elements carrying one key, in list order. */
  function WithKey<T>(s: seq<T>, key: T -> string, k: string): seq<T> {
    if s == [] then []
    else (if key(s[0]) == k then [s[0]] else []) + WithKey(s[1..], key, k)
  }

  ghost predicate Sorted<T>(s: seq<T>, key: T -> string) {
    forall i, j :: 0 <= i < j < |s| ==> !Before(key(s[j]), key(s[i]))
  }

  ghost predicate SameByKey<T>(a: seq<T>, b: seq<T>, key: T -> string) {
    forall k :: WithKey(a, key, k) == WithKey(b, key, k)
  }

  lemma WithKeyMember<T>(s: seq<T>, key: T -> string, i: nat)
    requires i < |s|
    ensures s[i] in WithKey(s, key, key(s[i]))
  {
    if i > 0 {
      WithKeyMember(s[1..], key, i - 1);
    }
  }

  lemma WithKeyOrigin<T>(s: seq<T>, key: T -> string, k: string)
    ensures forall x :: x in WithKey(s, key, k) ==> x in s && key(x) == k
  {
  }

  lemma {:induction false} InsertKeepsElements<T>(x: T, s: seq<T>, key: T -> string)
    ensures multiset(Insert(x, s, key)) == multiset([x]) + multiset(s)
  {
    if s != [] && Before(key(s[0]), key(x)) {
      InsertKeepsElements(x, s[1..], key);
      assert s == [s[0]] + s[1..];
    }
  }

  lemma {:induction false} InsertKeepsSorted<T>(x: T, s: seq<T>, key: T -> string)
    requires Sorted(s, key)
    ensures Sorted(Insert(x, s, key), key)
  {
    if s == [] {
    } else if Before(key(s[0]), key(x)) {
      BeforeIsStrict(key(s[0]), key(x));
      InsertKeepsSorted(x, s[1..], key);
      InsertKeepsElements(x, s[1..], key);
      var rest := Insert(x, s[1..], key);
      forall y | y in rest
        ensures !Before(key(y), key(s[0]))
      {
        assert y in multiset(rest);
        assert y == x || y in s[1..];
      }
    } else {
      forall j | 0 <= j < |s|
        ensures !Before(key(s[j]), key(x))
      {
        if Before(key(s[j]), key(x)) {
          BeforeIsTotal(key(s[0]), key(x));
          if key(s[0]) != key(x) {
            BeforeIsTransitive(key(s[j]), key(x), key(s[0]));
          }
        }
      }
    }
  }

  lemma {:induction false} InsertKeepsOrder<T>(x: T, s: seq<T>, key: T -> string, k: string)
    ensures WithKey(Insert(x, s, key), key, k) == (if key(x) == k then [x] else []) + WithKey(s, key, k)
  {
    if s == [] || !Before(key(s[0]), key(x)) {
      WithKeyCons(x, s, key, k);
    } else {
      assert key(s[0]) != key(x) by {
        BeforeIsStrict(key(s[0]), key(x));
      }
      InsertKeepsOrder(x, s[1..], key, k);
      WithKeyCons(s[0], Insert(x, s[1..], key), key, k);
    }
  }

  lemma WithKeyCons<T>(x: T, s: seq<T>, key: T -> string, k: string)
    ensures WithKey([x] + s, key, k) == (if key(x) == k then [x] else []) + WithKey(s, key, k)
  {
  }

  /** The sort is sorted, keeps every element, and is stable within each key. */
  lemma {:induction false} SortIsStable<T>(s: seq<T>, key: T -> string)
    ensures Sorted(SortBy(s, key), key)
    ensures multiset(SortBy(s, key)) == multiset(s)
    ensures SameByKey(SortBy(s, key), s, key)
  {
    if s != [] {
      SortIsStable(s[1..], key);
      var t := SortBy(s[1..], key);
      InsertKeepsElements(s[0], t, key);
      InsertKeepsSorted(s[0], t, key);
      assert s == [s[0]] + s[1..];
      forall k
        ensures WithKey(SortBy(s, key), key, k) == WithKey(s, key, k)
      {
        InsertKeepsOrder(s[0], t, key, k);
        assert WithKey(t, key, k) == WithKey(s[1..], key, k);
      }
    }
  }

  lemma {:induction false} SortedSameByKey<T>(a: seq<T>, b: seq<T>, key: T -> string)
    requires Sorted(a, key) && Sorted(b, key) && SameByKey(a, b, key)
    ensures a == b
  {
    assert a != [] ==> WithKey(a, key, key(a[0])) != [];
    assert b != [] ==> WithKey(b, key, key(b[0])) != [];
    if a == [] || b == [] {
    } else {
      WithKeyMember(a, key, 0);
      WithKeyMember(b, key, 0);
      WithKeyOrigin(b, key, key(a[0]));
      WithKeyOrigin(a, key, key(b[0]));
      BeforeIsTotal(key(a[0]), key(b[0]));
      assert WithKey(a, key, key(a[0])) == WithKey(b, key, key(a[0]));
      assert WithKey(a, key, key(b[0])) == WithKey(b, key, key(b[0]));
      assert a[0] in b && b[0] in a;
      assert key(a[0]) == key(b[0]);
      assert WithKey(a, key, key(a[0]))[0] == a[0];
      assert WithKey(b, key, key(a[0]))[0] == b[0];
      forall k
        ensures WithKey(a[1..], key, k) == WithKey(b[1..], key, k)
      {
        var head := if key(a[0]) == k then [a[0]] else [];
        assert WithKey(a, key, k) == head + WithKey(a[1..], key, k);
        assert WithKey(b, key, k) == head + WithKey(b[1..], key, k);
        assert WithKey(a[1..], key, k) == WithKey(a, key, k)[|head|..];
        assert WithKey(b[1..], key, k) == WithKey(b, key, k)[|head|..];
      }
      SortedSameByKey(a[1..], b[1..], key);
      assert a == [a[0]] + a[1..] && b == [b[0]] + b[1..];
    }
  }

  /** Canonical form: the sorted lists are equal exactly when the lists agree key by key. */
  lemma SortIsCanonical<T>(a: seq<T>, b: seq<T>, key: T -> string)
    ensures SortBy(a, key) == SortBy(b, key) <==> SameByKey(a, b, key)
  {
    SortIsStable(a, key);
    SortIsStable(b, key);
    if SameByKey(a, b, key) {
      forall k
        ensures WithKey(SortBy(a, key), key, k) == WithKey(SortBy(b, key), key, k)
      {
        assert WithKey(a, key, k) == WithKey(b, key, k);
      }
      SortedSameByKey(SortBy(a, key), SortBy(b, key), key);
    }
    if SortBy(a, key) == SortBy(b, key) {
      forall k
        ensures WithKey(a, key, k) == WithKey(b, key, k)
      {
        assert WithKey(SortBy(a, key), key, k) == WithKey(a, key, k);
        assert WithKey(SortBy(b, key), key, k) == WithKey(b, key, k);
      }
    }
  }

  ghost predicate UniqueKeys<T>(s: seq<T>, key: T -> string) {
    forall i, j :: 0 <= i < j < |s| ==> key(s[i]) != key(s[j])
  }

  /** With distinct keys, at most one element carries each key. */
  lemma {:induction false} UniqueKeysPick<T>(s: seq<T>, key: T -> string, k: string)
    requires UniqueKeys(s, key)
    ensures |WithKey(s, key, k)| <= 1
    ensures WithKey(s, key, k) == [] <==> forall i :: 0 <= i < |s| ==> key(s[i]) != k
    ensures forall i :: 0 <= i < |s| && key(s[i]) == k ==> WithKey(s, key, k) == [s[i]]
  {
    if s != [] {
      assert UniqueKeys(s[1..], key);
      UniqueKeysPick(s[1..], key, k);
      forall i | 0 <= i < |s| && key(s[i]) == k
        ensures WithKey(s, key, k) == [s[i]]
      {
        if i == 0 {
          assert forall j :: 0 <= j < |s[1..]| ==> key(s[1..][j]) != k;
        } else {
          assert s[1..][i - 1] == s[i];
        }
      }
      assert forall i :: 0 < i < |s| ==> s[i] == s[1..][i - 1];
    }
  }
}
