/**
  The insertion-ordered map the sources build answers and postings with: setting a key that
  is present replaces the value where it stands, setting a new key appends it.
*/
module InsertionMap {
  import opened Common
  import opened Ordering

  /** The position of the first element with this key, or the length. */
  function IndexOf<T>(s: seq<T>, k: string, key: T -> string): (i: nat)
    ensures i <= |s|
    ensures i < |s| ==> key(s[i]) == k
    ensures forall j :: 0 <= j < i ==> key(s[j]) != k
  {
    if s == [] || key(s[0]) == k then 0 else 1 + IndexOf(s[1..], k, key)
  }

  ghost predicate HasKey<T>(s: seq<T>, k: string, key: T -> string) {
    exists i :: 0 <= i < |s| && key(s[i]) == k
  }

  function Put<T>(s: seq<T>, x: T, key: T -> string): seq<T> {
    var i := IndexOf(s, key(x), key);
    if i < |s| then s[i := x] else s + [x]
  }

  /** `[...new Map(s.map(x => [key(x), x])).values()]` */
  function Collapsed<T>(s: seq<T>, key: T -> string): seq<T> {
    if s == [] then [] else Put(Collapsed(s[..|s| - 1], key), s[|s| - 1], key)
  }

  /** `x` is the last element of `s` with its key. */
  ghost predicate LastWithKey<T>(s: seq<T>, x: T, key: T -> string) {
    exists i :: 0 <= i < |s| && s[i] == x && forall j :: i < j < |s| ==> key(s[j]) != key(x)
  }

  lemma PutKeepsKeys<T>(s: seq<T>, x: T, key: T -> string)
    requires UniqueKeys(s, key)
    ensures UniqueKeys(Put(s, x, key), key)
    ensures |s| <= |Put(s, x, key)| && forall i :: 0 <= i < |s| ==> key(Put(s, x, key)[i]) == key(s[i])
    ensures forall i :: 0 <= i < |Put(s, x, key)| ==>
              Put(s, x, key)[i] == (if key(Put(s, x, key)[i]) == key(x) then x else s[i])
    ensures HasKey(Put(s, x, key), key(x), key)
  {
  }

  /** One element per key, the last one given, in the order the keys first appear. */
  lemma {:induction false} CollapsedIsLastOfEach<T>(s: seq<T>, key: T -> string)
    ensures UniqueKeys(Collapsed(s, key), key)
    ensures forall i :: 0 <= i < |Collapsed(s, key)| ==> LastWithKey(s, Collapsed(s, key)[i], key)
    ensures forall i :: 0 <= i < |s| ==> HasKey(Collapsed(s, key), key(s[i]), key)
  {
    if s != [] {
      var n := |s| - 1;
      var before, after := Collapsed(s[..n], key), Collapsed(s, key);
      CollapsedIsLastOfEach(s[..n], key);
      PutKeepsKeys(before, s[n], key);
      forall i | 0 <= i < |after|
        ensures LastWithKey(s, after[i], key)
      {
        if key(after[i]) == key(s[n]) {
          assert s[n] == after[i];
        } else {
          assert LastWithKey(s[..n], before[i], key);
          var j :| 0 <= j < n && s[..n][j] == before[i] && forall m :: j < m < n ==> key(s[..n][m]) != key(before[i]);
          assert s[j] == after[i] && forall m :: j < m < |s| ==> key(s[m]) != key(after[i]);
        }
      }
      forall i | 0 <= i < |s|
        ensures HasKey(after, key(s[i]), key)
      {
        if i < n {
          assert s[..n][i] == s[i];
          var j :| 0 <= j < |before| && key(before[j]) == key(s[i]);
          assert key(after[j]) == key(s[i]);
        }
      }
    }
  }

  /** Where the key first appears. */
  ghost predicate FirstAt<T>(s: seq<T>, k: string, i: int, key: T -> string) {
    0 <= i < |s| && key(s[i]) == k && forall j :: 0 <= j < i ==> key(s[j]) != k
  }

  /** The elements stand in the order their keys first appear. */
  ghost predicate InFirstOrder<T>(s: seq<T>, collapsed: seq<T>, key: T -> string) {
    forall i, m, a, b ::
      0 <= i < m < |collapsed| && FirstAt(s, key(collapsed[i]), a, key) && FirstAt(s, key(collapsed[m]), b, key) ==> a < b
  }

  lemma {:induction false} CollapsedKeepsOrder<T>(s: seq<T>, key: T -> string)
    ensures InFirstOrder(s, Collapsed(s, key), key)
  {
    if s != [] {
      var n := |s| - 1;
      var before, after := Collapsed(s[..n], key), Collapsed(s, key);
      CollapsedKeepsOrder(s[..n], key);
      CollapsedIsLastOfEach(s[..n], key);
      PutKeepsKeys(before, s[n], key);
      assert |after| <= |before| + 1;
      forall i, m, a, b | 0 <= i < m < |after| && FirstAt(s, key(after[i]), a, key) && FirstAt(s, key(after[m]), b, key)
        ensures a < b
      {
        assert key(after[i]) == key(before[i]);
        EarlierIsFirst(s, before, i, a, key);
        if m < |before| {
          EarlierIsFirst(s, before, m, b, key);
        } else {
          forall j | 0 <= j < n
            ensures key(s[j]) != key(after[m])
          {
            assert s[..n][j] == s[j] && HasKey(before, key(s[..n][j]), key);
          }
        }
      }
    }
  }

  lemma EarlierIsFirst<T>(s: seq<T>, before: seq<T>, i: nat, a: int, key: T -> string)
    requires s != [] && before == Collapsed(s[..|s| - 1], key) && i < |before| && FirstAt(s, key(before[i]), a, key)
    ensures FirstAt(s[..|s| - 1], key(before[i]), a, key)
  {
    var init := s[..|s| - 1];
    CollapsedIsLastOfEach(init, key);
    assert LastWithKey(init, before[i], key);
    var j :| 0 <= j < |init| && init[j] == before[i];
    assert s[j] == before[i];
    assert forall k :: 0 <= k < |init| ==> init[k] == s[k];
  }

  lemma {:induction false} CollapsedIsIdentity<T>(s: seq<T>, key: T -> string)
    requires UniqueKeys(s, key)
    ensures Collapsed(s, key) == s
  {
    if s != [] {
      var n := |s| - 1;
      CollapsedIsIdentity(s[..n], key);
      assert s == s[..n] + [s[n]];
    }
  }

  class KeyedMap<T> {
    const key: T -> string
    var order: seq<string>
    var entries: map<string, T>

    ghost predicate Valid()
      reads this
    {
      && (forall i, j :: 0 <= i < j < |order| ==> order[i] != order[j])
      && (forall i :: 0 <= i < |order| ==> order[i] in entries && key(entries[order[i]]) == order[i])
      && (forall k :: k in entries ==> k in order)
    }

    ghost function Contents(): (s: seq<T>)
      reads this
      requires Valid()
      ensures UniqueKeys(s, key)
      ensures |s| == |order| && forall i :: 0 <= i < |s| ==> s[i] == entries[order[i]]
    {
      seq(|order|, i requires 0 <= i < |order| reads this requires Valid() => entries[order[i]])
    }

    constructor (key: T -> string)
      ensures Valid() && fresh(this) && this.key == key && Contents() == []
    {
      this.key := key;
      order, entries := [], map[];
    }

    method Get(k: string) returns (found: Option<T>)
      requires Valid()
      ensures found.Some? <==> HasKey(Contents(), k, key)
      ensures found.Some? ==> found.value in Contents() && key(found.value) == k
    {
      if k in entries {
        ghost var i :| 0 <= i < |order| && order[i] == k;
        assert Contents()[i] == entries[k];
        found := Some(entries[k]);
      } else {
        found := None;
        assert forall i :: 0 <= i < |order| ==> key(Contents()[i]) == order[i];
      }
    }

    method Set(x: T)
      requires Valid()
      modifies this
      ensures Valid() && Contents() == Put(old(Contents()), x, key)
    {
      var k := key(x);
      ghost var was := Contents();
      assert forall i :: 0 <= i < |was| ==> key(was[i]) == order[i];
      if k !in entries {
        order := order + [k];
      }
      entries := entries[k := x];
    }

    method Values() returns (values: seq<T>)
      requires Valid()
      ensures values == Contents()
    {
      values := [];
      for i := 0 to |order|
        invariant values == Contents()[..i]
      {
        values := values + [entries[order[i]]];
      }
    }
  }
}
