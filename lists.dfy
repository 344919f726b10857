/** The list updates the store applies to the persisted document: find the first
    entry with a key (Array.prototype.findIndex), replace it or append (upsert),
    drop every entry with a key (filter `!==`) and keep every entry with a key
    (filter `===`). Generic in the entry type and the key function. */
module Lists {

  /** No two entries share a key. */
  ghost predicate UniqueKeys<T, K>(s: seq<T>, key: T -> K) {
    forall i, j :: 0 <= i < j < |s| ==> key(s[i]) != key(s[j])
  }

  /** Index of the first entry whose key is `k`, or -1 when there is none. */
  function IndexOfKey<T, K(==)>(s: seq<T>, key: T -> K, k: K): (i: int)
    ensures -1 <= i < |s|
    ensures 0 <= i ==> key(s[i]) == k && forall j :: 0 <= j < i ==> key(s[j]) != k
    ensures i == -1 <==> forall j :: 0 <= j < |s| ==> key(s[j]) != k
    decreases |s|
  {
    if s == [] then -1
    else if key(s[0]) == k then 0
    else
      var i := IndexOfKey(s[1..], key, k);
      if i < 0 then -1 else i + 1
  }

  /** Replace the first entry with the key of `x` by `x`, or append `x` when there is none. */
  function Upsert<T, K(==)>(s: seq<T>, key: T -> K, x: T): (r: seq<T>)
    ensures x in r
    ensures forall j :: 0 <= j < |r| ==> r[j] == x || r[j] in s
  {
    var i := IndexOfKey(s, key, key(x));
    if i >= 0 then assert s[i := x][i] == x; s[i := x] else s + [x]
  }

  /** An existing key: the first match is overwritten in place and nothing else moves. */
  lemma UpsertReplacesFirstMatch<T, K>(s: seq<T>, key: T -> K, x: T, i: nat)
    requires i < |s| && key(s[i]) == key(x)
    requires forall j :: 0 <= j < i ==> key(s[j]) != key(x)
    ensures |Upsert(s, key, x)| == |s|
    ensures Upsert(s, key, x)[i] == x
    ensures forall j :: 0 <= j < |s| && j != i ==> Upsert(s, key, x)[j] == s[j]
  {
    assert IndexOfKey(s, key, key(x)) == i;
  }

  /** A new key: `x` becomes the last entry and the earlier entries are unchanged. */
  lemma UpsertAppendsNewKey<T, K>(s: seq<T>, key: T -> K, x: T)
    requires forall j :: 0 <= j < |s| ==> key(s[j]) != key(x)
    ensures Upsert(s, key, x) == s + [x]
    ensures |Upsert(s, key, x)| == |s| + 1
  {
  }

  /** Upsert keeps keys unique, and afterwards exactly one entry carries the key of `x`: `x` itself. */
  lemma UpsertKeepsKeysUnique<T, K>(s: seq<T>, key: T -> K, x: T)
    requires UniqueKeys(s, key)
    ensures UniqueKeys(Upsert(s, key, x), key)
    ensures exists i :: 0 <= i < |Upsert(s, key, x)| && Upsert(s, key, x)[i] == x &&
              (forall j :: 0 <= j < |Upsert(s, key, x)| && key(Upsert(s, key, x)[j]) == key(x) ==> j == i)
  {
    var r := Upsert(s, key, x);
    var i := IndexOfKey(s, key, key(x));
    if i >= 0 {
      forall a, b | 0 <= a < b < |r| ensures key(r[a]) != key(r[b]) {
        if a == i {
          assert key(r[b]) == key(s[b]);
        } else if b == i {
          assert key(r[a]) == key(s[a]);
        }
      }
      assert r[i] == x;
    } else {
      assert r == s + [x];
      var n := |s|;
      assert r[n] == x;
    }
  }

  /** The entries whose key differs from `k`, in their original order. */
  function RemoveKey<T(!new), K(==)>(s: seq<T>, key: T -> K, k: K): (r: seq<T>)
    ensures |r| <= |s|
    ensures forall e :: e in r <==> e in s && key(e) != k
    decreases |s|
  {
    if s == [] then []
    else if key(s[0]) == k then RemoveKey(s[1..], key, k)
    else [s[0]] + RemoveKey(s[1..], key, k)
  }

  /** The entries whose key is `k`, in their original order. */
  function SelectKey<T(!new), K(==)>(s: seq<T>, key: T -> K, k: K): (r: seq<T>)
    ensures |r| <= |s|
    ensures forall e :: e in r <==> e in s && key(e) == k
    decreases |s|
  {
    if s == [] then []
    else if key(s[0]) == k then [s[0]] + SelectKey(s[1..], key, k)
    else SelectKey(s[1..], key, k)
  }

  /** Removing works segment by segment, so the survivors keep their relative order. */
  lemma {:induction false} RemoveKeyAppend<T(!new), K>(a: seq<T>, b: seq<T>, key: T -> K, k: K)
    ensures RemoveKey(a + b, key, k) == RemoveKey(a, key, k) + RemoveKey(b, key, k)
    decreases |a|
  {
    if a != [] {
      assert (a + b)[1..] == a[1..] + b;
      RemoveKeyAppend(a[1..], b, key, k);
    } else {
      assert a + b == b;
    }
  }

  /** Selecting works segment by segment, so the selected entries keep their relative order. */
  lemma {:induction false} SelectKeyAppend<T(!new), K>(a: seq<T>, b: seq<T>, key: T -> K, k: K)
    ensures SelectKey(a + b, key, k) == SelectKey(a, key, k) + SelectKey(b, key, k)
    decreases |a|
  {
    if a != [] {
      assert (a + b)[1..] == a[1..] + b;
      SelectKeyAppend(a[1..], b, key, k);
    } else {
      assert a + b == b;
    }
  }

  /** Removing a key that no entry has changes nothing. */
  lemma {:induction false} RemoveAbsentKey<T(!new), K>(s: seq<T>, key: T -> K, k: K)
    requires forall j :: 0 <= j < |s| ==> key(s[j]) != k
    ensures RemoveKey(s, key, k) == s
    decreases |s|
  {
    if s != [] {
      RemoveAbsentKey(s[1..], key, k);
      assert [s[0]] + s[1..] == s;
    }
  }

  /** Removing the same key twice is the same as removing it once. */
  lemma RemoveKeyIdempotent<T(!new), K>(s: seq<T>, key: T -> K, k: K)
    ensures RemoveKey(RemoveKey(s, key, k), key, k) == RemoveKey(s, key, k)
  {
    var r := RemoveKey(s, key, k);
    forall j | 0 <= j < |r| ensures key(r[j]) != k {
      assert r[j] in r;
    }
    RemoveAbsentKey(r, key, k);
  }

  /** Removing entries keeps keys unique. */
  lemma {:induction false} RemoveKeyKeepsUnique<T(!new), K>(s: seq<T>, key: T -> K, k: K)
    requires UniqueKeys(s, key)
    ensures UniqueKeys(RemoveKey(s, key, k), key)
    decreases |s|
  {
    if s != [] {
      assert UniqueKeys(s[1..], key) by {
        forall i, j | 0 <= i < j < |s[1..]| ensures key(s[1..][i]) != key(s[1..][j]) {
          assert s[1..][i] == s[i + 1] && s[1..][j] == s[j + 1];
        }
      }
      RemoveKeyKeepsUnique(s[1..], key, k);
      var rest := RemoveKey(s[1..], key, k);
      if key(s[0]) != k {
        var r := [s[0]] + rest;
        forall i, j | 0 <= i < j < |r| ensures key(r[i]) != key(r[j]) {
          if i == 0 {
            assert r[j] in rest;
            var m :| 0 <= m < |s[1..]| && s[1..][m] == r[j];
            assert s[m + 1] == r[j];
          } else {
            assert r[i] == rest[i - 1] && r[j] == rest[j - 1];
          }
        }
      }
    }
  }

  /** Selecting a key and removing it split the list: every entry lands in exactly one part. */
  lemma {:induction false} SelectRemovePartition<T(!new), K>(s: seq<T>, key: T -> K, k: K)
    ensures |SelectKey(s, key, k)| + |RemoveKey(s, key, k)| == |s|
    ensures multiset(SelectKey(s, key, k)) + multiset(RemoveKey(s, key, k)) == multiset(s)
    decreases |s|
  {
    if s != [] {
      SelectRemovePartition(s[1..], key, k);
      assert s == [s[0]] + s[1..];
    }
  }
}
