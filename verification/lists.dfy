/**
 * The list operations the day view performs on its in-memory lists of
 * records identified by an `id`: look-up of the first record with an id
 * (`list.find`), the upsert of a saved record (`map` over the list when the
 * id exists, append otherwise) and deletion by id (`list.filter`). Records
 * are of any type; `key` reads the id of a record.
 */
module Lists {
  import opened Wrappers

  predicate HasKey<T, K(==)>(s: seq<T>, key: T -> K, k: K) {
    exists i :: 0 <= i < |s| && key(s[i]) == k
  }

  /** No two records of the list carry the same id. */
  predicate UniqueKeys<T, K(==)>(s: seq<T>, key: T -> K) {
    forall i, j :: 0 <= i < j < |s| ==> key(s[i]) != key(s[j])
  }

  /** `s.find(i => i.id === k)`: the first record with id `k`, if any. */
  function Find<T, K(==)>(s: seq<T>, key: T -> K, k: K): (r: Option<T>)
    ensures r.Some? <==> HasKey(s, key, k)
    ensures r.Some? ==> exists i :: 0 <= i < |s| && s[i] == r.value && key(s[i]) == k &&
                                    forall j :: 0 <= j < i ==> key(s[j]) != k
  {
    if s == [] then None
    else if key(s[0]) == k then Some(s[0])
    else
      var r := Find(s[1..], key, k);
      assert forall i :: 0 < i < |s| ==> s[i] == s[1..][i - 1];
      r
  }

  /** `s.map(i => i.id === x.id ? x : i)`. */
  function ReplaceKey<T, K(==)>(s: seq<T>, key: T -> K, x: T): (r: seq<T>)
    ensures |r| == |s|
    ensures forall i :: 0 <= i < |s| ==> r[i] == if key(s[i]) == key(x) then x else s[i]
  {
    if s == [] then [] else [if key(s[0]) == key(x) then x else s[0]] + ReplaceKey(s[1..], key, x)
  }

  /** `s.filter(i => i.id !== k)`. */
  function RemoveKey<T, K(==)>(s: seq<T>, key: T -> K, k: K): (r: seq<T>)
    ensures |r| <= |s|
    ensures forall i :: 0 <= i < |r| ==> r[i] in s && key(r[i]) != k
    ensures forall i :: 0 <= i < |s| && key(s[i]) != k ==> s[i] in r
  {
    if s == [] then []
    else if key(s[0]) == k then RemoveKey(s[1..], key, k)
    else [s[0]] + RemoveKey(s[1..], key, k)
  }

  /**
   * The upsert of `saveItem`: when a record with the id of `x` exists, every
   * such record is replaced by `x` in place and the length is kept;
   * otherwise `x` is appended after the unchanged earlier records.
   */
  function Upsert<T, K(==)>(s: seq<T>, key: T -> K, x: T): (r: seq<T>)
    ensures HasKey(s, key, key(x)) ==>
      (|r| == |s| && forall i :: 0 <= i < |s| ==> r[i] == if key(s[i]) == key(x) then x else s[i])
    ensures !HasKey(s, key, key(x)) ==> |r| == |s| + 1 && r[..|s|] == s && r[|s|] == x
  {
    if Find(s, key, key(x)).Some? then ReplaceKey(s, key, x) else s + [x]
  }

  /** Deletion keeps the order of what it keeps: it distributes over concatenation. */
  lemma {:induction false} RemoveKeyAppend<T, K>(a: seq<T>, b: seq<T>, key: T -> K, k: K)
    ensures RemoveKey(a + b, key, k) == RemoveKey(a, key, k) + RemoveKey(b, key, k)
  {
    if a != [] {
      assert (a + b)[1..] == a[1..] + b;
      RemoveKeyAppend(a[1..], b, key, k);
    } else {
      assert a + b == b;
    }
  }

  /** A list with no record of id `k` is left as it is by deletion. */
  lemma {:induction false} RemoveKeyAbsent<T, K>(s: seq<T>, key: T -> K, k: K)
    requires !HasKey(s, key, k)
    ensures RemoveKey(s, key, k) == s
  {
    if s != [] {
      assert !HasKey(s[1..], key, k) by {
        forall i | 0 <= i < |s[1..]| ensures key(s[1..][i]) != k {
          assert s[1..][i] == s[i + 1];
        }
      }
      RemoveKeyAbsent(s[1..], key, k);
    }
  }

  /** Replacing the records of id `k` and then deleting id `k` is deleting id `k`. */
  lemma {:induction false} RemoveAfterReplace<T, K>(s: seq<T>, key: T -> K, x: T)
    ensures RemoveKey(ReplaceKey(s, key, x), key, key(x)) == RemoveKey(s, key, key(x))
  {
    if s != [] {
      RemoveAfterReplace(s[1..], key, x);
      assert ReplaceKey(s, key, x)[1..] == ReplaceKey(s[1..], key, x);
    }
  }

  /**
   * An upsert leaves every record with another id exactly where it was:
   * removing the saved id afterwards gives what removing it before gives.
   */
  lemma UpsertKeepsOthers<T, K>(s: seq<T>, key: T -> K, x: T)
    ensures RemoveKey(Upsert(s, key, x), key, key(x)) == RemoveKey(s, key, key(x))
  {
    if HasKey(s, key, key(x)) {
      RemoveAfterReplace(s, key, x);
    } else {
      RemoveKeyAppend(s, [x], key, key(x));
      assert RemoveKey([x], key, key(x)) == [];
    }
  }

  /** After an upsert, looking up the saved id finds the saved record. */
  lemma UpsertThenFind<T, K>(s: seq<T>, key: T -> K, x: T)
    ensures Find(Upsert(s, key, x), key, key(x)) == Some(x)
  {
    var r := Upsert(s, key, x);
    assert HasKey(r, key, key(x)) by {
      if HasKey(s, key, key(x)) {
        var i :| 0 <= i < |s| && key(s[i]) == key(x);
        assert r[i] == x;
      } else {
        assert r[|s|] == x;
      }
    }
    var i :| 0 <= i < |r| && r[i] == Find(r, key, key(x)).value && key(r[i]) == key(x) &&
             forall j :: 0 <= j < i ==> key(r[j]) != key(x);
    if !HasKey(s, key, key(x)) && i < |s| {
      assert r[i] == s[i];
    }
  }

  /** Saving the same record twice is the same as saving it once. */
  lemma UpsertIdempotent<T, K>(s: seq<T>, key: T -> K, x: T)
    ensures Upsert(Upsert(s, key, x), key, x) == Upsert(s, key, x)
  {
    var r := Upsert(s, key, x);
    UpsertThenFind(s, key, x);
    var r2 := Upsert(r, key, x);
    assert |r2| == |r|;
    forall i | 0 <= i < |r| ensures r2[i] == r[i] {
      if !HasKey(s, key, key(x)) && i < |s| {
        assert r[i] == s[i];
      }
    }
  }

  /** Upserting keeps the ids of a list unique, whatever record is saved. */
  lemma UpsertKeepsUnique<T, K>(s: seq<T>, key: T -> K, x: T)
    requires UniqueKeys(s, key)
    ensures UniqueKeys(Upsert(s, key, x), key)
  {
    var r := Upsert(s, key, x);
    if !HasKey(s, key, key(x)) {
      forall i, j | 0 <= i < j < |r| ensures key(r[i]) != key(r[j]) {
        if j == |s| {
          assert r[i] == s[i];
        } else {
          assert r[i] == s[i] && r[j] == s[j];
        }
      }
    } else {
      forall i, j | 0 <= i < j < |r| ensures key(r[i]) != key(r[j]) {
        assert key(r[i]) == key(s[i]) && key(r[j]) == key(s[j]);
      }
    }
  }

  /** Deleting keeps the ids of a list unique. */
  lemma {:induction false} RemoveKeepsUnique<T, K>(s: seq<T>, key: T -> K, k: K)
    requires UniqueKeys(s, key)
    ensures UniqueKeys(RemoveKey(s, key, k), key)
  {
    if s != [] {
      var tail := s[1..];
      assert UniqueKeys(tail, key) by {
        forall i, j | 0 <= i < j < |tail| ensures key(tail[i]) != key(tail[j]) {
          assert tail[i] == s[i + 1] && tail[j] == s[j + 1];
        }
      }
      RemoveKeepsUnique(tail, key, k);
      var rt := RemoveKey(tail, key, k);
      if key(s[0]) != k {
        var r := [s[0]] + rt;
        forall i, j | 0 <= i < j < |r| ensures key(r[i]) != key(r[j]) {
          if i == 0 {
            assert r[j] == rt[j - 1] && rt[j - 1] in tail;
            var m :| 0 <= m < |tail| && tail[m] == rt[j - 1];
            assert s[m + 1] == tail[m];
            assert key(s[0]) != key(s[m + 1]);
          } else {
            assert r[i] == rt[i - 1] && r[j] == rt[j - 1];
          }
        }
      }
    }
  }
}
