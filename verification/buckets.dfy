/**
  The per-cell note lists that `Measure` (`noteMap`) and `Chart`
  (`gridNoteList`) keep in a `Dictionary<int, List<Note>>` keyed by
  `Row * 4 + Column`. A .NET dictionary that is only ever added to
  enumerates its keys in first-insertion order, so the dictionary is a
  sequence of distinct keys beside a map from key to list.
*/
module Buckets {
  import opened Notes

  datatype Buckets = Buckets(keys: seq<int>, lists: map<int, seq<Note>>)

  /** Distinct keys, exactly the keys of the map, non-empty lists, and
      every note filed under its own cell. */
  predicate Valid(b: Buckets) {
    && (forall i, j :: 0 <= i < j < |b.keys| ==> b.keys[i] != b.keys[j])
    && (forall k :: k in b.lists ==> k in b.keys)
    && (forall i :: 0 <= i < |b.keys| ==> b.keys[i] in b.lists)
    && (forall k :: k in b.lists ==> |b.lists[k]| > 0)
    && (forall k, i :: k in b.lists && 0 <= i < |b.lists[k]| ==> Cell(b.lists[k][i]) == k)
  }

  const Empty := Buckets([], map[])

  /** A key's list may be replaced by any non-empty list of notes of that
      cell. */
  lemma ReplaceValid(b: Buckets, k: int, l: seq<Note>)
    requires Valid(b) && k in b.lists && |l| > 0
    requires forall i :: 0 <= i < |l| ==> Cell(l[i]) == k
    ensures Valid(Buckets(b.keys, b.lists[k := l]))
  {
  }

  /** The lists of `keys`, concatenated in key order. */
  function FlattenKeys(keys: seq<int>, lists: map<int, seq<Note>>): seq<Note>
    requires forall i :: 0 <= i < |keys| ==> keys[i] in lists
  {
    if |keys| == 0 then []
    else FlattenKeys(keys[..|keys| - 1], lists) + lists[keys[|keys| - 1]]
  }

  /** `SelectMany(pair => pair.Value)`: every note, bucket by bucket. */
  function Flatten(b: Buckets): seq<Note>
    requires Valid(b)
  {
    FlattenKeys(b.keys, b.lists)
  }

  /** The concatenation does not look at lists of other keys. */
  lemma {:induction false} FlattenUntouched(keys: seq<int>, lists: map<int, seq<Note>>, k: int, l: seq<Note>)
    requires forall i :: 0 <= i < |keys| ==> keys[i] in lists
    requires k !in keys
    ensures FlattenKeys(keys, lists[k := l]) == FlattenKeys(keys, lists)
    decreases |keys|
  {
    if |keys| > 0 {
      FlattenUntouched(keys[..|keys| - 1], lists, k, l);
    }
  }

  /** Replacing the list of a key present once changes the concatenation
      by exactly the old and the new list. */
  lemma {:induction false} FlattenReplace(keys: seq<int>, lists: map<int, seq<Note>>, k: int, l: seq<Note>)
    requires forall i :: 0 <= i < |keys| ==> keys[i] in lists
    requires forall i, j :: 0 <= i < j < |keys| ==> keys[i] != keys[j]
    requires k in keys
    ensures multiset(FlattenKeys(keys, lists[k := l])) + multiset(lists[k])
            == multiset(FlattenKeys(keys, lists)) + multiset(l)
    decreases |keys|
  {
    var front := keys[..|keys| - 1];
    var last := keys[|keys| - 1];
    if last == k {
      assert k !in front by {
        forall i | 0 <= i < |front|
          ensures front[i] != k
        {
          assert keys[i] != keys[|keys| - 1];
        }
      }
      FlattenUntouched(front, lists, k, l);
    } else {
      assert k in front by {
        var i :| 0 <= i < |keys| && keys[i] == k;
        assert front[i] == k;
      }
      FlattenReplace(front, lists, k, l);
      assert lists[k := l][last] == lists[last];
      assert FlattenKeys(keys, lists[k := l]) == FlattenKeys(front, lists[k := l]) + lists[last];
      assert FlattenKeys(keys, lists) == FlattenKeys(front, lists) + lists[last];
      assert multiset(FlattenKeys(keys, lists[k := l]))
             == multiset(FlattenKeys(front, lists[k := l])) + multiset(lists[last]);
      assert multiset(FlattenKeys(keys, lists))
             == multiset(FlattenKeys(front, lists)) + multiset(lists[last]);
      var A := multiset(FlattenKeys(front, lists[k := l]));
      var B := multiset(FlattenKeys(front, lists));
      assert A + multiset(lists[k]) == B + multiset(l);
      assert (A + multiset(lists[last])) + multiset(lists[k])
             == (B + multiset(lists[last])) + multiset(l) by {
        assert (A + multiset(lists[last])) + multiset(lists[k]) == (A + multiset(lists[k])) + multiset(lists[last]);
      }
    }
  }

  /** Replacing a list by one of the same length keeps the total length. */
  lemma {:induction false} FlattenSameLength(keys: seq<int>, lists: map<int, seq<Note>>, k: int, l: seq<Note>)
    requires forall i :: 0 <= i < |keys| ==> keys[i] in lists
    requires k in lists && |l| == |lists[k]|
    ensures |FlattenKeys(keys, lists[k := l])| == |FlattenKeys(keys, lists)|
    decreases |keys|
  {
    if |keys| > 0 {
      FlattenSameLength(keys[..|keys| - 1], lists, k, l);
    }
  }

  /** Replacing a list by itself with one note more adds that note. */
  lemma FlattenGrow(keys: seq<int>, lists: map<int, seq<Note>>, k: int, l: seq<Note>, n: Note)
    requires forall i :: 0 <= i < |keys| ==> keys[i] in lists
    requires forall i, j :: 0 <= i < j < |keys| ==> keys[i] != keys[j]
    requires k in keys && multiset(l) == multiset(lists[k]) + multiset{n}
    ensures multiset(FlattenKeys(keys, lists[k := l])) == multiset(FlattenKeys(keys, lists)) + multiset{n}
  {
    FlattenReplace(keys, lists, k, l);
    var a := multiset(FlattenKeys(keys, lists[k := l]));
    var b := multiset(FlattenKeys(keys, lists));
    var m := multiset(lists[k]);
    assert a + m == b + m + multiset{n};
    forall e
      ensures a[e] == (b + multiset{n})[e]
    {
      assert (a + m)[e] == (b + m + multiset{n})[e];
    }
  }

  /** Adding a new key at the end appends its list. */
  lemma FlattenNewKey(b: Buckets, k: int, l: seq<Note>)
    requires Valid(b) && k !in b.lists
    ensures forall i :: 0 <= i < |b.keys + [k]| ==> (b.keys + [k])[i] in b.lists[k := l]
    ensures FlattenKeys(b.keys + [k], b.lists[k := l]) == Flatten(b) + l
  {
    assert (b.keys + [k])[..|b.keys|] == b.keys;
    FlattenUntouched(b.keys, b.lists, k, l);
  }
}
