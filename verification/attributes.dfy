/**
 * Ordering a tag's attributes: the expected tags list their attributes in
 * ascending key order whatever order the options were given in, so the
 * (key, value) pairs are sorted by key. The keys of an option hash are
 * distinct, so the key order alone decides the result.
 */
module Attributes {
  import opened Lexicographic

  /** No key occurs twice, as in a Ruby Hash. */
  predicate UniqueKeys<V>(s: seq<(string, V)>)
  {
    forall i, j :: 0 <= i < j < |s| ==> s[i].0 != s[j].0
  }

  /** Keys strictly ascend from left to right. */
  predicate SortedByKey<V>(s: seq<(string, V)>)
  {
    forall i, j :: 0 <= i < j < |s| ==> Less(s[i].0, s[j].0)
  }

  /** Puts `x` before the first entry whose key sorts after its own. */
  function Insert<V>(x: (string, V), s: seq<(string, V)>): seq<(string, V)>
  {
    if |s| == 0 then [x]
    else if Less(x.0, s[0].0) then [x] + s
    else [s[0]] + Insert(x, s[1..])
  }

  /** Insertion sort by key. */
  function SortByKey<V>(s: seq<(string, V)>): seq<(string, V)>
  {
    if |s| == 0 then [] else Insert(s[0], SortByKey(s[1..]))
  }

  /** Inserting adds exactly one entry and loses none. */
  lemma {:induction false} InsertAddsOne<V>(x: (string, V), s: seq<(string, V)>)
    ensures multiset(Insert(x, s)) == multiset(s) + multiset{x}
    decreases |s|
  {
    if |s| > 0 && !Less(x.0, s[0].0) {
      InsertAddsOne(x, s[1..]);
      assert s == [s[0]] + s[1..];
    }
  }

  /** A key below the first key of a sorted sequence is below all of them. */
  lemma BelowFirstIsBelowAll<V>(k: string, s: seq<(string, V)>)
    requires SortedByKey(s) && |s| > 0 && Less(k, s[0].0)
    ensures forall j :: 0 <= j < |s| ==> Less(k, s[j].0)
  {
    forall j | 0 < j < |s| ensures Less(k, s[j].0) {
      LessTransitive(k, s[0].0, s[j].0);
    }
  }

  /** Every entry of `s` keyed above `k` makes `k` a lower bound of what remains. */
  lemma LowerBoundOfEntries<V>(k: string, r: seq<(string, V)>, s: seq<(string, V)>, x: (string, V))
    requires multiset(r) == multiset(s) + multiset{x}
    requires Less(k, x.0) && forall j :: 0 <= j < |s| ==> Less(k, s[j].0)
    ensures forall j :: 0 <= j < |r| ==> Less(k, r[j].0)
  {
    forall j | 0 <= j < |r| ensures Less(k, r[j].0) {
      assert r[j] in multiset(r);
      if r[j] != x {
        assert r[j] in multiset(s);
      }
    }
  }

  /** Inserting an entry with a new key keeps a sorted sequence sorted. */
  lemma {:induction false} InsertKeepsSorted<V>(x: (string, V), s: seq<(string, V)>)
    requires SortedByKey(s)
    requires forall i :: 0 <= i < |s| ==> s[i].0 != x.0
    ensures SortedByKey(Insert(x, s))
    decreases |s|
  {
    if |s| == 0 {
    } else if Less(x.0, s[0].0) {
      BelowFirstIsBelowAll(x.0, s);
    } else {
      var rest := Insert(x, s[1..]);
      InsertKeepsSorted(x, s[1..]);
      InsertAddsOne(x, s[1..]);
      LessConnected(x.0, s[0].0);
      LowerBoundOfEntries(s[0].0, rest, s[1..], x);
    }
  }

  /** Entries of a permutation of `s` have the keys entries of `s` have. */
  lemma PermutationKeepsKeysAway<V>(r: seq<(string, V)>, s: seq<(string, V)>, k: string)
    requires multiset(r) == multiset(s)
    requires forall i :: 0 <= i < |s| ==> s[i].0 != k
    ensures forall i :: 0 <= i < |r| ==> r[i].0 != k
  {
    forall i | 0 <= i < |r| ensures r[i].0 != k {
      assert r[i] in multiset(s);
    }
  }

  /** The entries after the first of a hash still have distinct keys, none of them the first key. */
  lemma UniqueKeysTail<V>(s: seq<(string, V)>)
    requires UniqueKeys(s) && |s| > 0
    ensures UniqueKeys(s[1..])
    ensures forall i :: 0 <= i < |s[1..]| ==> s[1..][i].0 != s[0].0
  {
    forall i, j | 0 <= i < j < |s[1..]| ensures s[1..][i].0 != s[1..][j].0 {
      assert s[1..][i] == s[i + 1] && s[1..][j] == s[j + 1];
    }
    forall i | 0 <= i < |s[1..]| ensures s[1..][i].0 != s[0].0 {
      assert s[1..][i] == s[i + 1];
    }
  }

  /** Sorting a hash's entries yields them all, each once, in ascending key order. */
  lemma {:induction false} SortByKeySortsAndPermutes<V>(s: seq<(string, V)>)
    requires UniqueKeys(s)
    ensures SortedByKey(SortByKey(s))
    ensures multiset(SortByKey(s)) == multiset(s)
    decreases |s|
  {
    if |s| > 0 {
      var rest := SortByKey(s[1..]);
      UniqueKeysTail(s);
      SortByKeySortsAndPermutes(s[1..]);
      PermutationKeepsKeysAway(rest, s[1..], s[0].0);
      InsertKeepsSorted(s[0], rest);
      InsertAddsOne(s[0], rest);
      assert s == [s[0]] + s[1..];
    }
  }

  lemma NoEntriesMeansEmpty<T>(s: seq<T>)
    requires forall x :: x !in s
    ensures s == []
  {
    forall x ensures multiset(s)[x] == 0 {
      assert x !in s;
    }
    assert multiset(s) == multiset{};
  }

  /** In a sorted sequence, what follows the first entry is every other entry. */
  lemma TailIsTheRest<V>(a: seq<(string, V)>, x: (string, V))
    requires SortedByKey(a) && |a| > 0
    ensures x in a[1..] <==> x in a && x != a[0]
  {
    if x in a[1..] {
      var k :| 1 <= k < |a| && a[k] == x;
      LessIrreflexive(a[0].0);
    }
    if x in a && x != a[0] {
      var m :| 0 <= m < |a| && a[m] == x;
      assert a[1..][m - 1] == x;
    }
  }

  /** Two key-sorted sequences with the same entries are the same sequence. */
  lemma {:induction false} SortedWithSameEntriesEqual<V>(a: seq<(string, V)>, b: seq<(string, V)>)
    requires SortedByKey(a) && SortedByKey(b)
    requires forall x :: x in a <==> x in b
    ensures a == b
    decreases |a|
  {
    if |a| == 0 {
      NoEntriesMeansEmpty(b);
    } else {
      assert a[0] in b;
      assert b[0] in a;
      var i :| 0 <= i < |a| && a[i] == b[0];
      var j :| 0 <= j < |b| && b[j] == a[0];
      if j > 0 {
        assert Less(b[0].0, b[j].0);
        if i == 0 {
          LessIrreflexive(a[0].0);
        } else {
          LessAsymmetric(a[0].0, a[i].0);
        }
      }
      forall x ensures x in a[1..] <==> x in b[1..] {
        TailIsTheRest(a, x);
        TailIsTheRest(b, x);
      }
      SortedWithSameEntriesEqual(a[1..], b[1..]);
      assert a == [a[0]] + a[1..] && b == [b[0]] + b[1..];
    }
  }

  /** The sorted order does not depend on the order the entries were supplied in. */
  lemma SortIgnoresInsertionOrder<V>(a: seq<(string, V)>, b: seq<(string, V)>)
    requires UniqueKeys(a) && UniqueKeys(b)
    requires forall x :: x in a <==> x in b
    ensures SortByKey(a) == SortByKey(b)
  {
    var sa, sb := SortByKey(a), SortByKey(b);
    SortByKeySortsAndPermutes(a);
    SortByKeySortsAndPermutes(b);
    forall x ensures x in sa <==> x in sb {
      calc {
        x in sa;
        x in multiset(sa);
        x in multiset(a);
        x in a;
        x in b;
        x in multiset(b);
        x in multiset(sb);
        x in sb;
      }
    }
    SortedWithSameEntriesEqual(sa, sb);
  }

  /** Any sorted rearrangement of the entries is what SortByKey produces. */
  lemma SortIsTheSortedArrangement<V>(s: seq<(string, V)>, p: seq<(string, V)>)
    requires UniqueKeys(s) && SortedByKey(p)
    requires multiset(p) == multiset(s)
    ensures SortByKey(s) == p
  {
    var r := SortByKey(s);
    SortByKeySortsAndPermutes(s);
    forall x ensures x in r <==> x in p {
      assert x in r <==> x in multiset(s);
      assert x in p <==> x in multiset(s);
    }
    SortedWithSameEntriesEqual(r, p);
  }
}
