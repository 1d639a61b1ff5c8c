/**
 * `dedupeIPs`: a stable, first-occurrence-wins removal of repeated entries.
 * `Dedup` is the specification (over any element type, since the properties do
 * not depend on the entries' shape); `DedupeIps` is the filtering loop with its
 * table of keys already seen.
 */
module Dedupe {
  import opened Records

  /** The set of elements of a sequence. */
  function Elems<T>(s: seq<T>): set<T>
  {
    set x | x in s
  }

  predicate NoDuplicates<T(==)>(s: seq<T>)
  {
    forall i, j :: 0 <= i < j < |s| ==> s[i] != s[j]
  }

  /** The position of the first occurrence of `x` in `s`. */
  function FirstIndex<T(==)>(s: seq<T>, x: T): (i: nat)
    requires x in s
    ensures i < |s| && s[i] == x && x !in s[..i]
  {
    if s[0] == x then 0 else 1 + FirstIndex(s[1..], x)
  }

  /** Keeps each element at its first occurrence, in input order. */
  function Dedup<T(==)>(s: seq<T>): seq<T>
  {
    if s == [] then []
    else
      var rest := Dedup(s[..|s| - 1]);
      if s[|s| - 1] in rest then rest else rest + [s[|s| - 1]]
  }

  /** Every input element, and nothing else, survives the dedup. */
  lemma {:induction false} DedupMembers<T(!new)>(s: seq<T>)
    ensures forall x :: x in Dedup(s) <==> x in s
  {
    if s != [] {
      var init := s[..|s| - 1];
      DedupMembers(init);
      assert s == init + [s[|s| - 1]];
    }
  }

  /** No two entries of the output are equal. */
  lemma {:induction false} DedupDistinct<T(!new)>(s: seq<T>)
    ensures NoDuplicates(Dedup(s))
  {
    if s != [] {
      DedupDistinct(s[..|s| - 1]);
    }
  }

  /** A first occurrence within a prefix is the first occurrence in the whole sequence. */
  lemma FirstIndexOfPrefix<T(!new)>(s: seq<T>, m: nat, x: T)
    requires m <= |s| && x in s[..m]
    ensures FirstIndex(s, x) == FirstIndex(s[..m], x)
  {
    var a, b := FirstIndex(s, x), FirstIndex(s[..m], x);
    assert s[..m][..b] == s[..b];
    assert forall k :: 0 <= k < b ==> s[..b][k] == s[k];
    assert forall k :: 0 <= k < a ==> s[..a][k] == s[k];
  }

  /**
   * The output lists the distinct elements by the position of their first
   * occurrence in the input: together with DedupMembers and DedupDistinct this
   * pins the output down completely.
   */
  lemma {:induction false} DedupFirstSeenOrder<T(!new)>(s: seq<T>)
    ensures forall i, j :: 0 <= i < j < |Dedup(s)| ==>
      && Dedup(s)[i] in s && Dedup(s)[j] in s
      && FirstIndex(s, Dedup(s)[i]) < FirstIndex(s, Dedup(s)[j])
  {
    if s != [] {
      var n := |s| - 1;
      var init := s[..n];
      var rest := Dedup(init);
      var d := Dedup(s);
      DedupFirstSeenOrder(init);
      DedupMembers(init);
      assert s == init + [s[n]];
      assert d == rest || (d == rest + [s[n]] && s[n] !in init);
      forall i, j | 0 <= i < j < |d|
        ensures d[i] in s && d[j] in s && FirstIndex(s, d[i]) < FirstIndex(s, d[j])
      {
        var x, y := rest[i], d[j];
        assert x == d[i] && x in rest;
        FirstIndexOfPrefix(s, n, x);
        if j < |rest| {
          assert y == rest[j] && y in rest;
          FirstIndexOfPrefix(s, n, y);
        } else {
          assert y == s[n];
          assert FirstIndex(s, y) == n;
        }
      }
    } else {
      assert Dedup(s) == [];
    }
  }

  /** A sequence without repeated entries is its own dedup. */
  lemma {:induction false} DedupOfDistinct<T(!new)>(s: seq<T>)
    requires NoDuplicates(s)
    ensures Dedup(s) == s
  {
    if s != [] {
      var init := s[..|s| - 1];
      DedupOfDistinct(init);
      assert forall k :: 0 <= k < |init| ==> init[k] == s[k];
      assert s == init + [s[|s| - 1]];
    }
  }

  /** Deduplicating twice is the same as deduplicating once. */
  lemma DedupIdempotent<T(!new)>(s: seq<T>)
    ensures Dedup(Dedup(s)) == Dedup(s)
  {
    DedupDistinct(s);
    DedupOfDistinct(Dedup(s));
  }

  /** The output has exactly one entry per distinct input element. */
  lemma {:induction false} DedupLength<T(!new)>(s: seq<T>)
    ensures |Dedup(s)| == |Elems(s)|
  {
    if s != [] {
      var init, last := s[..|s| - 1], s[|s| - 1];
      DedupLength(init);
      DedupMembers(init);
      assert s == init + [last];
      assert Elems(s) == Elems(init) + {last};
      if last in init {
        assert Elems(s) == Elems(init);
        assert Dedup(s) == Dedup(init);
      } else {
        assert last !in Elems(init);
        assert Dedup(s) == Dedup(init) + [last];
      }
    }
  }

  /**
   * `dedupeIPs`: filters the list, remembering in `hashTable` the key of every
   * entry kept so far; an entry whose key is already there is dropped.
   */
  method DedupeIps(dict: seq<IpRange>) returns (unique: seq<IpRange>)
    ensures unique == Dedup(dict)
    ensures NoDuplicates(unique)
    ensures forall e :: e in unique <==> e in dict
  {
    var hashTable: set<IpRange> := {};
    unique := [];
    for i := 0 to |dict|
      invariant unique == Dedup(dict[..i])
      invariant hashTable == Elems(dict[..i])
    {
      var el := dict[i];
      DedupMembers(dict[..i]);
      var seen := el in hashTable;
      assert dict[..i + 1] == dict[..i] + [el];
      if !seen {
        hashTable := hashTable + {el};
        unique := unique + [el];
      }
    }
    assert dict[..|dict|] == dict;
    DedupDistinct(dict);
    DedupMembers(dict);
  }
}
