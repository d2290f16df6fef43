/** Removal of exact duplicates, keeping first occurrences, as pandas'
    `drop_duplicates()` does with its default `keep='first'`. */
module Distinct {

  predicate NoDups<T(==)>(s: seq<T>) {
    forall i, j :: 0 <= i < j < |s| ==> s[i] != s[j]
  }

  /** The index at which `x` first occurs in `s`. */
  function FirstIndex<T(==)>(s: seq<T>, x: T): (k: nat)
    requires x in s
    ensures k < |s| && s[k] == x && x !in s[..k]
  {
    if s[0] == x then 0
    else
      var k := FirstIndex(s[1..], x);
      assert s[..k + 1] == [s[0]] + s[1..][..k];
      1 + k
  }

  /** `r` lists the distinct elements of `s`, each once, in the order of
      their first occurrences in `s`. */
  predicate FirstOccurrenceOrder<T(==)>(s: seq<T>, r: seq<T>) {
    && NoDups(r)
    && (forall i :: 0 <= i < |r| ==> r[i] in s)
    && (forall i :: 0 <= i < |s| ==> s[i] in r)
    && (forall i, j :: 0 <= i < j < |r| ==> FirstIndex(s, r[i]) < FirstIndex(s, r[j]))
  }

  /** Any index at which `x` occurs with no earlier occurrence is its first index. */
  lemma FirstIndexUnique<T>(s: seq<T>, x: T, k: nat)
    requires k < |s| && s[k] == x && x !in s[..k]
    ensures FirstIndex(s, x) == k
  {
  }

  /** Appending elements does not move the first occurrence of an element
      already present. */
  lemma FirstIndexAppend<T>(s: seq<T>, b: seq<T>, x: T)
    requires x in s
    ensures FirstIndex(s + b, x) == FirstIndex(s, x)
  {
    var k := FirstIndex(s, x);
    assert (s + b)[..k] == s[..k];
    FirstIndexUnique(s + b, x, k);
  }

  /** drop_duplicates(): keeps the first occurrence of every element. */
  function Dedup<T(==)>(s: seq<T>): (r: seq<T>)
    ensures FirstOccurrenceOrder(s, r)
  {
    if |s| == 0 then []
    else
      var init, x := s[..|s| - 1], s[|s| - 1];
      var d := Dedup(init);
      assert s == init + [x];
      forall y | y in init
        ensures FirstIndex(s, y) == FirstIndex(init, y)
      {
        FirstIndexAppend(init, [x], y);
      }
      if x in init then d
      else
        FirstIndexUnique(s, x, |init|);
        d + [x]
  }

  /** Dedup keeps exactly the elements of its input. */
  lemma DedupMembers<T>(s: seq<T>, x: T)
    ensures x in Dedup(s) <==> x in s
  {
    var r := Dedup(s);
    if x in r {
      var i :| 0 <= i < |r| && r[i] == x;
    }
    if x in s {
      var i :| 0 <= i < |s| && s[i] == x;
    }
  }

  /** One step of Dedup, for an element appended at the end. */
  lemma DedupSnoc<T>(s: seq<T>, x: T)
    ensures Dedup(s + [x]) == if x in s then Dedup(s) else Dedup(s) + [x]
  {
    assert (s + [x])[..|s|] == s;
  }

  /** Removing a last element that occurs earlier keeps the order of first
      occurrences. */
  lemma FirstOrderSnocSeen<T>(init: seq<T>, x: T, r: seq<T>)
    requires x in init && FirstOccurrenceOrder(init + [x], r)
    ensures FirstOccurrenceOrder(init, r)
  {
    forall i | 0 <= i < |r|
      ensures r[i] in init && FirstIndex(init + [x], r[i]) == FirstIndex(init, r[i])
    {
      assert r[i] in init + [x];
      FirstIndexAppend(init, [x], r[i]);
    }
    forall i | 0 <= i < |init|
      ensures init[i] in r
    {
      assert init[i] == (init + [x])[i];
    }
  }

  /** A last element that occurs nowhere earlier comes last in the order of
      first occurrences. */
  lemma FirstOrderSnocUnseen<T>(init: seq<T>, x: T, r: seq<T>)
    requires x !in init && FirstOccurrenceOrder(init + [x], r)
    ensures |r| > 0 && r[|r| - 1] == x
    ensures FirstOccurrenceOrder(init, r[..|r| - 1])
  {
    UnseenComesLast(init, x, r);
    var r' := r[..|r| - 1];
    UnseenOthersKept(init, x, r);
    forall i | 0 <= i < |init|
      ensures init[i] in r'
    {
      assert init[i] == (init + [x])[i];
      var n :| 0 <= n < |r| && r[n] == init[i];
      assert n != |r| - 1;
      assert r'[n] == r[n];
    }
  }

  lemma UnseenComesLast<T>(init: seq<T>, x: T, r: seq<T>)
    requires x !in init && FirstOccurrenceOrder(init + [x], r)
    ensures |r| > 0 && r[|r| - 1] == x
  {
    var s := init + [x];
    assert s[|init|] == x;
    FirstIndexUnique(s, x, |init|);
    var m :| 0 <= m < |r| && r[m] == x;
    assert FirstIndex(s, r[|r| - 1]) <= |init|;
    assert m == |r| - 1;
  }

  lemma UnseenOthersKept<T>(init: seq<T>, x: T, r: seq<T>)
    requires x !in init && FirstOccurrenceOrder(init + [x], r)
    requires |r| > 0 && r[|r| - 1] == x
    ensures forall i :: 0 <= i < |r| - 1 ==>
              r[i] in init && FirstIndex(init + [x], r[i]) == FirstIndex(init, r[i])
  {
    forall i | 0 <= i < |r| - 1
      ensures r[i] in init && FirstIndex(init + [x], r[i]) == FirstIndex(init, r[i])
    {
      assert r[i] != r[|r| - 1];
      assert r[i] in init + [x];
      FirstIndexAppend(init, [x], r[i]);
    }
  }

  /** The first-occurrence order determines the result: Dedup is the only
      sequence with the properties of its contract. */
  lemma {:induction false} DedupUnique<T>(s: seq<T>, r: seq<T>)
    requires FirstOccurrenceOrder(s, r)
    ensures r == Dedup(s)
  {
    if |s| > 0 {
      var init, x := s[..|s| - 1], s[|s| - 1];
      assert s == init + [x];
      if x in init {
        assert r == Dedup(init) by {
          FirstOrderSnocSeen(init, x, r);
          DedupUnique(init, r);
        }
      } else {
        assert |r| > 0 && r == r[..|r| - 1] + [x] && r[..|r| - 1] == Dedup(init) by {
          FirstOrderSnocUnseen(init, x, r);
          DedupUnique(init, r[..|r| - 1]);
        }
      }
      DedupSnoc(init, x);
    }
  }

  /** A sequence without duplicates is its own Dedup. */
  lemma DedupOfDistinct<T>(s: seq<T>)
    requires NoDups(s)
    ensures Dedup(s) == s
  {
    forall i | 0 <= i < |s|
      ensures FirstIndex(s, s[i]) == i
    {
      FirstIndexUnique(s, s[i], i);
    }
    DedupUnique(s, s);
  }

  /** Dedup of a longer sequence extends Dedup of its prefix. */
  lemma {:induction false} DedupPrefix<T>(a: seq<T>, b: seq<T>)
    ensures Dedup(a) <= Dedup(a + b)
  {
    if |b| > 0 {
      var b', x := b[..|b| - 1], b[|b| - 1];
      assert a + b == (a + b') + [x];
      DedupSnoc(a + b', x);
      DedupPrefix(a, b');
    } else {
      assert a + b == a;
    }
  }

  /** Deduplicating a prefix first does not change the outcome. */
  lemma {:induction false} DedupAbsorbs<T>(a: seq<T>, b: seq<T>)
    ensures Dedup(Dedup(a) + b) == Dedup(a + b)
  {
    if |b| == 0 {
      assert Dedup(a) + b == Dedup(a) && a + b == a;
      DedupOfDistinct(Dedup(a));
    } else {
      var b', x := b[..|b| - 1], b[|b| - 1];
      assert Dedup(a) + b == (Dedup(a) + b') + [x];
      assert a + b == (a + b') + [x];
      DedupAbsorbs(a, b');
      DedupAbsorbsStep(a, b', x);
    }
  }

  lemma DedupAbsorbsStep<T>(a: seq<T>, b: seq<T>, x: T)
    requires Dedup(Dedup(a) + b) == Dedup(a + b)
    ensures Dedup((Dedup(a) + b) + [x]) == Dedup((a + b) + [x])
  {
    DedupSnoc(Dedup(a) + b, x);
    DedupSnoc(a + b, x);
    DedupMembers(a, x);
  }

  /** Appending elements that are all present already changes nothing. */
  lemma {:induction false} DedupSeen<T>(s: seq<T>, b: seq<T>)
    requires forall x :: x in b ==> x in s
    ensures Dedup(s + b) == Dedup(s)
  {
    if |b| == 0 {
      assert s + b == s;
    } else {
      var b', x := b[..|b| - 1], b[|b| - 1];
      assert s + b == (s + b') + [x];
      DedupSnoc(s + b', x);
      DedupSeen(s, b');
    }
  }

  /** In a sequence without duplicates, an element that is present is there
      exactly once. */
  lemma {:induction false} DistinctOccursOnce<T>(s: seq<T>, x: T)
    requires NoDups(s) && x in s
    ensures multiset(s)[x] == 1
  {
    var init, y := s[..|s| - 1], s[|s| - 1];
    assert s == init + [y];
    assert NoDups(init);
    if x == y {
      assert x !in init;
    } else {
      DistinctOccursOnce(init, x);
    }
  }
}
