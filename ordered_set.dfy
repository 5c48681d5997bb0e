/**
 * The accumulator of the classifier: a JavaScript `Set` filled with `add` and
 * read back with `Array.from`, which lists each value once, in the order of its
 * first insertion.
 */
module OrderedSet {

  ghost predicate NoDuplicates<T>(s: seq<T>) {
    forall i, j :: 0 <= i < j < |s| ==> s[i] != s[j]
  }

  /** `Set.prototype.add` on the insertion-ordered contents of the set. */
  function Add<T(==)>(acc: seq<T>, x: T): seq<T> {
    if x in acc then acc else acc + [x]
  }

  /** The contents of a set after adding the elements of `s` in order. */
  function Dedup<T(==)>(s: seq<T>): seq<T> {
    if s == [] then []
    else
      var init, last := s[..|s| - 1], s[|s| - 1];
      assert s == init + [last];
      Add(Dedup(init), last)
  }

  /** The output never lists an element twice... */
  lemma {:induction false} DedupNoDuplicates<T>(s: seq<T>)
    ensures NoDuplicates(Dedup(s))
  {
    if s != [] {
      DedupNoDuplicates(s[..|s| - 1]);
      DedupMembers(s[..|s| - 1]);
    }
  }

  /** ... and lists exactly the elements of the input. */
  lemma {:induction false} DedupMembers<T>(s: seq<T>)
    ensures forall x :: x in Dedup(s) <==> x in s
  {
    if s != [] {
      var init, last := s[..|s| - 1], s[|s| - 1];
      assert s == init + [last];
      DedupMembers(init);
    }
  }

  lemma DedupSnoc<T(!new)>(s: seq<T>, x: T)
    ensures Dedup(s + [x]) == Add(Dedup(s), x)
  {
    assert (s + [x])[..|s|] == s;
  }

  /** The position of the first occurrence of `x` in `s`. */
  function FirstIndex<T(==)>(s: seq<T>, x: T): (i: nat)
    requires x in s
    ensures i < |s| && s[i] == x && x !in s[..i]
  {
    if s[0] == x then 0
    else
      assert s == [s[0]] + s[1..];
      1 + FirstIndex(s[1..], x)
  }

  lemma FirstIndexPrefix<T(!new)>(s: seq<T>, t: seq<T>, x: T)
    requires x in s
    ensures FirstIndex(s + t, x) == FirstIndex(s, x)
  {
    var i, j := FirstIndex(s, x), FirstIndex(s + t, x);
    assert (s + t)[i] == x;
  }

  /** The output lists codes in the order of their first appearance in the input. */
  lemma {:induction false} DedupFirstOccurrenceOrder<T(!new)>(s: seq<T>, i: nat, j: nat)
    requires i < j < |Dedup(s)|
    ensures Dedup(s)[i] in s && Dedup(s)[j] in s
    ensures FirstIndex(s, Dedup(s)[i]) < FirstIndex(s, Dedup(s)[j])
  {
    var init, last := s[..|s| - 1], s[|s| - 1];
    assert s == init + [last];
    var d := Dedup(init);
    var r := Dedup(s);
    assert r == Add(d, last);
    DedupMembers(init);
    DedupMembers(s);
    DedupNoDuplicates(init);
    assert r[i] in s && r[j] in s;
    if j < |d| {
      DedupFirstOccurrenceOrder(init, i, j);
      FirstIndexPrefix(init, [last], d[i]);
      FirstIndexPrefix(init, [last], d[j]);
    } else {
      assert last !in init && r[j] == last;
      FirstIndexPrefix(init, [last], d[i]);
      assert FirstIndex(s, r[j]) == |init|;
    }
  }

  /** `r` lists elements of `s` in the order of their first occurrence in `s`. */
  ghost predicate InFirstOccurrenceOrder<T(!new)>(r: seq<T>, s: seq<T>) {
    && (forall x :: x in r ==> x in s)
    && forall i, j :: 0 <= i < j < |r| ==> FirstIndex(s, r[i]) < FirstIndex(s, r[j])
  }

  lemma EmptyIffNoMembers<T>(r: seq<T>)
    ensures r == [] <==> forall x :: x !in r
  {
    if r != [] {
      assert r[0] in r;
    }
  }

  lemma FirstOccurrenceOrderPrefix<T(!new)>(r: seq<T>, s: seq<T>, m: nat)
    requires InFirstOccurrenceOrder(r, s) && NoDuplicates(r)
    requires m <= |r|
    ensures InFirstOccurrenceOrder(r[..m], s) && NoDuplicates(r[..m])
  {
    assert forall x :: x in r[..m] ==> x in r;
  }

  /** In a listing in first-occurrence order the last element occurs first latest. */
  lemma LastOccursLatest<T(!new)>(r: seq<T>, s: seq<T>, k: nat)
    requires InFirstOccurrenceOrder(r, s)
    requires k < |r|
    ensures FirstIndex(s, r[k]) <= FirstIndex(s, r[|r| - 1])
  {
    if k < |r| - 1 {
      assert FirstIndex(s, r[k]) < FirstIndex(s, r[|r| - 1]);
    }
  }

  /** Two listings of the same elements in first-occurrence order of `s` end alike. */
  lemma SameLast<T(!new)>(s: seq<T>, r: seq<T>, d: seq<T>)
    requires r != [] && d != []
    requires forall x :: x in r <==> x in d
    requires InFirstOccurrenceOrder(r, s) && InFirstOccurrenceOrder(d, s)
    ensures r[|r| - 1] == d[|d| - 1]
  {
    var x, y := r[|r| - 1], d[|d| - 1];
    assert x in d && y in r;
    var k :| 0 <= k < |r| && r[k] == y;
    var l :| 0 <= l < |d| && d[l] == x;
    LastOccursLatest(r, s, k);
    LastOccursLatest(d, s, l);
    assert s[FirstIndex(s, x)] == x && s[FirstIndex(s, y)] == y;
  }

  /** Dropping a shared last element from two duplicate-free listings of the
      same elements leaves listings of the same elements. */
  lemma DropSameLast<T>(r: seq<T>, d: seq<T>, r': seq<T>, d': seq<T>, x: T)
    requires r == r' + [x] && d == d' + [x]
    requires NoDuplicates(r) && NoDuplicates(d)
    requires forall z :: z in r <==> z in d
    ensures forall z :: z in r' <==> z in d'
  {
    assert r[|r'|] == x && d[|d'|] == x;
    forall z ensures z in r' <==> z in d' {
      if z in r' {
        var i :| 0 <= i < |r'| && r'[i] == z;
        assert r[i] == z && z != x;
        assert z in d' + [x];
      }
      if z in d' {
        var i :| 0 <= i < |d'| && d'[i] == z;
        assert d[i] == z && z != x;
        assert z in r' + [x];
      }
    }
  }

  lemma SameMembersBothEmpty<T>(r: seq<T>, d: seq<T>)
    requires forall x :: x in r <==> x in d
    ensures r == [] <==> d == []
  {
    EmptyIffNoMembers(r);
    EmptyIffNoMembers(d);
  }

  /** Two duplicate-free listings of the same elements, both in first-occurrence
      order of `s`, are equal. */
  lemma {:induction false} FirstOccurrenceListingUnique<T(!new)>(s: seq<T>, r: seq<T>, d: seq<T>)
    requires NoDuplicates(r) && NoDuplicates(d)
    requires forall x :: x in r <==> x in d
    requires InFirstOccurrenceOrder(r, s) && InFirstOccurrenceOrder(d, s)
    ensures r == d
    decreases |r| + |d|
  {
    SameMembersBothEmpty(r, d);
    if r != [] {
      var m, n := |r| - 1, |d| - 1;
      SameLast(s, r, d);
      assert r == r[..m] + [r[m]] && d == d[..n] + [d[n]];
      DropSameLast(r, d, r[..m], d[..n], r[m]);
      FirstOccurrenceOrderPrefix(r, s, m);
      FirstOccurrenceOrderPrefix(d, s, n);
      FirstOccurrenceListingUnique(s, r[..m], d[..n]);
    }
  }

  /** `Dedup` is characterised without reference to its construction: its
      result is the one duplicate-free listing of the elements of `s` in their
      first-occurrence order. */
  lemma DedupCharacterization<T(!new)>(s: seq<T>, r: seq<T>)
    ensures r == Dedup(s) <==>
            NoDuplicates(r) && (forall x :: x in r <==> x in s) && InFirstOccurrenceOrder(r, s)
  {
    var d := Dedup(s);
    DedupMembers(s);
    DedupNoDuplicates(s);
    forall i, j | 0 <= i < j < |d| ensures FirstIndex(s, d[i]) < FirstIndex(s, d[j]) {
      DedupFirstOccurrenceOrder(s, i, j);
    }
    if NoDuplicates(r) && (forall x :: x in r <==> x in s) && InFirstOccurrenceOrder(r, s) {
      FirstOccurrenceListingUnique(s, r, d);
    }
  }

  /** Adding elements that are all already present changes nothing: repeated
      triggers of a code leave the output as it was. */
  lemma {:induction false} DedupAbsorbs<T(!new)>(s: seq<T>, t: seq<T>)
    requires forall x :: x in t ==> x in s
    ensures Dedup(s + t) == Dedup(s)
    decreases |t|
  {
    if t == [] {
      assert s + t == s;
    } else {
      var init, last := t[..|t| - 1], t[|t| - 1];
      assert s + t == (s + init) + [last];
      DedupSnoc(s + init, last);
      DedupAbsorbs(s, init);
      DedupMembers(s);
    }
  }

  /** Inputs with no element in common are listed one after the other. */
  lemma {:induction false} DedupAppendDisjoint<T(!new)>(a: seq<T>, b: seq<T>)
    requires forall x :: x in a ==> x !in b
    ensures Dedup(a + b) == Dedup(a) + Dedup(b)
    decreases |b|
  {
    if b == [] {
      assert a + b == a;
    } else {
      var init, last := b[..|b| - 1], b[|b| - 1];
      assert a + b == (a + init) + [last];
      assert b == init + [last];
      DedupSnoc(a + init, last);
      DedupSnoc(init, last);
      DedupAppendDisjoint(a, init);
      DedupMembers(init);
      DedupMembers(a);
    }
  }

  /** What `Dedup` adds after a prefix depends only on the prefix's `Dedup`:
      the set's later insertions see only its contents so far. */
  lemma {:induction false} DedupCongruent<T(!new)>(x: seq<T>, y: seq<T>, t: seq<T>)
    requires Dedup(x) == Dedup(y)
    ensures Dedup(x + t) == Dedup(y + t)
    decreases |t|
  {
    if t == [] {
      assert x + t == x && y + t == y;
    } else {
      var init, last := t[..|t| - 1], t[|t| - 1];
      assert x + t == (x + init) + [last];
      assert y + t == (y + init) + [last];
      DedupSnoc(x + init, last);
      DedupSnoc(y + init, last);
      DedupCongruent(x, y, init);
    }
  }
}
