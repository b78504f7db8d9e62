/** The order a directory's entries are visited in: `Arrays.sort` with a comparator on
    `getName().compareTo`. Entries of one directory have distinct names, so the order is
    fixed by the names alone (`SortedOrderUnique`). */
module Listing {
  import opened JavaText
  import opened Scripts

  predicate NotAfter(a: Entry, b: Entry) {
    CompareTo(a.name, b.name) <= 0
  }

  predicate SortedByName(es: seq<Entry>) {
    forall i, j :: 0 <= i < j < |es| ==> NotAfter(es[i], es[j])
  }

  /** `e` placed before the first entry it does not come after. */
  function Insert(e: Entry, sorted: seq<Entry>): (r: seq<Entry>)
    requires SortedByName(sorted)
    ensures multiset(r) == multiset(sorted) + multiset{e}
    ensures SortedByName(r)
  {
    if sorted == [] then [e]
    else if NotAfter(e, sorted[0]) then
      InsertFront(e, sorted);
      [e] + sorted
    else
      var rest := Insert(e, sorted[1..]);
      CompareToAntisymmetric(e.name, sorted[0].name);
      InsertBehind(e, sorted, rest);
      assert sorted == [sorted[0]] + sorted[1..];
      [sorted[0]] + rest
  }

  lemma {:induction false} InsertFront(e: Entry, sorted: seq<Entry>)
    requires SortedByName(sorted) && sorted != [] && NotAfter(e, sorted[0])
    ensures SortedByName([e] + sorted)
  {
    var r := [e] + sorted;
    forall i, j | 0 <= i < j < |r|
      ensures NotAfter(r[i], r[j])
    {
      if i == 0 && j > 1 {
        CompareToTransitive(e.name, sorted[0].name, sorted[j - 1].name);
      }
    }
  }

  lemma {:induction false} InsertBehind(e: Entry, sorted: seq<Entry>, rest: seq<Entry>)
    requires SortedByName(sorted) && sorted != [] && NotAfter(sorted[0], e)
    requires SortedByName(rest) && multiset(rest) == multiset(sorted[1..]) + multiset{e}
    ensures SortedByName([sorted[0]] + rest)
  {
    var r := [sorted[0]] + rest;
    forall i, j | 0 <= i < j < |r|
      ensures NotAfter(r[i], r[j])
    {
      if i == 0 {
        var x := r[j];
        assert x in multiset(rest);
        if x != e {
          assert x in multiset(sorted[1..]);
          var k :| 0 <= k < |sorted[1..]| && sorted[1..][k] == x;
          assert sorted[k + 1] == x;
        }
      }
    }
  }

  /** The entries in ascending name order. */
  function SortByName(es: seq<Entry>): (r: seq<Entry>)
    ensures multiset(r) == multiset(es)
    ensures SortedByName(r)
  {
    if es == [] then []
    else
      assert es == [es[0]] + es[1..];
      Insert(es[0], SortByName(es[1..]))
  }

  predicate DistinctNames(es: seq<Entry>) {
    forall i, j :: 0 <= i < j < |es| ==> es[i].name != es[j].name
  }

  /** Two name-sorted arrangements of the same distinctly named entries start alike. */
  lemma {:induction false} SameFirst(a: seq<Entry>, b: seq<Entry>)
    requires a != [] && SortedByName(a) && SortedByName(b) && multiset(a) == multiset(b)
    requires DistinctNames(a)
    ensures b != [] && a[0] == b[0]
  {
    assert a[0] in multiset(b);
    assert b[0] in multiset(a);
    var i :| 0 <= i < |a| && a[i] == b[0];
    var j :| 0 <= j < |b| && b[j] == a[0];
    assert i == 0 || NotAfter(a[0], a[i]);
    assert j == 0 || NotAfter(b[0], b[j]);
    CompareToAntisymmetric(a[0].name, b[0].name);
    CompareToZero(a[0].name, b[0].name);
  }

  lemma {:induction false} DropFirst(a: seq<Entry>, b: seq<Entry>)
    requires a != [] && b != [] && a[0] == b[0] && multiset(a) == multiset(b)
    ensures multiset(a[1..]) == multiset(b[1..])
  {
    assert a == [a[0]] + a[1..] && b == [b[0]] + b[1..];
    assert multiset(a) == multiset{a[0]} + multiset(a[1..]);
    assert multiset(b) == multiset{b[0]} + multiset(b[1..]);
    assert multiset(a[1..]) == multiset(a) - multiset{a[0]};
    assert multiset(b[1..]) == multiset(b) - multiset{b[0]};
  }

  /** Within one directory names are distinct, and then the sorted order is the only one: any
      two name-sorted arrangements of the same entries are equal, whatever sort produced them. */
  lemma {:induction false} SortedOrderUnique(a: seq<Entry>, b: seq<Entry>)
    requires SortedByName(a) && SortedByName(b) && multiset(a) == multiset(b)
    requires DistinctNames(a)
    ensures a == b
  {
    if a == [] {
      assert |b| == |multiset(b)| == 0;
    } else {
      SameFirst(a, b);
      DropFirst(a, b);
      SortedOrderUnique(a[1..], b[1..]);
      assert a == [a[0]] + a[1..] && b == [b[0]] + b[1..];
    }
  }
}
