/** The two orders the locators sort their working copy by, and the stable
    sort `Collections.sort` applies with them. */
module CardOrder {
  import opened Ranks
  import opened Suits
  import opened Cards

  /** The comparators of the locators: rank descending, or (FlushLocator)
      suit in declaration order and then rank descending. */
  datatype Order = ByRankDescending | BySuitThenRankDescending

  /** The comparator as a key: `compare(a, b)` is the sign of
      `Key(o, a) - Key(o, b)`. */
  function Key(o: Order, c: Card): (k: nat)
  {
    match o
    case ByRankDescending => 12 - RankValue(c.rank)
    case BySuitThenRankDescending => SuitOrdinal(c.suit) * 13 + (12 - RankValue(c.rank))
  }

  /** `s` is ordered by the comparator. */
  predicate Sorted(o: Order, s: seq<Card>)
  {
    forall i, j :: 0 <= i < j < |s| ==> Key(o, s[i]) <= Key(o, s[j])
  }

  /** Inserts `c` before the first element whose key is not smaller, so that
      `c` precedes the elements of equal key that were already there. */
  function Insert(o: Order, c: Card, s: seq<Card>): seq<Card>
  {
    if s == [] || Key(o, c) <= Key(o, s[0]) then [c] + s
    else [s[0]] + Insert(o, c, s[1..])
  }

  /** Insertion adds exactly `c`. */
  lemma {:induction false} InsertAdds(o: Order, c: Card, s: seq<Card>)
    ensures multiset(Insert(o, c, s)) == multiset(s) + multiset{c}
    ensures |Insert(o, c, s)| == |s| + 1
  {
    if s != [] && Key(o, c) > Key(o, s[0]) {
      InsertAdds(o, c, s[1..]);
      assert s == [s[0]] + s[1..];
    }
  }

  /** Insertion keeps a sorted sequence sorted. */
  lemma {:induction false} InsertSorted(o: Order, c: Card, s: seq<Card>)
    requires Sorted(o, s)
    ensures Sorted(o, Insert(o, c, s))
  {
    if s != [] && Key(o, c) > Key(o, s[0]) {
      var rest := Insert(o, c, s[1..]);
      InsertSorted(o, c, s[1..]);
      forall j | 0 <= j < |rest| ensures Key(o, s[0]) <= Key(o, rest[j]) {
        InsertFrom(o, c, s[1..], j);
      }
      assert Insert(o, c, s) == [s[0]] + rest;
    }
  }

  /** Every element of an insertion is the inserted card or an element of
      the sequence inserted into. */
  lemma {:induction false} InsertFrom(o: Order, c: Card, s: seq<Card>, j: nat)
    requires j < |Insert(o, c, s)|
    ensures Insert(o, c, s)[j] == c || Insert(o, c, s)[j] in s
  {
    if s != [] && Key(o, c) > Key(o, s[0]) && j > 0 {
      InsertFrom(o, c, s[1..], j - 1);
    }
  }

  /** Insertion sort: the stable sort of `Collections.sort`. */
  function Sort(o: Order, s: seq<Card>): seq<Card>
  {
    if s == [] then [] else Insert(o, s[0], Sort(o, s[1..]))
  }

  /** The sort orders its input by the comparator and only rearranges it. */
  lemma {:induction false} SortSorts(o: Order, s: seq<Card>)
    ensures Sorted(o, Sort(o, s))
    ensures multiset(Sort(o, s)) == multiset(s)
    ensures |Sort(o, s)| == |s|
  {
    if s != [] {
      SortSorts(o, s[1..]);
      InsertAdds(o, s[0], Sort(o, s[1..]));
      InsertSorted(o, s[0], Sort(o, s[1..]));
      assert s == [s[0]] + s[1..];
    }
  }

  /** The elements of `s` with key `k`, in their order in `s`. */
  function WithKey(o: Order, s: seq<Card>, k: nat): seq<Card>
  {
    if s == [] then []
    else (if Key(o, s[0]) == k then [s[0]] else []) + WithKey(o, s[1..], k)
  }

  /** What is selected for key `k` is an element of `s` with key `k`. */
  lemma {:induction false} WithKeyMembers(o: Order, s: seq<Card>, k: nat, x: Card)
    requires x in WithKey(o, s, k)
    ensures x in s && Key(o, x) == k
  {
    if Key(o, s[0]) == k && x == s[0] {
    } else {
      WithKeyMembers(o, s[1..], k, x);
    }
  }

  /** Selecting from a sequence with a first element `x`. */
  lemma WithKeyCons(o: Order, x: Card, t: seq<Card>, k: nat)
    ensures WithKey(o, [x] + t, k) == (if Key(o, x) == k then [x] else []) + WithKey(o, t, k)
  {
    assert ([x] + t)[1..] == t;
  }

  /** Inserting `c` puts it ahead of every element of equal key. */
  lemma {:induction false} InsertWithKey(o: Order, c: Card, s: seq<Card>, k: nat)
    ensures WithKey(o, Insert(o, c, s), k) == (if Key(o, c) == k then [c] else []) + WithKey(o, s, k)
  {
    if s == [] || Key(o, c) <= Key(o, s[0]) {
      WithKeyCons(o, c, s, k);
    } else {
      InsertWithKey(o, c, s[1..], k);
      InsertPastWithKey(o, c, s, k);
    }
  }

  /** The step of `InsertWithKey` where `c` goes past the first element. */
  lemma InsertPastWithKey(o: Order, c: Card, s: seq<Card>, k: nat)
    requires s != [] && Key(o, c) > Key(o, s[0])
    requires WithKey(o, Insert(o, c, s[1..]), k) == (if Key(o, c) == k then [c] else []) + WithKey(o, s[1..], k)
    ensures WithKey(o, Insert(o, c, s), k) == (if Key(o, c) == k then [c] else []) + WithKey(o, s, k)
  {
    var h, t := s[0], s[1..];
    var rest := Insert(o, c, t);
    assert Insert(o, c, s) == [h] + rest;
    WithKeyCons(o, h, rest, k);
    assert s == [h] + t;
    WithKeyCons(o, h, t, k);
    // `c` and `h` have different keys, so at most one of them is selected.
    if Key(o, c) == k {
      assert WithKey(o, s, k) == WithKey(o, t, k);
      assert WithKey(o, Insert(o, c, s), k) == [c] + WithKey(o, t, k);
    } else {
      assert WithKey(o, Insert(o, c, s), k) == WithKey(o, [h] + rest, k);
    }
  }

  /** The sort is stable: the elements of each key keep their input order. */
  lemma {:induction false} SortIsStable(o: Order, s: seq<Card>, k: nat)
    ensures WithKey(o, Sort(o, s), k) == WithKey(o, s, k)
  {
    if s != [] {
      SortIsStable(o, s[1..], k);
      InsertWithKey(o, s[0], Sort(o, s[1..]), k);
    }
  }

  /** Two sorted sequences with the same elements of each key, in the same
      order, are equal. */
  lemma {:induction false} SortedDeterminedByKeys(o: Order, t: seq<Card>, u: seq<Card>)
    requires Sorted(o, t) && Sorted(o, u)
    requires forall k :: WithKey(o, t, k) == WithKey(o, u, k)
    ensures t == u
  {
    if t == [] || u == [] {
      EmptyByKeys(o, t, u);
    } else {
      SameHead(o, t, u);
      forall k ensures WithKey(o, t[1..], k) == WithKey(o, u[1..], k) {
        SameTailByKey(o, t, u, k);
      }
      SortedDeterminedByKeys(o, t[1..], u[1..]);
      assert t == [t[0]] + t[1..] && u == [u[0]] + u[1..];
    }
  }

  /** A sequence is empty iff every key selects nothing from it. */
  lemma EmptyByKeys(o: Order, t: seq<Card>, u: seq<Card>)
    requires t == [] || u == []
    requires forall k :: WithKey(o, t, k) == WithKey(o, u, k)
    ensures t == u
  {
    if t != [] {
      KeyOfHeadPresent(o, t);
      assert false;
    } else if u != [] {
      KeyOfHeadPresent(o, u);
      assert false;
    }
  }

  /** The key of the first element selects at least that element. */
  lemma KeyOfHeadPresent(o: Order, t: seq<Card>)
    ensures t != [] ==> WithKey(o, t, Key(o, t[0])) != []
  {
  }

  /** Sorted sequences with the same elements of each key start alike: both
      heads carry the least key, and each is the first element of that key. */
  lemma SameHead(o: Order, t: seq<Card>, u: seq<Card>)
    requires Sorted(o, t) && Sorted(o, u) && t != [] && u != []
    requires forall k :: WithKey(o, t, k) == WithKey(o, u, k)
    ensures t[0] == u[0]
  {
    var k0, k1 := Key(o, t[0]), Key(o, u[0]);
    assert WithKey(o, t, k0) == WithKey(o, u, k0);
    assert WithKey(o, u, k1) == WithKey(o, t, k1);
    HeadKeyLeast(o, t, u);
    HeadKeyLeast(o, u, t);
    HeadSelected(o, t);
    HeadSelected(o, u);
  }

  /** The head of a sequence is the first element selected for its key. */
  lemma HeadSelected(o: Order, t: seq<Card>)
    requires t != []
    ensures WithKey(o, t, Key(o, t[0])) != [] && WithKey(o, t, Key(o, t[0]))[0] == t[0]
  {
  }

  /** When `u` selects the head of `t` under the head's key, the head of
      the sorted `u` has a key no larger. */
  lemma HeadKeyLeast(o: Order, t: seq<Card>, u: seq<Card>)
    requires Sorted(o, u) && t != [] && u != []
    requires WithKey(o, t, Key(o, t[0])) == WithKey(o, u, Key(o, t[0]))
    ensures Key(o, u[0]) <= Key(o, t[0])
  {
    assert t == [t[0]] + t[1..];
    WithKeyCons(o, t[0], t[1..], Key(o, t[0]));
    WithKeyMembers(o, u, Key(o, t[0]), t[0]);
    var j :| 0 <= j < |u| && u[j] == t[0];
  }

  /** Dropping equal heads keeps the elements of each key equal. */
  lemma SameTailByKey(o: Order, t: seq<Card>, u: seq<Card>, k: nat)
    requires t != [] && u != [] && t[0] == u[0]
    requires WithKey(o, t, k) == WithKey(o, u, k)
    ensures WithKey(o, t[1..], k) == WithKey(o, u[1..], k)
  {
    var h := if Key(o, t[0]) == k then [t[0]] else [];
    assert WithKey(o, t[1..], k) == (h + WithKey(o, t[1..], k))[|h|..];
    assert WithKey(o, u[1..], k) == (h + WithKey(o, u[1..], k))[|h|..];
  }

  /** `Sort` is the only stable sort: any sorted sequence that keeps each
      key's elements in input order is `Sort(o, s)`. */
  lemma SortIsTheStableSort(o: Order, s: seq<Card>, t: seq<Card>)
    requires Sorted(o, t)
    requires forall k :: WithKey(o, t, k) == WithKey(o, s, k)
    ensures t == Sort(o, s)
  {
    forall k ensures WithKey(o, t, k) == WithKey(o, Sort(o, s), k) {
      SortIsStable(o, s, k);
    }
    SortSorts(o, s);
    SortedDeterminedByKeys(o, t, Sort(o, s));
  }

  /** Two sorted arrangements of the same cards carry the same key at
      every position, whatever order the cards came in. */
  lemma {:induction false} SortedSameKeys(o: Order, t: seq<Card>, u: seq<Card>)
    requires Sorted(o, t) && Sorted(o, u) && multiset(t) == multiset(u)
    ensures |t| == |u|
    ensures forall i :: 0 <= i < |t| ==> Key(o, t[i]) == Key(o, u[i])
    decreases |t|
  {
    assert |t| == |multiset(t)| == |multiset(u)| == |u|;
    if t != [] {
      var u' := SwapToFront(o, t, u);
      SortedSameKeys(o, t[1..], u'[1..]);
      forall i | 0 <= i < |t| ensures Key(o, t[i]) == Key(o, u[i]) {
        if i > 0 {
          assert t[1..][i - 1] == t[i] && u'[1..][i - 1] == u'[i];
        }
      }
    }
  }

  /** The head of `t` moved to the front of `u`: the keys of `u` stay where
      they are, and what follows the heads is the same multiset. */
  lemma SwapToFront(o: Order, t: seq<Card>, u: seq<Card>) returns (u': seq<Card>)
    requires Sorted(o, t) && Sorted(o, u) && multiset(t) == multiset(u) && t != [] && u != []
    ensures |u'| == |u| && u'[0] == t[0] && Sorted(o, u')
    ensures forall i :: 0 <= i < |u| ==> Key(o, u'[i]) == Key(o, u[i])
    ensures multiset(t[1..]) == multiset(u'[1..])
  {
    var j := LeastKeyAt(o, t, u);
    u' := u[0 := u[j]][j := u[0]];
    forall k | 0 <= k < |u| ensures Key(o, u'[k]) == Key(o, u[k]) {
    }
    SameKeysSorted(o, u, u');
    SwapMultiset(u, j);
    DropHead(t);
    DropHead(u');
  }

  /** The head of `t` sits in `u` at a position whose key is that of the
      head of `u`. */
  lemma LeastKeyAt(o: Order, t: seq<Card>, u: seq<Card>) returns (j: nat)
    requires Sorted(o, t) && Sorted(o, u) && multiset(t) == multiset(u) && t != [] && u != []
    ensures j < |u| && u[j] == t[0] && Key(o, u[j]) == Key(o, u[0])
  {
    assert t[0] in multiset(u);
    j :| 0 <= j < |u| && u[j] == t[0];
    assert u[0] in multiset(t);
    var i :| 0 <= i < |t| && t[i] == u[0];
    assert Key(o, t[0]) <= Key(o, t[i]);
    assert Key(o, u[0]) <= Key(o, u[j]);
  }

  /** A sequence with the keys of a sorted one, position by position, is
      sorted. */
  lemma SameKeysSorted(o: Order, u: seq<Card>, v: seq<Card>)
    requires Sorted(o, u) && |u| == |v|
    requires forall i :: 0 <= i < |u| ==> Key(o, v[i]) == Key(o, u[i])
    ensures Sorted(o, v)
  {
  }

  /** Exchanging the first element with another keeps the multiset. */
  lemma SwapMultiset(u: seq<Card>, j: nat)
    requires j < |u|
    ensures multiset(u[0 := u[j]][j := u[0]]) == multiset(u)
  {
    if j > 0 {
      var v := u[0 := u[j]];
      assert multiset(v) == multiset(u) - multiset{u[0]} + multiset{u[j]};
      assert multiset(v[j := u[0]]) == multiset(v) - multiset{v[j]} + multiset{u[0]};
    }
  }

  /** The tail holds the multiset without the head. */
  lemma DropHead(t: seq<Card>)
    requires t != []
    ensures multiset(t[1..]) == multiset(t) - multiset{t[0]}
  {
    assert t == [t[0]] + t[1..];
  }

  /** Under the rank order the sorted sequence has non-increasing ranks. */
  lemma RankOrderDescends(s: seq<Card>)
    requires Sorted(ByRankDescending, s)
    ensures forall i, j :: 0 <= i < j < |s| ==> RankValue(s[i].rank) >= RankValue(s[j].rank)
  {
    forall i, j | 0 <= i < j < |s|
      ensures RankValue(s[i].rank) >= RankValue(s[j].rank)
    {
      assert Key(ByRankDescending, s[i]) <= Key(ByRankDescending, s[j]);
    }
  }

  /** Under the flush order the suits ascend, and within one suit the ranks
      descend. */
  lemma SuitOrderGroups(s: seq<Card>)
    requires Sorted(BySuitThenRankDescending, s)
    ensures forall i, j :: 0 <= i < j < |s| ==> SuitOrdinal(s[i].suit) <= SuitOrdinal(s[j].suit)
    ensures forall i, j :: 0 <= i < j < |s| && s[i].suit == s[j].suit ==>
              RankValue(s[i].rank) >= RankValue(s[j].rank)
  {
    forall i, j | 0 <= i < j < |s|
      ensures SuitOrdinal(s[i].suit) <= SuitOrdinal(s[j].suit)
      ensures s[i].suit == s[j].suit ==> RankValue(s[i].rank) >= RankValue(s[j].rank)
    {
      SuitOrderAt(s, i, j);
    }
  }

  /** The flush order between two given positions. */
  lemma SuitOrderAt(s: seq<Card>, i: nat, j: nat)
    requires Sorted(BySuitThenRankDescending, s) && i < j < |s|
    ensures SuitOrdinal(s[i].suit) <= SuitOrdinal(s[j].suit)
    ensures s[i].suit == s[j].suit ==> RankValue(s[i].rank) >= RankValue(s[j].rank)
  {
    assert Key(BySuitThenRankDescending, s[i]) <= Key(BySuitThenRankDescending, s[j]);
  }
}
