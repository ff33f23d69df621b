/** What the rank-based locators share: the descending working copy, rank
    counts, and the scan for runs of equal ranks. */
module RankScan {
  import opened Outcomes
  import opened Ranks
  import opened Suits
  import opened Cards
  import opened CardOrder

  /** The rank value of a card. */
  function Val(c: Card): nat
  {
    RankValue(c.rank)
  }

  /** Ranks never increase along `s`. */
  predicate Descending(s: seq<Card>)
  {
    forall i, j :: 0 <= i < j < |s| ==> Val(s[i]) >= Val(s[j])
  }

  /** The working copy of the rank locators: the input stably sorted by the
      rank-descending comparator. */
  function ByRank(cards: seq<Card>): (s: seq<Card>)
    ensures multiset(s) == multiset(cards) && |s| == |cards|
  {
    SortSorts(ByRankDescending, cards);
    Sort(ByRankDescending, cards)
  }

  /** The working copy is in descending rank order. */
  lemma ByRankDescends(cards: seq<Card>)
    ensures Descending(ByRank(cards))
  {
    SortSorts(ByRankDescending, cards);
    RankOrderDescends(Sort(ByRankDescending, cards));
  }

  /** The ranks of a card list, in list order. */
  function RanksOf(s: seq<Card>): (rs: seq<Rank>)
    ensures |rs| == |s|
    ensures forall i :: 0 <= i < |s| ==> rs[i] == s[i].rank
  {
    seq(|s|, i requires 0 <= i < |s| => s[i].rank)
  }

  /** The loop that copies the ranks of `cards[from..]` into the rank list
      of a hand. */
  method AppendRanks(ranks: seq<Rank>, cards: seq<Card>, from: nat) returns (rs: seq<Rank>)
    requires from <= |cards|
    ensures rs == ranks + RanksOf(cards[from..])
  {
    rs := ranks;
    for i := from to |cards|
      invariant |rs| == |ranks| + (i - from)
      invariant rs[..|ranks|] == ranks
      invariant forall k :: from <= k < i ==> rs[|ranks| + k - from] == cards[k].rank
    {
      rs := rs + [cards[i].rank];
    }
  }

  /** How many cards of `s` have rank `r`. */
  function Count(s: seq<Card>, r: Rank): nat
  {
    if s == [] then 0 else (if s[0].rank == r then 1 else 0) + Count(s[1..], r)
  }

  /** How many cards of `s` rank strictly above value `v`. */
  function Above(s: seq<Card>, v: nat): nat
  {
    if s == [] then 0 else (if Val(s[0]) > v then 1 else 0) + Above(s[1..], v)
  }

  /** Counting is additive over concatenation. */
  lemma {:induction false} CountAppend(a: seq<Card>, b: seq<Card>, r: Rank)
    ensures Count(a + b, r) == Count(a, r) + Count(b, r)
  {
    if a == [] {
      assert a + b == b;
    } else {
      CountAppend(a[1..], b, r);
      assert (a + b)[1..] == a[1..] + b;
    }
  }

  /** The count of a rank is the sum of the multiplicities of its four cards. */
  lemma {:induction false} CountBySuits(s: seq<Card>, r: Rank)
    ensures Count(s, r) == multiset(s)[Card(Spades, r)] + multiset(s)[Card(Hearts, r)]
                          + multiset(s)[Card(Diamonds, r)] + multiset(s)[Card(Clubs, r)]
  {
    if s != [] {
      CountBySuits(s[1..], r);
      assert s == [s[0]] + s[1..];
      assert multiset(s) == multiset{s[0]} + multiset(s[1..]);
      var c := s[0];
      assert c == Card(c.suit, c.rank);
      match c.suit
      case Spades =>
      case Hearts =>
      case Diamonds =>
      case Clubs =>
    }
  }

  /** Rank counts do not depend on the order of the cards. */
  lemma CountPermutation(a: seq<Card>, b: seq<Card>, r: Rank)
    requires multiset(a) == multiset(b)
    ensures Count(a, r) == Count(b, r)
  {
    CountBySuits(a, r);
    CountBySuits(b, r);
  }

  /** The working copy has the rank counts of the input. */
  lemma SameCounts(cards: seq<Card>)
    ensures forall r :: Count(ByRank(cards), r) == Count(cards, r)
  {
    forall r ensures Count(ByRank(cards), r) == Count(cards, r) {
      CountPermutation(ByRank(cards), cards, r);
    }
  }

  /** Two positions holding rank `r` make its count at least two, and a count
      of at least two has two such positions. */
  lemma {:induction false} CountTwoPositions(s: seq<Card>, r: Rank)
    ensures Count(s, r) >= 2 <==>
      exists i, j :: 0 <= i < j < |s| && s[i].rank == r && s[j].rank == r
  {
    if s != [] {
      CountTwoPositions(s[1..], r);
      CountOnePosition(s[1..], r);
      if Count(s, r) >= 2 {
        if s[0].rank == r {
          var j :| 0 <= j < |s[1..]| && s[1..][j].rank == r;
          assert s[0].rank == r && s[j + 1].rank == r;
        } else {
          var i, j :| 0 <= i < j < |s[1..]| && s[1..][i].rank == r && s[1..][j].rank == r;
          assert s[i + 1].rank == r && s[j + 1].rank == r;
        }
      }
      if exists i, j :: 0 <= i < j < |s| && s[i].rank == r && s[j].rank == r {
        var i, j :| 0 <= i < j < |s| && s[i].rank == r && s[j].rank == r;
        if i == 0 {
          assert s[1..][j - 1].rank == r;
        } else {
          assert s[1..][i - 1].rank == r && s[1..][j - 1].rank == r;
        }
      }
    }
  }

  /** A positive count has a position holding the rank. */
  lemma {:induction false} CountOnePosition(s: seq<Card>, r: Rank)
    ensures Count(s, r) >= 1 <==> exists i :: 0 <= i < |s| && s[i].rank == r
  {
    if s != [] {
      CountOnePosition(s[1..], r);
      if exists i :: 0 <= i < |s| && s[i].rank == r {
        var i :| 0 <= i < |s| && s[i].rank == r;
        if i > 0 {
          assert s[1..][i - 1].rank == r;
        }
      }
      if Count(s[1..], r) >= 1 {
        var i :| 0 <= i < |s[1..]| && s[1..][i].rank == r;
        assert s[i + 1].rank == r;
      }
    }
  }

  /** No two cards share a rank exactly when every rank occurs at most once. */
  lemma NoSharedRank(s: seq<Card>)
    ensures (forall i, j :: 0 <= i < j < |s| ==> s[i].rank != s[j].rank)
        <==> (forall r :: Count(s, r) < 2)
  {
    if forall i, j :: 0 <= i < j < |s| ==> s[i].rank != s[j].rank {
      forall r ensures Count(s, r) < 2 {
        CountTwoPositions(s, r);
      }
    } else {
      var i, j :| 0 <= i < j < |s| && s[i].rank == s[j].rank;
      CountTwoPositions(s, s[i].rank);
    }
  }

  /** In a descending sequence the cards of one rank form a block: the cards
      before it rank higher, the cards after it lower, and the block starts
      after the `Above` higher cards and holds `Count` cards. */
  lemma {:induction false} Block(s: seq<Card>, r: Rank)
    requires Descending(s)
    ensures IsBlock(s, r)
  {
    var v := RankValue(r);
    if s != [] {
      Block(s[1..], r);
      if Val(s[0]) > v {
        BlockAbove(s, r);
      } else if s[0].rank == r {
        BlockStarts(s, r);
      } else {
        assert Val(s[0]) < v by { RankValueIsPosition(RankValue(r)); RankValueIsPosition(Val(s[0])); }
        BlockBelow(s, r);
      }
    }
  }

  /** The cards of rank `r` sit at positions `Above .. Above + Count`,
      higher cards before them and lower cards after them. */
  ghost predicate IsBlock(s: seq<Card>, r: Rank)
  {
    var a, n := Above(s, RankValue(r)), Count(s, r);
    a + n <= |s| &&
    (forall j :: 0 <= j < |s| ==> (s[j].rank == r <==> a <= j < a + n)) &&
    (forall j :: 0 <= j < a ==> Val(s[j]) > RankValue(r)) &&
    (forall j :: a + n <= j < |s| ==> Val(s[j]) < RankValue(r))
  }

  /** A higher first card moves the block of the rest down by one. */
  lemma BlockAbove(s: seq<Card>, r: Rank)
    requires s != [] && IsBlock(s[1..], r) && Val(s[0]) > RankValue(r)
    ensures IsBlock(s, r)
  {
    var t := s[1..];
    assert Above(s, RankValue(r)) == 1 + Above(t, RankValue(r));
    assert s[0].rank != r && Count(s, r) == Count(t, r);
    forall j | 1 <= j < |s| ensures s[j] == t[j - 1] {
    }
  }

  /** A first card of rank `r` starts the block. */
  lemma BlockStarts(s: seq<Card>, r: Rank)
    requires Descending(s) && s != [] && IsBlock(s[1..], r) && s[0].rank == r
    ensures IsBlock(s, r)
  {
    var t := s[1..];
    NothingAbove(s, RankValue(r));
    if t != [] {
      NothingAbove(t, RankValue(r));
    }
    assert forall j :: 1 <= j < |s| ==> s[j] == t[j - 1];
  }

  /** A lower first card leaves no card of rank `r` or above. */
  lemma BlockBelow(s: seq<Card>, r: Rank)
    requires Descending(s) && s != [] && Val(s[0]) < RankValue(r)
    ensures IsBlock(s, r)
  {
    NothingAbove(s, RankValue(r));
    NothingOf(s, r);
  }

  /** When the first card is at most `v`, no card of a descending sequence is
      above `v`. */
  lemma {:induction false} NothingAbove(s: seq<Card>, v: nat)
    requires Descending(s) && s != [] && Val(s[0]) <= v
    ensures Above(s, v) == 0
  {
    if |s| > 1 {
      NothingAbove(s[1..], v);
    }
  }

  /** When the first card ranks below `r`, a descending sequence holds no
      card of rank `r`. */
  lemma {:induction false} NothingOf(s: seq<Card>, r: Rank)
    requires Descending(s) && s != [] && Val(s[0]) < RankValue(r)
    ensures Count(s, r) == 0
  {
    if |s| > 1 {
      NothingOf(s[1..], r);
    }
  }

  /** Cutting a list after `k` cards of its tail keeps the head whole. */
  lemma TakeAfterHead(head: seq<Card>, rest: seq<Card>, k: nat)
    requires k <= |rest|
    ensures (head + rest)[..|head| + k] == head + rest[..k]
  {
  }

  /** Cutting `len` cards out of a descending sequence leaves a descending
      sequence, and the cut cards with the rest are the original cards. */
  lemma CutOut(s: seq<Card>, p: nat, len: nat)
    requires Descending(s) && p + len <= |s|
    ensures Descending(s[..p] + s[p + len..])
    ensures multiset(s) == multiset(s[p..p + len]) + multiset(s[..p] + s[p + len..])
  {
    var rest := s[..p] + s[p + len..];
    forall i, j | 0 <= i < j < |rest| ensures Val(rest[i]) >= Val(rest[j]) {
      var i' := if i < p then i else i + len;
      var j' := if j < p then j else j + len;
      assert rest[i] == s[i'] && rest[j] == s[j'];
    }
    SliceOut(s, p, len);
  }

  /** Cutting a slice out of `s` splits its multiset in two. */
  lemma SliceOut(s: seq<Card>, p: nat, len: nat)
    requires p + len <= |s|
    ensures multiset(s) == multiset(s[p..p + len]) + multiset(s[..p] + s[p + len..])
  {
    assert s == s[..p] + s[p..p + len] + s[p + len..];
  }

  /** Taking the first `k` cards of a descending remainder after some chosen
      cards: the hand is part of the input, and every card left over ranks no
      higher than the last card taken. */
  lemma Leftovers(cards: seq<Card>, head: seq<Card>, rest: seq<Card>, k: nat)
    requires multiset(cards) == multiset(head) + multiset(rest)
    requires Descending(rest) && 1 <= k <= |rest|
    ensures multiset(head + rest[..k]) <= multiset(cards)
    ensures forall c :: c in multiset(cards) - multiset(head + rest[..k]) ==> Val(c) <= Val(rest[k - 1])
  {
    assert rest == rest[..k] + rest[k..];
    assert multiset(cards) - multiset(head + rest[..k]) == multiset(rest[k..]);
    forall c | c in multiset(rest[k..]) ensures Val(c) <= Val(rest[k - 1]) {
      var j :| 0 <= j < |rest[k..]| && rest[k..][j] == c;
      assert rest[k + j] == c;
    }
  }

  /** `len` equal ranks start at position `i`, checked as the locators do:
      each card has the rank of the next one. */
  predicate RunAt(s: seq<Card>, i: nat, len: nat)
    decreases len
  {
    i + len <= |s| && (len <= 1 || (s[i].rank == s[i + 1].rank && RunAt(s, i + 1, len - 1)))
  }

  /** A run is a stretch of cards that all have the rank of its first card. */
  lemma {:induction false} RunAtSpan(s: seq<Card>, i: nat, len: nat)
    ensures RunAt(s, i, len) <==>
      i + len <= |s| && forall k :: i <= k < i + len ==> s[k].rank == s[i].rank
    decreases len
  {
    if len > 1 {
      RunAtSpan(s, i + 1, len - 1);
    }
  }

  /** The scan of the locators: the first position at or after `from` where
      `len` equal ranks start. */
  function FirstRun(s: seq<Card>, len: nat, from: nat): (r: Option<nat>)
    ensures r.Some? ==> from <= r.value && RunAt(s, r.value, len)
    ensures r.Some? ==> forall i :: from <= i < r.value ==> !RunAt(s, i, len)
    ensures r.None? ==> forall i :: from <= i ==> !RunAt(s, i, len)
    decreases |s| - from
  {
    if from + len > |s| then None
    else if RunAt(s, from, len) then Some(from)
    else FirstRun(s, len, from + 1)
  }

  /** A run with no run before it (from `from` on) is the first run. */
  lemma {:induction false} FirstRunAt(s: seq<Card>, len: nat, from: nat, i: nat)
    requires from <= i && RunAt(s, i, len)
    requires forall j :: from <= j < i ==> !RunAt(s, j, len)
    ensures FirstRun(s, len, from) == Some(i)
    decreases i - from
  {
    if from < i {
      FirstRunAt(s, len, from + 1, i);
    }
  }

  /** Without a run before position `|s| - len + 1`, there is no run at all. */
  lemma NoRunFrom(s: seq<Card>, len: nat, from: nat)
    requires forall j :: from <= j && j + len <= |s| ==> !RunAt(s, j, len)
    ensures FirstRun(s, len, from) == None
  {
  }

  /** A run of `len` cards of rank `r` exists in a descending sequence exactly
      when `r` occurs at least `len` times; the block of `r` starts one. */
  lemma RunIffCount(s: seq<Card>, r: Rank, len: nat)
    requires Descending(s) && len >= 1
    ensures Count(s, r) >= len ==> RunAt(s, Above(s, RankValue(r)), len) && s[Above(s, RankValue(r))].rank == r
    ensures forall i: nat :: RunAt(s, i, len) && s[i].rank == r ==>
      Above(s, RankValue(r)) <= i && i + len <= Above(s, RankValue(r)) + Count(s, r)
  {
    Block(s, r);
    RunAtSpan(s, Above(s, RankValue(r)), len);
    forall i: nat | RunAt(s, i, len) && s[i].rank == r
      ensures Above(s, RankValue(r)) <= i && i + len <= Above(s, RankValue(r)) + Count(s, r)
    {
      RunAtSpan(s, i, len);
      assert s[i + len - 1].rank == r;
    }
  }

  /** The first run of `len` in a descending sequence has the highest rank
      that occurs at least `len` times; if there is none, no rank occurs that
      often. */
  lemma FirstRunIsHighest(s: seq<Card>, len: nat)
    requires Descending(s) && len >= 1
    ensures FirstRun(s, len, 0).Some? ==>
      var i := FirstRun(s, len, 0).value;
      Count(s, s[i].rank) >= len &&
      forall r :: Count(s, r) >= len ==> RankValue(r) <= Val(s[i])
    ensures FirstRun(s, len, 0).None? <==> forall r :: Count(s, r) < len
  {
    forall r ensures Count(s, r) >= len ==> FirstRun(s, len, 0).Some? && Val(s[FirstRun(s, len, 0).value]) >= RankValue(r)
    {
      RunIffCount(s, r, len);
    }
    if FirstRun(s, len, 0).Some? {
      var i := FirstRun(s, len, 0).value;
      RunIffCount(s, s[i].rank, len);
    }
  }

  /** The first run of `len` starts at the top of its rank's block. */
  lemma FirstRunStartsBlock(s: seq<Card>, len: nat)
    requires Descending(s) && len >= 1 && FirstRun(s, len, 0).Some?
    ensures var i := FirstRun(s, len, 0).value;
      i == Above(s, Val(s[i])) && Count(s, s[i].rank) >= len
  {
    var i := FirstRun(s, len, 0).value;
    FirstRunIsHighest(s, len);
    RunIffCount(s, s[i].rank, len);
  }

  /** In a descending sequence the block of a lower rank that occurs comes
      after the whole block of a higher rank. */
  lemma BlockAfter(s: seq<Card>, r: Rank, lower: Rank)
    requires Descending(s) && lower != r && RankValue(lower) <= RankValue(r) && Count(s, lower) >= 1
    ensures Above(s, RankValue(r)) + Count(s, r) <= Above(s, RankValue(lower))
  {
    Block(s, r);
    Block(s, lower);
    var a := Above(s, RankValue(lower));
    assert s[a].rank == lower;
  }

  /** Seen from the input: the working copy has a run of `len` exactly when
      some rank occurs `len` times, and the first run has the highest such
      rank. */
  lemma FirstRunOfInput(cards: seq<Card>, len: nat)
    requires len >= 1
    ensures FirstRun(ByRank(cards), len, 0).None? ==> forall r :: Count(cards, r) < len
    ensures FirstRun(ByRank(cards), len, 0).Some? ==>
      var s := ByRank(cards);
      var i := FirstRun(s, len, 0).value;
      Count(cards, s[i].rank) >= len &&
      forall r :: Count(cards, r) >= len ==> RankValue(r) <= Val(s[i])
  {
    ByRankDescends(cards);
    var s := ByRank(cards);
    SameCounts(cards);
    FirstRunIsHighest(s, len);
    if FirstRun(s, len, 0).None? {
      forall r ensures Count(cards, r) < len {
        assert Count(s, r) == Count(cards, r);
      }
    }
  }

  /** Taking the run at `k` and then the `kick` highest other cards of a
      descending copy of the input takes cards of the input, and every card
      left over ranks no higher than the last one taken. */
  lemma ChosenRun(cards: seq<Card>, s: seq<Card>, k: nat, len: nat, kick: nat)
    requires Descending(s) && multiset(s) == multiset(cards)
    requires k + len <= |s| && 1 <= kick && len + kick <= |s|
    ensures var best := s[k..k + len] + (s[..k] + s[k + len..])[..kick];
      multiset(best) <= multiset(cards) &&
      forall c :: c in multiset(cards) - multiset(best) ==> Val(c) <= Val(best[|best| - 1])
  {
    var head := s[k..k + len];
    var others := s[..k] + s[k + len..];
    CutOut(s, k, len);
    Leftovers(cards, head, others, kick);
    LastTaken(head, others, kick);
  }

  /** The last card taken after `head` is the `k`-th of `rest`. */
  lemma LastTaken(head: seq<Card>, rest: seq<Card>, k: nat)
    requires 1 <= k <= |rest|
    ensures var b := head + rest[..k]; b[|b| - 1] == rest[k - 1]
  {
  }

  /** Two disjoint slices of `s` together are part of `s`. */
  lemma TwoSlices(s: seq<Card>, i: nat, a: nat, j: nat, b: nat)
    requires i + a <= j && j + b <= |s|
    ensures multiset(s[i..i + a]) + multiset(s[j..j + b]) <= multiset(s)
  {
    assert s == s[..i] + s[i..i + a] + s[i + a..j] + s[j..j + b] + s[j + b..];
  }

  /** `s` and `t` hold the same rank at every position; they may differ in
      which suits carry those ranks. */
  predicate SameRanks(s: seq<Card>, t: seq<Card>)
  {
    |s| == |t| && forall i :: 0 <= i < |s| ==> s[i].rank == t[i].rank
  }

  /** Equal ranks survive concatenation. */
  lemma SameRanksConcat(a: seq<Card>, b: seq<Card>, c: seq<Card>, d: seq<Card>)
    requires SameRanks(a, c) && SameRanks(b, d)
    ensures SameRanks(a + b, c + d)
  {
  }

  /** Equal ranks survive slicing. */
  lemma SameRanksSlice(s: seq<Card>, t: seq<Card>, i: nat, j: nat)
    requires SameRanks(s, t) && i <= j <= |s|
    ensures SameRanks(s[i..j], t[i..j])
  {
  }

  /** Rearranging the cards does not change their number. */
  lemma ReorderedLength(p: seq<Card>, q: seq<Card>)
    requires multiset(p) == multiset(q)
    ensures |p| == |q|
  {
    assert |p| == |multiset(p)| && |q| == |multiset(q)|;
  }

  /** The working copies of two orders of the same cards hold the same
      ranks at every position; which of several cards of one rank comes
      first still follows the input order. */
  lemma ByRankReordered(p: seq<Card>, q: seq<Card>)
    requires multiset(p) == multiset(q)
    ensures SameRanks(ByRank(p), ByRank(q))
  {
    var s, t := ByRank(p), ByRank(q);
    SortSorts(ByRankDescending, p);
    SortSorts(ByRankDescending, q);
    SortedSameKeys(ByRankDescending, s, t);
    forall i | 0 <= i < |s| ensures s[i].rank == t[i].rank {
      assert Key(ByRankDescending, s[i]) == Key(ByRankDescending, t[i]);
      RankValueInjective(s[i].rank, t[i].rank);
    }
  }

  /** Runs depend on the ranks only. */
  lemma {:induction false} RunAtSameRanks(s: seq<Card>, t: seq<Card>, i: nat, len: nat)
    requires SameRanks(s, t)
    ensures RunAt(s, i, len) == RunAt(t, i, len)
    decreases len
  {
    if len > 1 {
      RunAtSameRanks(s, t, i + 1, len - 1);
    }
  }

  /** The scan for runs depends on the ranks only. */
  lemma {:induction false} FirstRunSameRanks(s: seq<Card>, t: seq<Card>, len: nat, from: nat)
    requires SameRanks(s, t)
    ensures FirstRun(s, len, from) == FirstRun(t, len, from)
    decreases |s| - from
  {
    RunAtSameRanks(s, t, from, len);
    if from + len <= |s| && !RunAt(s, from, len) {
      FirstRunSameRanks(s, t, len, from + 1);
    }
  }
}
