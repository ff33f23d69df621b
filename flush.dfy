/** FlushLocator.java: the best flush. */
module FlushLocator {
  import opened Outcomes
  import opened Ranks
  import opened Suits
  import opened Cards
  import opened Hands
  import opened CardOrder
  import opened RankScan

  /** The working copy: the input stably sorted by suit in declaration
      order and, within a suit, by descending rank. */
  function BySuit(cards: seq<Card>): (s: seq<Card>)
    ensures multiset(s) == multiset(cards) && |s| == |cards|
  {
    SortSorts(BySuitThenRankDescending, cards);
    Sort(BySuitThenRankDescending, cards)
  }

  /** The cards of suit `u`, in the order of `cs`. */
  function OfSuit(cs: seq<Card>, u: Suit): seq<Card>
  {
    if cs == [] then []
    else OfSuit(cs[..|cs| - 1], u) + (if cs[|cs| - 1].suit == u then [cs[|cs| - 1]] else [])
  }

  /** `lastStart` after position `i`: where the current run of cards of one
      suit began, judged by comparing each card with the run's first. */
  function BlockStart(s: seq<Card>, i: nat): (k: nat)
    requires i < |s|
    ensures k <= i
  {
    if i == 0 then 0
    else
      var p := BlockStart(s, i - 1);
      if s[p].suit == s[i].suit then p else i
  }

  /** The candidate list after the positions before `n`: a run start is
      recorded when its run reaches five cards. */
  function Candidates(s: seq<Card>, n: nat): (cs: seq<nat>)
    requires n <= |s|
    ensures Fits(s, cs)
  {
    if n <= 1 then []
    else Candidates(s, n - 1) + (if BlockStart(s, n - 1) + 4 == n - 1 then [n - 5] else [])
  }

  /** Every candidate leaves room for five cards. */
  predicate Fits(s: seq<Card>, cs: seq<nat>)
  {
    forall k :: 0 <= k < |cs| ==> cs[k] + 5 <= |s|
  }

  /** The rank value `off` places after candidate `c` (zero past the end,
      which a fitting candidate never reaches). */
  function ValAt(s: seq<Card>, c: nat, off: nat): nat
  {
    if c + off < |s| then Val(s[c + off]) else 0
  }

  /** The highest value at offset `off` among the candidates. */
  function MaxAt(s: seq<Card>, cs: seq<nat>, off: nat): nat
  {
    if cs == [] then 0
    else
      var m := MaxAt(s, cs[..|cs| - 1], off);
      var v := ValAt(s, cs[|cs| - 1], off);
      if v > m then v else m
  }

  /** The candidates whose value at offset `off` is `v`, in order. */
  function KeepAt(s: seq<Card>, cs: seq<nat>, off: nat, v: nat): seq<nat>
  {
    if cs == [] then []
    else
      KeepAt(s, cs[..|cs| - 1], off, v) +
      (if ValAt(s, cs[|cs| - 1], off) == v then [cs[|cs| - 1]] else [])
  }

  /** The candidates left after comparing the first `n` offsets: each pass
      keeps those with the highest value at its offset. */
  function Survivors(s: seq<Card>, cs: seq<nat>, n: nat): (r: seq<nat>)
    requires n <= 5 && Fits(s, cs)
    ensures Fits(s, r)
    ensures cs != [] ==> r != []
  {
    if n == 0 then cs
    else
      var prev := Survivors(s, cs, n - 1);
      KeepFits(s, prev, n - 1, MaxAt(s, prev, n - 1));
      KeepMaxNonEmpty(s, prev, n - 1);
      KeepAt(s, prev, n - 1, MaxAt(s, prev, n - 1))
  }

  /** Some candidate attains the highest value. */
  lemma {:induction false} KeepMaxNonEmpty(s: seq<Card>, cs: seq<nat>, off: nat)
    ensures cs != [] ==> KeepAt(s, cs, off, MaxAt(s, cs, off)) != []
  {
    if cs == [] {
      return;
    }
    var front := cs[..|cs| - 1];
    var m := MaxAt(s, front, off);
    var v := ValAt(s, cs[|cs| - 1], off);
    if v < m {
      KeepMaxNonEmpty(s, front, off);
    }
  }

  /** No candidate has a value above the highest. */
  lemma {:induction false} KeepAboveMax(s: seq<Card>, cs: seq<nat>, off: nat, v: nat)
    requires v > MaxAt(s, cs, off)
    ensures KeepAt(s, cs, off, v) == []
  {
    if cs != [] {
      KeepAboveMax(s, cs[..|cs| - 1], off, v);
    }
  }

  /** Filtering keeps candidates that fit. */
  lemma {:induction false} KeepFits(s: seq<Card>, cs: seq<nat>, off: nat, v: nat)
    ensures Fits(s, cs) ==> Fits(s, KeepAt(s, cs, off, v))
    ensures forall k :: 0 <= k < |KeepAt(s, cs, off, v)| ==>
      KeepAt(s, cs, off, v)[k] in cs && ValAt(s, KeepAt(s, cs, off, v)[k], off) == v
  {
    if cs != [] {
      KeepFits(s, cs[..|cs| - 1], off, v);
    }
  }

  /** The locator's result: fewer than five cards is an error, no candidate
      is no hand, otherwise the five cards from the surviving candidate
      that comes first, all five ranks as tie-breakers. */
  function BestFlush(cards: seq<Card>): (r: Result<Option<Hand>>)
    ensures r.Err? <==> |cards| < 5
    ensures r.Err? ==> r.error == IllegalArgument
  {
    if |cards| < 5 then Err(IllegalArgument)
    else
      var s := BySuit(cards);
      var cs := Candidates(s, |s|);
        if cs == [] then Ok(None)
      else
        Ok(Some(FlushHand(s, Survivors(s, cs, 5)[0])))
  }

  /** The Flush hand of the five cards from `start`. */
  function FlushHand(s: seq<Card>, start: nat): Hand
    requires start + 5 <= |s|
  {
    var best := s[start..start + 5];
    NewHand(Flush, best, RanksOf(best)).value
  }

  /** `findBestHand`: sort a copy by suit, record where each suit run
      reaches five cards, narrow the candidates offset by offset, then take
      the five cards of the first one left. */
  method FindBestHand(cards: seq<Card>) returns (r: Result<Option<Hand>>)
    ensures r == BestFlush(cards)
  {
    if |cards| < 5 {
      return Err(IllegalArgument);
    }
    var s := BySuit(cards);
    var candidates: seq<nat> := [];
    var lastStart := 0;
    for i := 1 to |s|
      invariant lastStart == BlockStart(s, i - 1)
      invariant candidates == Candidates(s, i)
    {
      if s[lastStart].suit == s[i].suit {
        if i - lastStart + 1 == 5 {
          candidates := candidates + [lastStart];
        }
      } else {
        lastStart := i;
      }
    }
    if candidates == [] {
      return Ok(None);
    }
    ghost var found := candidates;
    for offset := 0 to 5
      invariant candidates == Survivors(s, found, offset) && candidates != []
    {
      candidates := KeepBest(s, candidates, offset);
    }
    var start := candidates[0];
    var bestCards := s[start..start + 5];
    var bestRanks := AppendRanks([], bestCards, 0);
    assert bestRanks == RanksOf(bestCards) by {
      assert bestCards[0..] == bestCards;
    }
    var hand := NewHand(Flush, bestCards, bestRanks);
    return Ok(Some(hand.value));
  }

  /** One pass of the elimination at offset `off`: walk the candidates,
      dropping every one before a new highest value and every one below the
      current highest. */
  method KeepBest(s: seq<Card>, candidates: seq<nat>, off: nat) returns (kept: seq<nat>)
    requires off < 5 && Fits(s, candidates) && candidates != []
    ensures kept == KeepAt(s, candidates, off, MaxAt(s, candidates, off))
  {
    kept := candidates;
    var bestRank := s[kept[0] + off].rank;
    ghost var k := 1;
    assert candidates[..1][..0] == [];
    var i := 1;
    while i < |kept|
      invariant 1 <= k <= |candidates| && 1 <= i <= |kept|
      invariant RankValue(bestRank) == MaxAt(s, candidates[..k], off)
      invariant kept[..i] == KeepAt(s, candidates[..k], off, RankValue(bestRank))
      invariant kept[i..] == candidates[k..]
      decreases |candidates| - k
    {
      assert kept[i] == candidates[k];
      var rank := s[kept[i] + off].rank;
      assert ValAt(s, candidates[k], off) == RankValue(rank);
      if RankValue(rank) > RankValue(bestRank) {
        StepHigher(s, candidates, off, k, kept, i);
        bestRank := rank;
        kept := DropBefore(kept, i);
        i := 1;
      } else if RankValue(rank) < RankValue(bestRank) {
        StepLower(s, candidates, off, k, kept, i, RankValue(bestRank));
        kept := kept[..i] + kept[i + 1..];
      } else {
        StepEqual(s, candidates, off, k, kept, i, RankValue(bestRank));
        i := i + 1;
      }
      k := k + 1;
    }
    assert candidates[..k] == candidates;
  }

  /** The highest value after one more candidate. */
  lemma MaxStep(s: seq<Card>, cs: seq<nat>, off: nat, k: nat)
    requires k < |cs|
    ensures var m := MaxAt(s, cs[..k], off); var v := ValAt(s, cs[k], off);
      MaxAt(s, cs[..k + 1], off) == if v > m then v else m
  {
    assert cs[..k + 1][..k] == cs[..k];
  }

  /** The kept candidates after one more candidate. */
  lemma KeepStep(s: seq<Card>, cs: seq<nat>, off: nat, k: nat, w: nat)
    requires k < |cs|
    ensures KeepAt(s, cs[..k + 1], off, w) ==
      KeepAt(s, cs[..k], off, w) + if ValAt(s, cs[k], off) == w then [cs[k]] else []
  {
    assert cs[..k + 1][..k] == cs[..k];
  }

  /** A candidate above every earlier one: all earlier ones are dropped and
      it alone is kept so far. */
  lemma StepHigher(s: seq<Card>, cs: seq<nat>, off: nat, k: nat, kept: seq<nat>, i: nat)
    requires k < |cs| && i < |kept| && kept[i..] == cs[k..]
    requires ValAt(s, cs[k], off) > MaxAt(s, cs[..k], off)
    ensures MaxAt(s, cs[..k + 1], off) == ValAt(s, cs[k], off)
    ensures kept[i..][..1] == KeepAt(s, cs[..k + 1], off, ValAt(s, cs[k], off))
    ensures kept[i..][1..] == cs[k + 1..]
  {
    MaxStep(s, cs, off, k);
    KeepAboveMax(s, cs[..k], off, ValAt(s, cs[k], off));
    KeepStep(s, cs, off, k, ValAt(s, cs[k], off));
    assert kept[i..][..1] == [cs[k]];
  }

  /** A candidate below the highest so far is removed. */
  lemma StepLower(s: seq<Card>, cs: seq<nat>, off: nat, k: nat, kept: seq<nat>, i: nat, b: nat)
    requires k < |cs| && i < |kept| && kept[i..] == cs[k..]
    requires b == MaxAt(s, cs[..k], off) && kept[..i] == KeepAt(s, cs[..k], off, b)
    requires ValAt(s, cs[k], off) < b
    ensures var n := kept[..i] + kept[i + 1..];
      b == MaxAt(s, cs[..k + 1], off) && n[..i] == KeepAt(s, cs[..k + 1], off, b) &&
      n[i..] == cs[k + 1..]
  {
    MaxStep(s, cs, off, k);
    KeepStep(s, cs, off, k, b);
    var n := kept[..i] + kept[i + 1..];
    assert n[..i] == kept[..i];
    assert n[i..] == kept[i..][1..];
  }

  /** A candidate equal to the highest so far is kept. */
  lemma StepEqual(s: seq<Card>, cs: seq<nat>, off: nat, k: nat, kept: seq<nat>, i: nat, b: nat)
    requires k < |cs| && i < |kept| && kept[i..] == cs[k..]
    requires b == MaxAt(s, cs[..k], off) && kept[..i] == KeepAt(s, cs[..k], off, b)
    requires ValAt(s, cs[k], off) == b
    ensures b == MaxAt(s, cs[..k + 1], off) && kept[..i + 1] == KeepAt(s, cs[..k + 1], off, b) &&
      kept[i + 1..] == cs[k + 1..]
  {
    MaxStep(s, cs, off, k);
    KeepStep(s, cs, off, k, b);
    assert kept[..i + 1] == kept[..i] + [kept[i]];
    assert kept[i + 1..] == kept[i..][1..];
  }

  /** Removes the first `i` candidates one by one from the back, as the
      elimination pass does. */
  method DropBefore(xs: seq<nat>, i: nat) returns (rest: seq<nat>)
    requires i <= |xs|
    ensures rest == xs[i..]
  {
    rest := xs;
    var j := i - 1;
    while j >= 0
      invariant -1 <= j < i && rest == xs[..j + 1] + xs[i..]
    {
      rest := rest[..j] + rest[j + 1..];
      j := j - 1;
    }
  }

  /** Position `c` starts a run of at least five cards of one suit. */
  predicate RunOfFive(s: seq<Card>, c: nat)
  {
    c + 5 <= |s| && (c == 0 || s[c - 1].suit != s[c].suit) &&
    forall j :: c <= j < c + 5 ==> s[j].suit == s[c].suit
  }

  /** `BlockStart` is the start of the maximal run of one suit that holds
      position `i`. */
  lemma {:induction false} BlockStartFacts(s: seq<Card>, i: nat)
    requires i < |s|
    ensures var k := BlockStart(s, i);
      (k == 0 || s[k - 1].suit != s[k].suit) &&
      forall j :: k <= j <= i ==> s[j].suit == s[k].suit
  {
    if i > 0 {
      BlockStartFacts(s, i - 1);
    }
  }

  /** A run start reaching up to `i` is the `BlockStart` of `i`. */
  lemma BlockStartUnique(s: seq<Card>, i: nat, c: nat)
    requires c <= i < |s| && (c == 0 || s[c - 1].suit != s[c].suit)
    requires forall j :: c <= j <= i ==> s[j].suit == s[c].suit
    ensures BlockStart(s, i) == c
  {
    var k := BlockStart(s, i);
    BlockStartFacts(s, i);
  }

  /** The candidates recorded before `n` are exactly the starts of runs of
      five cards of one suit that end before `n`; they are recorded in
      increasing order. */
  lemma {:induction false} CandidatesAreRuns(s: seq<Card>, n: nat)
    requires n <= |s|
    ensures forall c: nat :: c in Candidates(s, n) ==> c + 5 <= n && RunOfFive(s, c)
    ensures forall c: nat :: c + 5 <= n && RunOfFive(s, c) ==> c in Candidates(s, n)
    ensures forall a, b :: 0 <= a < b < |Candidates(s, n)| ==>
      Candidates(s, n)[a] < Candidates(s, n)[b]
  {
    if n > 1 {
      CandidatesAreRuns(s, n - 1);
      var i := n - 1;
      BlockStartFacts(s, i);
      var prev := Candidates(s, n - 1);
      if BlockStart(s, i) + 4 == i {
        assert Candidates(s, n) == prev + [n - 5];
        assert RunOfFive(s, n - 5);
        forall a | 0 <= a < |prev| ensures prev[a] < n - 5 {
          assert prev[a] in prev;
        }
      } else {
        assert Candidates(s, n) == prev;
      }
      forall c: nat | c + 5 <= n && RunOfFive(s, c) ensures c in Candidates(s, n) {
        if c + 5 == n {
          BlockStartUnique(s, i, c);
        }
      }
    }
  }

  /** Filtering by suit distributes over concatenation. */
  lemma {:induction false} OfSuitAppend(a: seq<Card>, b: seq<Card>, u: Suit)
    ensures OfSuit(a + b, u) == OfSuit(a, u) + OfSuit(b, u)
    decreases |b|
  {
    if b == [] {
      assert a + b == a;
    } else {
      var front := b[..|b| - 1];
      var last := b[|b| - 1];
      OfSuitAppend(a, front, u);
      assert (a + b)[..|a + b| - 1] == a + front;
      assert (a + b)[|a + b| - 1] == last;
      var t := if last.suit == u then [last] else [];
      assert OfSuit(a + b, u) == OfSuit(a + front, u) + t;
      assert OfSuit(b, u) == OfSuit(front, u) + t;
    }
  }

  /** Filtering never lengthens. */
  lemma {:induction false} OfSuitLength(a: seq<Card>, u: Suit)
    ensures |OfSuit(a, u)| <= |a|
  {
    if a != [] {
      OfSuitLength(a[..|a| - 1], u);
    }
  }

  /** Without a card of suit `u` the filter is empty. */
  lemma {:induction false} OfSuitNone(a: seq<Card>, u: Suit)
    requires forall j :: 0 <= j < |a| ==> a[j].suit != u
    ensures OfSuit(a, u) == []
  {
    if a != [] {
      OfSuitNone(a[..|a| - 1], u);
    }
  }

  /** With only cards of suit `u` the filter keeps everything. */
  lemma {:induction false} OfSuitAll(a: seq<Card>, u: Suit)
    requires forall j :: 0 <= j < |a| ==> a[j].suit == u
    ensures OfSuit(a, u) == a
  {
    if a != [] {
      OfSuitAll(a[..|a| - 1], u);
      assert a[..|a| - 1] + [a[|a| - 1]] == a;
    }
  }

  /** The filter keeps every copy of the cards of suit `u` and nothing
      else. */
  lemma {:induction false} OfSuitMultiset(a: seq<Card>, u: Suit)
    ensures forall c :: multiset(OfSuit(a, u))[c] == if c.suit == u then multiset(a)[c] else 0
  {
    if a != [] {
      var front := a[..|a| - 1];
      OfSuitMultiset(front, u);
      assert a == front + [a[|a| - 1]];
    }
  }

  /** Two orderings of the same cards have as many cards of each suit. */
  lemma OfSuitPermutation(a: seq<Card>, b: seq<Card>, u: Suit)
    requires multiset(a) == multiset(b)
    ensures |OfSuit(a, u)| == |OfSuit(b, u)|
  {
    OfSuitMultiset(a, u);
    OfSuitMultiset(b, u);
    assert multiset(OfSuit(a, u)) == multiset(OfSuit(b, u));
    assert |multiset(OfSuit(a, u))| == |OfSuit(a, u)|;
    assert |multiset(OfSuit(b, u))| == |OfSuit(b, u)|;
  }

  /** Position `c` holds the first card of its suit in a suit-sorted
      copy. */
  predicate FirstOfSuit(s: seq<Card>, c: nat)
  {
    c < |s| && (c == 0 || s[c - 1].suit != s[c].suit)
  }

  /** In a suit-sorted copy no card before the first of a suit has that
      suit. */
  lemma BeforeFirst(s: seq<Card>, c: nat)
    requires Sorted(BySuitThenRankDescending, s) && FirstOfSuit(s, c)
    ensures forall j :: 0 <= j < c ==> s[j].suit != s[c].suit
  {
    SuitOrderGroups(s);
    forall j | 0 <= j < c ensures s[j].suit != s[c].suit {
      assert SuitOrdinal(s[j].suit) <= SuitOrdinal(s[c - 1].suit) <= SuitOrdinal(s[c].suit);
    }
  }

  /** In a suit-sorted copy the cards of the suit at a first position all
      come from that position on. */
  lemma SuitFrom(s: seq<Card>, c: nat)
    requires Sorted(BySuitThenRankDescending, s) && FirstOfSuit(s, c)
    ensures OfSuit(s, s[c].suit) == OfSuit(s[c..], s[c].suit)
  {
    var u := s[c].suit;
    BeforeFirst(s, c);
    OfSuitNone(s[..c], u);
    assert s == s[..c] + s[c..];
    OfSuitAppend(s[..c], s[c..], u);
  }

  /** In a suit-sorted copy, once a card of another suit follows suit `u`
      no card of suit `u` comes later. */
  lemma SuitEnds(s: seq<Card>, c: nat, j: nat)
    requires Sorted(BySuitThenRankDescending, s) && c <= j < |s| && s[j].suit != s[c].suit
    ensures OfSuit(s[j..], s[c].suit) == []
  {
    SuitOrderGroups(s);
    var u := s[c].suit;
    forall l | j <= l < |s| ensures s[l].suit != u {
      assert SuitOrdinal(u) <= SuitOrdinal(s[j].suit) <= SuitOrdinal(s[l].suit);
    }
    OfSuitNone(s[j..], u);
  }

  /** A run of five cards of one suit gives that suit five cards. */
  lemma RunGivesFive(s: seq<Card>, c: nat)
    requires RunOfFive(s, c)
    ensures |OfSuit(s[c..], s[c].suit)| >= 5
  {
    var u := s[c].suit;
    var t := s[c..];
    assert t == t[..5] + t[5..];
    OfSuitAppend(t[..5], t[5..], u);
    OfSuitAll(t[..5], u);
  }

  /** When a first card of a suit starts no run of five, that suit has
      fewer than five cards from there on. */
  lemma NoRunFewer(s: seq<Card>, c: nat)
    requires Sorted(BySuitThenRankDescending, s) && FirstOfSuit(s, c) && !RunOfFive(s, c)
    ensures |OfSuit(s[c..], s[c].suit)| < 5
  {
    var u := s[c].suit;
    var t := s[c..];
    if c + 5 > |s| {
      OfSuitLength(t, u);
    } else {
      var j :| c <= j < c + 5 && s[j].suit != u;
      SuitEnds(s, c, j);
      assert t == s[c..j] + s[j..];
      OfSuitAppend(s[c..j], s[j..], u);
      OfSuitLength(s[c..j], u);
    }
  }

  /** In a suit-sorted copy the first card of a suit starts a run of five
      exactly when the suit has at least five cards. */
  lemma RunOfFiveIff(s: seq<Card>, c: nat)
    requires Sorted(BySuitThenRankDescending, s) && FirstOfSuit(s, c)
    ensures RunOfFive(s, c) <==> |OfSuit(s, s[c].suit)| >= 5
  {
    SuitFrom(s, c);
    if RunOfFive(s, c) {
      RunGivesFive(s, c);
    } else {
      NoRunFewer(s, c);
    }
  }

  /** A suit that occurs has a first position. */
  lemma {:induction false} FirstWith(s: seq<Card>, u: Suit) returns (c: nat)
    requires OfSuit(s, u) != []
    ensures c < |s| && s[c].suit == u && forall j :: 0 <= j < c ==> s[j].suit != u
  {
    var front := s[..|s| - 1];
    if OfSuit(front, u) != [] {
      c := FirstWith(front, u);
    } else {
      c := |s| - 1;
      forall j | 0 <= j < c ensures s[j].suit != u {
        if s[j].suit == u {
          OfSuitHas(front, u, j);
        }
      }
    }
  }

  /** A card of suit `u` makes the filter non-empty. */
  lemma {:induction false} OfSuitHas(a: seq<Card>, u: Suit, j: nat)
    requires j < |a| && a[j].suit == u
    ensures OfSuit(a, u) != []
  {
    if j < |a| - 1 {
      OfSuitHas(a[..|a| - 1], u, j);
    }
  }

  /** Each suit with at least five cards contributes exactly one candidate,
      the position of its first card in the working copy, and nothing else
      is a candidate; candidates are recorded in increasing order. */
  lemma FlushCandidates(cards: seq<Card>)
    ensures var s := BySuit(cards); var cs := Candidates(s, |s|);
      (forall c: nat :: c in cs ==> FirstOfSuit(s, c) && |OfSuit(cards, s[c].suit)| >= 5) &&
      (forall c: nat :: FirstOfSuit(s, c) && |OfSuit(cards, s[c].suit)| >= 5 ==> c in cs) &&
      (forall a, b :: 0 <= a < b < |cs| ==> cs[a] < cs[b])
  {
    var s := BySuit(cards);
    SortSorts(BySuitThenRankDescending, cards);
    CandidatesAreRuns(s, |s|);
    forall c: nat | FirstOfSuit(s, c)
      ensures RunOfFive(s, c) <==> |OfSuit(cards, s[c].suit)| >= 5
    {
      RunOfFiveIff(s, c);
      OfSuitPermutation(s, cards, s[c].suit);
    }
  }

  /** No hand is found exactly when no suit has five cards. */
  lemma FlushAbsentIff(cards: seq<Card>)
    requires |cards| >= 5
    ensures BestFlush(cards) == Ok(None) <==> forall u :: |OfSuit(cards, u)| < 5
  {
    var s := BySuit(cards);
    var cs := Candidates(s, |s|);
    FlushCandidates(cards);
    if cs != [] {
      assert cs[0] in cs;
    }
    if u :| |OfSuit(cards, u)| >= 5 {
      OfSuitPermutation(s, cards, u);
      var c := FirstWith(s, u);
      assert FirstOfSuit(s, c);
      assert c in cs;
    }
  }

  /** Candidates `c` and `d` agree on their first `n` rank values. */
  predicate Same(s: seq<Card>, c: nat, d: nat, n: nat)
  {
    n == 0 || (Same(s, c, d, n - 1) && ValAt(s, c, n - 1) == ValAt(s, d, n - 1))
  }

  /** The first `n` rank values of candidate `c` are lexicographically
      below those of `d`: they agree up to some offset, where `c` is lower. */
  predicate Below(s: seq<Card>, c: nat, d: nat, n: nat)
  {
    n > 0 && (Below(s, c, d, n - 1) ||
              (Same(s, c, d, n - 1) && ValAt(s, c, n - 1) < ValAt(s, d, n - 1)))
  }

  /** Being below rules out agreeing and being above. */
  lemma {:induction false} BelowExcludes(s: seq<Card>, c: nat, d: nat, n: nat)
    requires Below(s, c, d, n)
    ensures !Below(s, d, c, n) && !Same(s, c, d, n)
  {
    if Below(s, c, d, n - 1) {
      BelowExcludes(s, c, d, n - 1);
      SameSymmetric(s, c, d, n - 1);
    } else {
      SameNotBelow(s, c, d, n - 1);
    }
  }

  /** Agreeing is symmetric. */
  lemma {:induction false} SameSymmetric(s: seq<Card>, c: nat, d: nat, n: nat)
    ensures Same(s, c, d, n) <==> Same(s, d, c, n)
  {
    if n > 0 {
      SameSymmetric(s, c, d, n - 1);
    }
  }

  /** Agreeing on a prefix rules out being below on it. */
  lemma {:induction false} SameNotBelow(s: seq<Card>, c: nat, d: nat, n: nat)
    requires Same(s, c, d, n)
    ensures !Below(s, d, c, n) && !Below(s, c, d, n)
  {
    if n > 0 {
      SameNotBelow(s, c, d, n - 1);
    }
  }

  /** Candidates increase along the list. */
  predicate Increasing(cs: seq<nat>)
  {
    forall a, b :: 0 <= a < b < |cs| ==> cs[a] < cs[b]
  }

  /** What holds of the candidates `S` left from `cs` after `n` offsets:
      they come from `cs` in order, agree on the first `n` values, and every
      candidate dropped is lexicographically below every one left. */
  ghost predicate Ranked(s: seq<Card>, cs: seq<nat>, S: seq<nat>, n: nat)
  {
    (forall x :: x in S ==> x in cs) && Increasing(S) &&
    (forall x, y :: x in S && y in S ==> Same(s, x, y, n)) &&
    (forall d, x :: d in cs && d !in S && x in S ==> Below(s, d, x, n))
  }

  /** Every value is at most the highest. */
  lemma {:induction false} MaxAtBounds(s: seq<Card>, cs: seq<nat>, off: nat)
    ensures forall x :: x in cs ==> ValAt(s, x, off) <= MaxAt(s, cs, off)
  {
    if cs != [] {
      var front := cs[..|cs| - 1];
      MaxAtBounds(s, front, off);
      assert cs == front + [cs[|cs| - 1]];
    }
  }

  /** Filtering keeps exactly the candidates with the value, in order. */
  lemma {:induction false} KeepExactly(s: seq<Card>, cs: seq<nat>, off: nat, v: nat)
    requires Increasing(cs)
    ensures forall x :: x in KeepAt(s, cs, off, v) <==> x in cs && ValAt(s, x, off) == v
    ensures Increasing(KeepAt(s, cs, off, v))
  {
    if cs != [] {
      var front := cs[..|cs| - 1];
      KeepExactly(s, front, off, v);
      assert cs == front + [cs[|cs| - 1]];
      var kept := KeepAt(s, front, off, v);
      forall a | 0 <= a < |kept| ensures kept[a] < cs[|cs| - 1] {
        assert kept[a] in front;
      }
    }
  }

  /** One more pass keeps the ranking. */
  lemma SurvivorsStep(s: seq<Card>, cs: seq<nat>, S: seq<nat>, n: nat)
    requires Ranked(s, cs, S, n)
    ensures Ranked(s, cs, KeepAt(s, S, n, MaxAt(s, S, n)), n + 1)
  {
    var m := MaxAt(s, S, n);
    var next := KeepAt(s, S, n, m);
    MaxAtBounds(s, S, n);
    KeepExactly(s, S, n, m);
    forall d, x | d in cs && d !in next && x in next ensures Below(s, d, x, n + 1) {
      if d in S {
        assert Same(s, d, x, n);
      }
    }
  }

  /** Before any pass all candidates are left. */
  lemma RankedStart(s: seq<Card>, cs: seq<nat>)
    requires Increasing(cs)
    ensures Ranked(s, cs, cs, 0)
  {
  }

  /** After `n` passes the survivors are ranked. */
  lemma {:induction false} SurvivorsRanked(s: seq<Card>, cs: seq<nat>, n: nat)
    requires n <= 5 && Fits(s, cs) && Increasing(cs)
    ensures Ranked(s, cs, Survivors(s, cs, n), n)
  {
    if n == 0 {
      RankedStart(s, cs);
    } else {
      SurvivorsRanked(s, cs, n - 1);
      var prev := Survivors(s, cs, n - 1);
      SurvivorsStep(s, cs, prev, n - 1);
      assert Survivors(s, cs, n) == KeepAt(s, prev, n - 1, MaxAt(s, prev, n - 1));
    }
  }

  /** The chosen candidate has the lexicographically greatest five rank
      values among the candidates, and every earlier candidate is strictly
      lower: ties go to the suit that comes first. */
  lemma FlushIsBest(cards: seq<Card>)
    requires BestFlush(cards).Ok? && BestFlush(cards).value.Some?
    ensures var s := BySuit(cards);
      var cs := Candidates(s, |s|);
      var w := Survivors(s, cs, 5)[0];
      w in cs && BestFlush(cards).value.value == FlushHand(s, w) &&
      (forall d :: d in cs ==> !Below(s, w, d, 5)) &&
      (forall d :: d in cs && d < w ==> Below(s, d, w, 5))
  {
    var s := BySuit(cards);
    var cs := Candidates(s, |s|);
    CandidatesAreRuns(s, |s|);
    SurvivorsRanked(s, cs, 5);
    var S := Survivors(s, cs, 5);
    var w := S[0];
    forall d | d in cs ensures !Below(s, w, d, 5) {
      if d in S {
        SameNotBelow(s, d, w, 5);
      } else {
        BelowExcludes(s, d, w, 5);
      }
    }
    forall d | d in cs && d < w ensures Below(s, d, w, 5) {
      assert d !in S;
    }
  }

  /** The flush is the five highest cards of one suit of the input, in
      descending rank order, and its tie-break ranks are those five. */
  lemma FlushShape(cards: seq<Card>)
    requires BestFlush(cards).Ok? && BestFlush(cards).value.Some?
    ensures var s := BySuit(cards);
      var w := Survivors(s, Candidates(s, |s|), 5)[0];
      var best := s[w..w + 5];
      var h := BestFlush(cards).value.value;
      h.category == Flush && h.ranks == RanksOf(best) && h.cards == CardSet(best) &&
      multiset(best) <= multiset(cards) &&
      (forall k :: 0 <= k < 5 ==> best[k].suit == best[0].suit) &&
      (forall a, b :: 0 <= a < b < 5 ==> Val(best[a]) >= Val(best[b])) &&
      (forall c :: c in multiset(cards) - multiset(best) && c.suit == best[0].suit ==>
        Val(c) <= Val(best[4]))
  {
    var s := BySuit(cards);
    var cs := Candidates(s, |s|);
    var w := Survivors(s, cs, 5)[0];
    FlushIsBest(cards);
    assert RunOfFive(s, w) by {
      CandidatesAreRuns(s, |s|);
    }
    SortSorts(BySuitThenRankDescending, cards);
    FlushHandAt(cards, s, w);
  }

  /** The Flush hand of the five cards from the start of a run of five in a
      suit-sorted copy. */
  lemma FlushHandAt(cards: seq<Card>, s: seq<Card>, w: nat)
    requires Sorted(BySuitThenRankDescending, s) && multiset(s) == multiset(cards) && RunOfFive(s, w)
    ensures var best := s[w..w + 5];
      var h := FlushHand(s, w);
      h.category == Flush && h.ranks == RanksOf(best) && h.cards == CardSet(best) &&
      multiset(best) <= multiset(cards) &&
      (forall k :: 0 <= k < 5 ==> best[k].suit == best[0].suit) &&
      (forall a, b :: 0 <= a < b < 5 ==> Val(best[a]) >= Val(best[b])) &&
      (forall c :: c in multiset(cards) - multiset(best) && c.suit == best[0].suit ==>
        Val(c) <= Val(best[4]))
  {
    ChosenFlush(cards, s, w);
    var best := s[w..w + 5];
    forall a, b | 0 <= a < b < 5 ensures Val(best[a]) >= Val(best[b]) {
      assert best[a] == s[w + a] && best[b] == s[w + b];
    }
    forall k | 0 <= k < 5 ensures best[k].suit == best[0].suit {
      assert best[k] == s[w + k] && best[0] == s[w];
    }
    assert best[4] == s[w + 4];
  }

  /** Five cards from the start of a run of five in a suit-sorted copy:
      drawn from the input, descending in rank, and no other card of their
      suit ranks above the fifth. */
  lemma ChosenFlush(cards: seq<Card>, s: seq<Card>, w: nat)
    requires Sorted(BySuitThenRankDescending, s) && multiset(s) == multiset(cards) && RunOfFive(s, w)
    ensures multiset(s[w..w + 5]) <= multiset(cards)
    ensures forall a, b :: w <= a < b < w + 5 ==> Val(s[a]) >= Val(s[b])
    ensures forall c :: c in multiset(cards) - multiset(s[w..w + 5]) && c.suit == s[w].suit ==>
      Val(c) <= Val(s[w + 4])
  {
    SliceOut(s, w, 5);
    FlushRun(s, w);
    FlushLeftovers(s, w);
  }

  /** The five cards from `w` share a suit and descend in rank. */
  lemma FlushRun(s: seq<Card>, w: nat)
    requires Sorted(BySuitThenRankDescending, s) && RunOfFive(s, w)
    ensures forall a, b :: w <= a < b < w + 5 ==> Val(s[a]) >= Val(s[b])
  {
    SuitOrderGroups(s);
  }

  /** The cards around the five from `w` that share their suit rank no
      higher than the fifth. */
  lemma FlushLeftovers(s: seq<Card>, w: nat)
    requires Sorted(BySuitThenRankDescending, s) && RunOfFive(s, w)
    ensures forall c :: c in s[..w] + s[w + 5..] && c.suit == s[w].suit ==> Val(c) <= Val(s[w + 4])
  {
    BeforeFirst(s, w);
    var rest := s[..w] + s[w + 5..];
    forall c | c in rest && c.suit == s[w].suit ensures Val(c) <= Val(s[w + 4]) {
      var j :| 0 <= j < |rest| && rest[j] == c;
      assert j >= w;
      assert c == s[j + 5];
      SuitOrderAt(s, w + 4, j + 5);
    }
  }

  /** The flush order's key tells cards apart. */
  lemma SuitKeyInjective(a: Card, b: Card)
    requires Key(BySuitThenRankDescending, a) == Key(BySuitThenRankDescending, b)
    ensures a == b
  {
    SuitOrdinalInjective(a.suit, b.suit);
    RankValueInjective(a.rank, b.rank);
  }

  /** The suit-sorted copy does not depend on the input order at all: the
      key of the flush order tells cards apart. */
  lemma BySuitReordered(p: seq<Card>, q: seq<Card>)
    requires multiset(p) == multiset(q)
    ensures BySuit(p) == BySuit(q)
  {
    var s, t := BySuit(p), BySuit(q);
    SortSorts(BySuitThenRankDescending, p);
    SortSorts(BySuitThenRankDescending, q);
    SortedSameKeys(BySuitThenRankDescending, s, t);
    forall i | 0 <= i < |s| ensures s[i] == t[i] {
      SuitKeyInjective(s[i], t[i]);
    }
  }

  /** Reordering the input gives exactly the same result, cards included. */
  lemma FlushReordered(p: seq<Card>, q: seq<Card>)
    requires multiset(p) == multiset(q)
    ensures BestFlush(p) == BestFlush(q)
  {
    ReorderedLength(p, q);
    BySuitReordered(p, q);
  }

  /** The cards of suit `u` keep their multiplicity; the others are gone. */
  lemma {:induction false} OfSuitCount(cs: seq<Card>, u: Suit, c: Card)
    ensures multiset(OfSuit(cs, u))[c] == if c.suit == u then multiset(cs)[c] else 0
  {
    if cs != [] {
      var n := |cs| - 1;
      OfSuitCount(cs[..n], u, c);
      assert cs == cs[..n] + [cs[n]];
    }
  }

  /** The cards of one suit of two orders of the same cards are the same
      cards. */
  lemma OfSuitReordered(p: seq<Card>, q: seq<Card>, u: Suit)
    requires multiset(p) == multiset(q)
    ensures multiset(OfSuit(p, u)) == multiset(OfSuit(q, u))
  {
    forall c ensures multiset(OfSuit(p, u))[c] == multiset(OfSuit(q, u))[c] {
      OfSuitCount(p, u, c);
      OfSuitCount(q, u, c);
    }
  }
}
