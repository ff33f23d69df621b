/** Playing cards and their text notation (Card.java). */
module Cards {
  import opened Outcomes
  import opened Ranks
  import opened Suits

  /** A card is a suit and a rank; `getSuit` and `getRank` are its fields. */
  datatype Card = Card(suit: Suit, rank: Rank)

  /** `Card.values()`: the 52 constants, suit by suit in suit declaration
      order, each suit from Two up to Ace. */
  const AllCards: seq<Card> := seq(52, i requires 0 <= i < 52 => Card(AllSuits[i / 13], AllRanks[i % 13]))

  /** Position of a card in the card table. */
  function CardIndex(c: Card): (i: nat)
    ensures i < 52
  {
    SuitOrdinal(c.suit) * 13 + RankValue(c.rank)
  }

  /** The table has exactly 52 entries, every card sits at its index, and no
      two entries share both suit and rank. */
  lemma CardTable(c: Card)
    ensures |AllCards| == 52
    ensures AllCards[CardIndex(c)] == c
    ensures forall i, j :: 0 <= i < j < |AllCards| ==> AllCards[i] != AllCards[j]
  {
    var k := CardIndex(c);
    assert k / 13 == SuitOrdinal(c.suit) && k % 13 == RankValue(c.rank);
    forall i, j | 0 <= i < j < |AllCards|
      ensures AllCards[i] != AllCards[j]
    {
      RankValueIsPosition(i % 13);
      RankValueIsPosition(j % 13);
      AllSuitsComplete(Spades);
      if i / 13 == j / 13 {
        assert i % 13 != j % 13;
      }
    }
  }

  /** The first and last entries of the table. */
  lemma CardTableEnds()
    ensures AllCards[0] == Card(Spades, Two)
    ensures AllCards[12] == Card(Spades, Ace)
    ensures AllCards[13] == Card(Hearts, Two)
    ensures AllCards[51] == Card(Clubs, Ace)
  {
  }

  /** `getCard`: a linear search of the card table for the entry with the
      given suit and rank. The search always succeeds. */
  method GetCard(suit: Suit, rank: Rank) returns (c: Card)
    ensures c in AllCards
    ensures c.suit == suit && c.rank == rank
  {
    CardTable(Card(suit, rank));
    var i := 0;
    while AllCards[i].suit != suit || AllCards[i].rank != rank
      invariant 0 <= i <= CardIndex(Card(suit, rank))
      decreases CardIndex(Card(suit, rank)) - i
    {
      i := i + 1;
    }
    c := AllCards[i];
  }

  // ---------------------------------------------------------------------
  // String.split(" ")

  /** The fields of `s` between single spaces: k spaces give k + 1 fields,
      so a leading, trailing or doubled space yields an empty field. */
  function Fields(s: string): (fs: seq<string>)
    ensures |fs| >= 1
    ensures forall i :: 0 <= i < |fs| ==> ' ' !in fs[i]
  {
    if s == [] then [""]
    else
      var rest := Fields(s[1..]);
      if s[0] == ' ' then [""] + rest
      else [[s[0]] + rest[0]] + rest[1..]
  }

  /** `String.split` drops the empty fields at the end of the result. */
  function DropTrailingEmpty(fs: seq<string>): (r: seq<string>)
    ensures r <= fs
    ensures r == [] || r[|r| - 1] != ""
    ensures forall i :: |r| <= i < |fs| ==> fs[i] == ""
  {
    if fs == [] then []
    else if fs[|fs| - 1] == "" then DropTrailingEmpty(fs[..|fs| - 1])
    else fs
  }

  /** `s.split(" ")`. */
  function Tokens(s: string): seq<string>
  {
    DropTrailingEmpty(Fields(s))
  }

  /** Joins fields with single spaces, the inverse of `Fields`. */
  function JoinFields(fs: seq<string>): string
    requires |fs| >= 1
  {
    if |fs| == 1 then fs[0] else fs[0] + " " + JoinFields(fs[1..])
  }

  /** Splitting space-joined fields that contain no space gives the fields back. */
  lemma {:induction false} FieldsOfJoin(fs: seq<string>)
    requires |fs| >= 1
    requires forall i :: 0 <= i < |fs| ==> ' ' !in fs[i]
    ensures Fields(JoinFields(fs)) == fs
  {
    if |fs| == 1 {
      FieldsOfField(fs[0], []);
    } else {
      FieldsOfJoin(fs[1..]);
      FieldsOfField(fs[0], fs[1..]);
    }
  }

  /** A field without spaces followed by `" " + JoinFields(rest)`, or by
      nothing, is split into that field and `rest`. */
  lemma {:induction false} FieldsOfField(f: string, rest: seq<string>)
    requires ' ' !in f
    requires rest != [] ==> Fields(JoinFields(rest)) == rest
    ensures rest == [] ==> Fields(f) == [f]
    ensures rest != [] ==> Fields(f + " " + JoinFields(rest)) == [f] + rest
  {
    if f == [] {
      if rest != [] {
        assert f + " " + JoinFields(rest) == " " + JoinFields(rest);
        assert (" " + JoinFields(rest))[1..] == JoinFields(rest);
      }
    } else {
      FieldsOfField(f[1..], rest);
      assert f[0] != ' ' && [f[0]] + f[1..] == f;
      if rest == [] {
        assert Fields(f[1..]) == [f[1..]];
      } else {
        var s := f + " " + JoinFields(rest);
        assert s[1..] == f[1..] + " " + JoinFields(rest);
        assert s[0] == f[0];
        assert Fields(s[1..]) == [f[1..]] + rest;
      }
    }
  }

  // ---------------------------------------------------------------------
  // Card.parse

  /** One two-character token: rank character, then suit character. */
  function ParseToken(t: string): (r: Result<Card>)
    ensures r.Ok? <==> |t| == 2 && ParseRank(t[0]).Ok? && ParseSuit(t[1]).Ok?
    ensures r.Ok? ==> r.value == Card(ParseSuit(t[1]).value, ParseRank(t[0]).value)
    ensures r.Err? ==> r.error == IllegalArgument
  {
    if |t| != 2 then Err(IllegalArgument)
    else match ParseRank(t[0])
      case Err(e) => Err(e)
      case Ok(rank) =>
        match ParseSuit(t[1])
        case Err(e) => Err(e)
        case Ok(suit) => Ok(Card(suit, rank))
  }

  /** Parses the tokens in order, failing at the first bad one. */
  function ParseTokens(ts: seq<string>): (r: Result<seq<Card>>)
    ensures r.Ok? <==> forall i :: 0 <= i < |ts| ==> ParseToken(ts[i]).Ok?
    ensures r.Ok? ==> |r.value| == |ts|
    ensures r.Ok? ==> forall i :: 0 <= i < |ts| ==> r.value[i] == ParseToken(ts[i]).value
    ensures r.Err? ==> r.error == IllegalArgument
  {
    if ts == [] then Ok([])
    else match ParseToken(ts[0])
      case Err(e) => Err(e)
      case Ok(c) =>
        match ParseTokens(ts[1..])
        case Err(e) => Err(e)
        case Ok(cs) => Ok([c] + cs)
  }

  /** `Card.parse(String)`: the empty string is no cards; otherwise one card
      per space-separated token, in string order. */
  function Parse(s: string): (r: Result<seq<Card>>)
    ensures s == "" ==> r == Ok([])
    ensures r.Err? ==> r.error == IllegalArgument
    ensures r.Ok? && s != "" ==> |r.value| == |Tokens(s)|
  {
    if s == "" then Ok([]) else ParseTokens(Tokens(s))
  }

  /** The body of the loop of `Card.parse`: the token is checked for
      length, read as a rank and a suit, and looked up in the table. */
  method ReadToken(token: string) returns (r: Result<Card>)
    ensures r == ParseToken(token)
  {
    if |token| != 2 {
      return Err(IllegalArgument);
    }
    var rank := ParseRank(token[0]);
    if rank.Err? {
      return Err(rank.error);
    }
    var suit := ParseSuit(token[1]);
    if suit.Err? {
      return Err(suit.error);
    }
    var card := GetCard(suit.value, rank.value);
    return Ok(card);
  }

  /** The loop of `Card.parse`: one card per token, appended in order; the
      first bad token ends the parse. */
  method ParseCards(s: string) returns (r: Result<seq<Card>>)
    ensures r == Parse(s)
  {
    if s == "" {
      return Ok([]);
    }
    var tokens := Tokens(s);
    var cards: seq<Card> := [];
    for i := 0 to |tokens|
      invariant |cards| == i
      invariant forall k :: 0 <= k < i ==> ParseToken(tokens[k]) == Ok(cards[k])
    {
      var card := ReadToken(tokens[i]);
      if card.Err? {
        Rejected(tokens, i);
        return Err(IllegalArgument);
      }
      assert ParseToken(tokens[i]) == Ok(card.value);
      ghost var before := cards;
      cards := cards + [card.value];
      forall k | 0 <= k <= i ensures ParseToken(tokens[k]) == Ok(cards[k]) {
        if k < i {
          assert cards[k] == before[k];
        }
      }
    }
    Accepted(tokens, cards);
    return Ok(cards);
  }

  /** One rejected token makes the whole list rejected. */
  lemma Rejected(ts: seq<string>, i: nat)
    requires i < |ts| && ParseToken(ts[i]).Err?
    ensures ParseTokens(ts) == Err(IllegalArgument)
  {
  }

  /** Cards matching every token, in order, are the parse of the tokens. */
  lemma Accepted(ts: seq<string>, cs: seq<Card>)
    requires |cs| == |ts|
    requires forall k :: 0 <= k < |ts| ==> ParseToken(ts[k]) == Ok(cs[k])
    ensures ParseTokens(ts) == Ok(cs)
  {
    assert ParseTokens(ts).Ok?;
    assert ParseTokens(ts).value == cs;
  }

  /** The notation of one card, e.g. "Ah". */
  function CardToken(c: Card): (t: string)
    ensures |t| == 2 && ' ' !in t
    ensures ParseToken(t) == Ok(c)
  {
    ParseRankChar(c.rank);
    ParseSuitChar(c.suit);
    [RankChar(c.rank), SuitChar(c.suit)]
  }

  /** The notation of a card list, tokens separated by single spaces. */
  function Format(cs: seq<Card>): string
  {
    if cs == [] then "" else JoinFields(seq(|cs|, i requires 0 <= i < |cs| => CardToken(cs[i])))
  }

  /** Parsing the notation of a card list gives the list back. */
  lemma FormatRoundTrip(cs: seq<Card>)
    ensures Parse(Format(cs)) == Ok(cs)
  {
    if cs != [] {
      var ts := seq(|cs|, i requires 0 <= i < |cs| => CardToken(cs[i]));
      FieldsOfJoin(ts);
      assert Tokens(Format(cs)) == ts;
      assert Format(cs) != "" by {
        assert |CardToken(cs[0])| == 2;
        assert |JoinFields(ts)| >= |ts[0]| by { JoinFieldsStartsWithFirst(ts); }
      }
      assert ParseTokens(ts).value == cs;
    }
  }

  /** A joined string begins with its first field. */
  lemma JoinFieldsStartsWithFirst(fs: seq<string>)
    requires |fs| >= 1
    ensures fs[0] <= JoinFields(fs)
  {
  }

  /** A trailing space is tolerated: it only adds an empty last field. */
  lemma TrailingSpaceTolerated(cs: seq<Card>)
    requires cs != []
    ensures Parse(Format(cs) + " ") == Ok(cs)
  {
    var ts := seq(|cs|, i requires 0 <= i < |cs| => CardToken(cs[i]));
    TrailingSpaceTokens(cs, ts);
    Accepted(ts, cs);
  }

  /** With a trailing space the tokens are still one per card. */
  lemma TrailingSpaceTokens(cs: seq<Card>, ts: seq<string>)
    requires cs != []
    requires ts == seq(|cs|, i requires 0 <= i < |cs| => CardToken(cs[i]))
    ensures Tokens(Format(cs) + " ") == ts
  {
    var fs := ts + [""];
    var x := Format(cs) + " ";
    assert x == JoinFields(fs) by { JoinAppendEmpty(ts); }
    assert Fields(x) == fs by { FieldsOfJoin(fs); }
    assert DropTrailingEmpty(ts) == ts by {
      assert ts[|ts| - 1] == CardToken(cs[|cs| - 1]) != "";
    }
    assert DropTrailingEmpty(fs) == ts by {
      assert fs[..|fs| - 1] == ts;
    }
  }

  /** Joining with one more, empty, field appends a single space. */
  lemma {:induction false} JoinAppendEmpty(ts: seq<string>)
    requires |ts| >= 1
    ensures JoinFields(ts + [""]) == JoinFields(ts) + " "
  {
    if |ts| > 1 {
      JoinAppendEmpty(ts[1..]);
      assert (ts + [""])[1..] == ts[1..] + [""];
    }
  }

  /** A leading space yields an empty first token, which is rejected. */
  lemma LeadingSpaceRejected(cs: seq<Card>)
    requires cs != []
    ensures Parse(" " + Format(cs)) == Err(IllegalArgument)
  {
    var ts := seq(|cs|, i requires 0 <= i < |cs| => CardToken(cs[i]));
    FieldsOfJoin(ts);
    var n := |cs| - 1;
    assert ts[n] == CardToken(cs[n]);
    LeadingEmptyToken(Format(cs));
    assert ParseToken("").Err?;
  }

  /** A leading space puts an empty token in front, as long as the last
      field is not empty. */
  lemma LeadingEmptyToken(t: string)
    requires Fields(t)[|Fields(t)| - 1] != ""
    ensures Tokens(" " + t) == [""] + Fields(t)
  {
    assert (" " + t)[1..] == t;
    var fs := [""] + Fields(t);
    assert fs[|fs| - 1] == Fields(t)[|Fields(t)| - 1];
  }

  /** A token of the wrong length, such as "As,2c", is rejected. */
  lemma CommaSeparatedRejected()
    ensures Parse("As,2c") == Err(IllegalArgument)
  {
    FieldsOfField("As,2c", []);
    assert Tokens("As,2c") == ["As,2c"];
  }
}
