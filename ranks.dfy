/** The thirteen card ranks (Rank.java). */
module Ranks {
  import opened Outcomes
  import opened Chars

  /** Declared lowest to highest; there is no low ace. */
  datatype Rank = Two | Three | Four | Five | Six | Seven | Eight | Nine | Ten
                | Jack | Queen | King | Ace

  /** `Rank.values()`: the ranks in declaration order. */
  const AllRanks: seq<Rank> :=
    [Two, Three, Four, Five, Six, Seven, Eight, Nine, Ten, Jack, Queen, King, Ace]

  /** `getRankValue`: the rank's ordinal, its position in the declaration. */
  function RankValue(r: Rank): (v: nat)
    ensures v <= 12
  {
    match r
    case Two => 0
    case Three => 1
    case Four => 2
    case Five => 3
    case Six => 4
    case Seven => 5
    case Eight => 6
    case Nine => 7
    case Ten => 8
    case Jack => 9
    case Queen => 10
    case King => 11
    case Ace => 12
  }

  /** Reading the value back at a position gives that position, so values
      increase strictly with the declaration order and differ for distinct ranks. */
  lemma RankValueIsPosition(i: nat)
    requires i < |AllRanks|
    ensures RankValue(AllRanks[i]) == i
    ensures AllRanks[RankValue(AllRanks[i])] == AllRanks[i]
    ensures forall j :: i < j < |AllRanks| ==> RankValue(AllRanks[i]) < RankValue(AllRanks[j])
  {
  }

  /** Distinct ranks have distinct values. */
  lemma RankValueInjective(a: Rank, b: Rank)
    ensures RankValue(a) == RankValue(b) ==> a == b
  {
  }

  /** `Rank.parse(char)`: digits '2'..'9' index the value table, the letters
      T J Q K A are accepted in either case, anything else is rejected. */
  function ParseRank(c: char): (r: Result<Rank>)
    ensures r.Ok? <==> ('2' <= c <= '9' || c in "TtJjQqKkAa")
    ensures '2' <= c <= '9' ==> r.Ok? && RankValue(r.value) == c as int - '2' as int
    ensures r.Err? ==> r.error == IllegalArgument
  {
    if '2' <= c <= '9' then
      Ok(AllRanks[c as int - '2' as int])
    else
      match c
      case 't' => Ok(Ten)
      case 'T' => Ok(Ten)
      case 'j' => Ok(Jack)
      case 'J' => Ok(Jack)
      case 'q' => Ok(Queen)
      case 'Q' => Ok(Queen)
      case 'k' => Ok(King)
      case 'K' => Ok(King)
      case 'a' => Ok(Ace)
      case 'A' => Ok(Ace)
      case _ => Err(IllegalArgument)
  }

  /** The character that names a rank in card notation ("7", "T", "A", ...). */
  function RankChar(r: Rank): char
  {
    match r
    case Two => '2'
    case Three => '3'
    case Four => '4'
    case Five => '5'
    case Six => '6'
    case Seven => '7'
    case Eight => '8'
    case Nine => '9'
    case Ten => 'T'
    case Jack => 'J'
    case Queen => 'Q'
    case King => 'K'
    case Ace => 'A'
  }

  /** Every rank is parsed back from its character, in upper or lower case. */
  lemma ParseRankChar(r: Rank)
    ensures ParseRank(RankChar(r)) == Ok(r)
    ensures ParseRank(LowerCase(RankChar(r))) == Ok(r)
  {
  }

  /** Parsing ignores case: a lower-case letter is read as its upper-case form. */
  lemma ParseRankIgnoresCase(c: char)
    requires 'a' <= c <= 'z'
    ensures ParseRank(c) == ParseRank(UpperCase(c))
  {
  }

  /** A character that names no rank, such as 'D', is rejected. */
  lemma ParseRankRejects()
    ensures ParseRank('D') == Err(IllegalArgument)
    ensures ParseRank('1') == Err(IllegalArgument)
  {
  }
}
