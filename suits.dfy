/** The four suits (Suit.java). */
module Suits {
  import opened Outcomes
  import opened Chars

  /** Declaration order Spades, Hearts, Diamonds, Clubs: the flush sort and the
      straight-flush iteration follow it. */
  datatype Suit = Spades | Hearts | Diamonds | Clubs

  /** `Suit.values()`: the suits in declaration order. */
  const AllSuits: seq<Suit> := [Spades, Hearts, Diamonds, Clubs]

  /** `ordinal()`: the suit's position in the declaration. */
  function SuitOrdinal(s: Suit): (v: nat)
    ensures v < 4
  {
    match s
    case Spades => 0
    case Hearts => 1
    case Diamonds => 2
    case Clubs => 3
  }

  /** There are exactly four suits, each listed once. */
  lemma AllSuitsComplete(s: Suit)
    ensures |AllSuits| == 4 && AllSuits[SuitOrdinal(s)] == s
    ensures forall i, j :: 0 <= i < j < |AllSuits| ==> AllSuits[i] != AllSuits[j]
  {
  }

  /** Distinct suits have distinct ordinals. */
  lemma SuitOrdinalInjective(a: Suit, b: Suit)
    ensures SuitOrdinal(a) == SuitOrdinal(b) ==> a == b
  {
  }

  /** `Suit.parse(char)`: s h d c in either case, anything else is rejected. */
  function ParseSuit(c: char): (r: Result<Suit>)
    ensures r.Ok? <==> c in "sShHdDcC"
    ensures r.Err? ==> r.error == IllegalArgument
  {
    match c
    case 's' => Ok(Spades)
    case 'S' => Ok(Spades)
    case 'h' => Ok(Hearts)
    case 'H' => Ok(Hearts)
    case 'd' => Ok(Diamonds)
    case 'D' => Ok(Diamonds)
    case 'c' => Ok(Clubs)
    case 'C' => Ok(Clubs)
    case _ => Err(IllegalArgument)
  }

  /** The character that names a suit in card notation. */
  function SuitChar(s: Suit): char
  {
    match s
    case Spades => 's'
    case Hearts => 'h'
    case Diamonds => 'd'
    case Clubs => 'c'
  }

  /** Every suit is parsed back from its character, in lower or upper case. */
  lemma ParseSuitChar(s: Suit)
    ensures ParseSuit(SuitChar(s)) == Ok(s)
    ensures ParseSuit(UpperCase(SuitChar(s))) == Ok(s)
  {
  }

  /** Parsing ignores case: both cases of a letter give the same answer. */
  lemma ParseSuitIgnoresCase(c: char)
    requires 'a' <= c <= 'z'
    ensures ParseSuit(c) == ParseSuit(UpperCase(c))
  {
  }

  /** A character that names no suit, such as 'K', is rejected. */
  lemma ParseSuitRejects()
    ensures ParseSuit('K') == Err(IllegalArgument)
  {
  }
}
