# pokerutils hand ranking and table state, in Dafny

This project models two parts of the Java library `org.smurn.pokerutils`.

The first is the **hand-ranking engine**:
- the `Rank`, `Suit` and `Card` enums with their one-character and text parsers;
- the `Hand` value (category, card set, tie-break ranks);
- the category locators High Card, Pair, Two Pair, Four of a Kind, Full House, Straight, Flush and Straight Flush;
- `CombinedLocator`, which asks a sequence of locators in turn.

Each locator is a module with three parts:
- a specification function `BestX(cards): Result<Option<Hand>>`. `Err(IllegalArgument)` stands for the exception on fewer than five cards, and `Ok(None)` stands for Java's `null`;
- a method `FindBestHand`, written with the loops of the Java code and proved equal to that function;
- lemmas stating what the function promises: which hand is chosen, that it is the highest of its kind, and when no hand is found.

`Collections.sort` is a stable sort. It is modelled as insertion sort (`CardOrder.Sort`), which is proved sorted, a permutation, stable, and the only stable sort.

The second part is the **table state**:
- the sealable `Seat`, `Pot` and `Table` classes, with their guarded setters and one-way `seal`;
- the two table transitions `SitDownChange` and `GetUpChange`. Each checks a sealed table, copies it, changes one seat on the copy and seals the copy.

The three classes are Dafny classes with a `sealed` field. A Java exception becomes an error result: `Failed(e)` from a void setter, `Err(e)` from anything that returns a value. What `apply` does to the table's state is a function (`SitDown.Seated`, `GetUp.Vacated`). The `Apply` method is proved to produce a new, fully sealed table whose state is that function's result.

The code is modelled as written, including these places where it departs from its documentation or tests:
- `TwoPairLocator` slices the remaining cards from one position too early. When the high pair is the top card, its second card becomes the fifth card again.
- There is no ace-low straight: the Ace (value 12) is never next to the Two (value 0).
- The `Hand` constructor checks the size of the given collection but stores its set. Repeated cards are accepted and leave fewer than five stored cards.
- `Seat.setStake` tests the bet, not the new stake, for negativity.
- `Table.setActingSeatNr`, `setBigBlindSeatNr` and `setSmallBlindSeatNr` reject -1. Only `setDealerSeatNr` accepts it.
- `GetUpChange.apply` does not look at the seat's cards.
- The hand found does not always ignore the order of the input. Cards of equal rank keep their input order in the stable sort, so the locators that sort by rank may choose a different card of the same rank. For every locator, two orderings of the same cards are proved to give the same error, the same absence, or hands of the same category and ranks (`HighCardReordered`, `PairReordered`, `TwoPairReordered`, `FourReordered`, `FullHouseReordered`, `StraightReordered`, `CombinedLocator.FirstFoundReordered`). The Flush and Straight Flush results are proved fully equal (`FlushReordered`, `StraightFlushReordered`). `Scenarios.HighCardTieOrder` shows two orderings whose High Card hands differ in their card set, which `Hand.equals` compares.
- `SitDownChange.apply` refuses a null table explicitly. `GetUpChange.apply` fails on it with a `NullPointerException`. The two error results are `NullArgument` and `NullPointer`.

Source paths below are relative to the repository root.

## Model

| member | source | states |
|---|---|---|
| Ranks.RankValue | src/main/java/org/smurn/pokerutils/Rank.java:58-60 | every rank value lies in 0..12 |
| Ranks.RankValueIsPosition | src/main/java/org/smurn/pokerutils/Rank.java:24-60 | the value of a rank is its declaration position (Two 0 … Ace 12), so values strictly increase in declaration order and distinct ranks have distinct values |
| Ranks.ParseRank | src/main/java/org/smurn/pokerutils/Rank.java:70-96 | a character is accepted exactly when it is a digit 2-9 or one of T J Q K A in either case; a digit c gives the rank of value c - '2'; anything else is an IllegalArgument error |
| Ranks.ParseRankChar | src/main/java/org/smurn/pokerutils/Rank.java:70-96 | every rank is parsed back from its notation character, in upper and in lower case |
| Ranks.ParseRankIgnoresCase | src/main/java/org/smurn/pokerutils/Rank.java:75-90 | a lower-case letter parses exactly as its upper-case form |
| Ranks.ParseRankRejects | src/main/java/org/smurn/pokerutils/Rank.java:91-93 | 'D' and '1' are rejected with IllegalArgument |
| Ranks.RankValueInjective | src/main/java/org/smurn/pokerutils/Rank.java:58-60 | different ranks have different values |
| Suits.SuitOrdinal | src/main/java/org/smurn/pokerutils/Suit.java:21-30 | every suit position lies in 0..3 |
| Suits.AllSuitsComplete | src/main/java/org/smurn/pokerutils/Suit.java:21-30 | there are exactly four suits, each listed once, each at its declaration position |
| Suits.ParseSuit | src/main/java/org/smurn/pokerutils/Suit.java:40-58 | a character is accepted exactly when it is s, h, d or c in either case; otherwise an IllegalArgument error |
| Suits.ParseSuitChar | src/main/java/org/smurn/pokerutils/Suit.java:40-58 | every suit is parsed back from its notation character, in lower and in upper case |
| Suits.ParseSuitIgnoresCase | src/main/java/org/smurn/pokerutils/Suit.java:41-53 | both cases of a letter parse to the same result |
| Suits.ParseSuitRejects | src/main/java/org/smurn/pokerutils/Suit.java:54-56 | 'K' is rejected with IllegalArgument |
| Suits.SuitOrdinalInjective | src/main/java/org/smurn/pokerutils/Suit.java:21-30 | different suits have different positions |
| Cards.CardIndex | src/main/java/org/smurn/pokerutils/Card.java:25-130 | every card has a position below 52 in the card table |
| Cards.CardTable | src/main/java/org/smurn/pokerutils/Card.java:25-130 | the table has exactly 52 entries, every card sits at its position, and no two entries are equal |
| Cards.CardTableEnds | src/main/java/org/smurn/pokerutils/Card.java:25-130 | positions 0, 12, 13 and 51 hold the Two and Ace of Spades, the Two of Hearts and the Ace of Clubs: the table runs suit by suit, Two to Ace |
| Cards.GetCard | src/main/java/org/smurn/pokerutils/Card.java:172-180 | the linear search returns the table's card with exactly the given suit and rank |
| Cards.Fields | src/main/java/org/smurn/pokerutils/Card.java:200 | splitting at single spaces gives at least one field, and no field contains a space |
| Cards.DropTrailingEmpty | src/main/java/org/smurn/pokerutils/Card.java:200 | the split result is a prefix of the fields without an empty last field; only empty fields are dropped |
| Cards.FieldsOfJoin | src/main/java/org/smurn/pokerutils/Card.java:200 | splitting fields joined with single spaces gives the fields back |
| Cards.ParseToken | src/main/java/org/smurn/pokerutils/Card.java:202-208 | a token is accepted exactly when it has two characters, a rank character then a suit character, and it then gives the card of that suit and rank |
| Cards.ParseTokens | src/main/java/org/smurn/pokerutils/Card.java:200-211 | the tokens are accepted exactly when each one is, and then give one card per token, in token order |
| Cards.Parse | src/main/java/org/smurn/pokerutils/Card.java:189-214 | the empty string parses to no cards; every failure is an IllegalArgument error; a successful parse of a non-empty string has one card per token |
| Cards.ReadToken | src/main/java/org/smurn/pokerutils/Card.java:202-210 | the loop body's length check and rank and suit parses agree with ParseToken |
| Cards.ParseCards | src/main/java/org/smurn/pokerutils/Card.java:189-214 | the parse loop returns the specified parse of the string: no cards for "", otherwise one card per space-separated token |
| Cards.Rejected | src/main/java/org/smurn/pokerutils/Card.java:200-211 | one bad token makes the whole token list rejected |
| Cards.Accepted | src/main/java/org/smurn/pokerutils/Card.java:200-211 | cards matching every token, in order, are the result |
| Cards.CardToken | src/main/java/org/smurn/pokerutils/Card.java:202-208 | the two-character notation of a card contains no space and parses back to that card |
| Cards.FormatRoundTrip | src/main/java/org/smurn/pokerutils/Card.java:189-214 | parsing the space-separated notation of any card list gives the list back |
| Cards.TrailingSpaceTolerated | src/main/java/org/smurn/pokerutils/Card.java:200-206 | a trailing space after a non-empty list is tolerated |
| Cards.LeadingSpaceRejected | src/main/java/org/smurn/pokerutils/Card.java:200-206 | a leading space yields an empty first token, so the string is rejected |
| Cards.CommaSeparatedRejected | src/main/java/org/smurn/pokerutils/Card.java:202-206 | "As,2c" is rejected because its token is not two characters long |
| Hands.Strength | src/main/java/org/smurn/pokerutils/HandCategory.java:24-44 | categories are ordered weakest to strongest, High Card first and Straight Flush last, in 0..8 |
| Hands.StrengthInjective | src/main/java/org/smurn/pokerutils/HandCategory.java:24-44 | two categories have the same position exactly when they are equal |
| Hands.NewHand | src/main/java/org/smurn/pokerutils/Hand.java:50-70 | the constructor fails with IllegalArgument exactly when the collection does not hold five elements; otherwise it keeps category and ranks and stores exactly the cards of the collection |
| Hands.HandCardCount | src/main/java/org/smurn/pokerutils/Hand.java:61-67 | the stored set holds at most five cards, and exactly five when the five given cards are distinct |
| Hands.DistinctSetSize | src/main/java/org/smurn/pokerutils/Hand.java:67 | a list of distinct cards has as many elements as its set |
| Hands.DuplicateSetSize | src/main/java/org/smurn/pokerutils/Hand.java:67 | a list with a repeated card has more elements than its set |
| Hands.NewHandIgnoresOrder | src/main/java/org/smurn/pokerutils/Hand.java:67 | two orderings of the same cards build equal hands |
| Hands.NewHandEquality | src/main/java/org/smurn/pokerutils/Hand.java:98-118 | two built hands are equal exactly when category, card set and rank list are equal |
| Hands.DuplicatesCollapse | src/main/java/org/smurn/pokerutils/Hand.java:61-67 | a collection repeating a card passes the size check and stores only four cards |
| CardOrder.InsertAdds | src/main/java/org/smurn/pokerutils/ranking/PairLocator.java:45-53 | one insertion step adds exactly the inserted card |
| CardOrder.InsertSorted | src/main/java/org/smurn/pokerutils/ranking/PairLocator.java:45-53 | one insertion step keeps a sorted list sorted |
| CardOrder.SortSorts | src/main/java/org/smurn/pokerutils/ranking/PairLocator.java:45-53 | the sort orders its input by the comparator and is a permutation of it |
| CardOrder.SortIsStable | src/main/java/org/smurn/pokerutils/ranking/PairLocator.java:45-53 | the sort is stable: the cards of each comparator key keep their input order |
| CardOrder.SortIsTheStableSort | src/main/java/org/smurn/pokerutils/ranking/PairLocator.java:45-53 | any sorted list that keeps each key's cards in input order is the sort's result, so the sort is exactly the stable sort |
| CardOrder.RankOrderDescends | src/main/java/org/smurn/pokerutils/ranking/PairLocator.java:45-53 | under the rank comparator, rank values never increase along a sorted list |
| CardOrder.SuitOrderGroups | src/main/java/org/smurn/pokerutils/ranking/FlushLocator.java:45-57 | under the flush comparator suits ascend in declaration order, and within one suit ranks descend |
| CardOrder.SortedSameKeys | src/main/java/org/smurn/pokerutils/ranking/PairLocator.java:45-53 | two sorted lists of the same cards carry the same comparator key at every position |
| RankScan.ByRank | src/main/java/org/smurn/pokerutils/ranking/PairLocator.java:45-53 | the working copy is a permutation of the input |
| RankScan.ByRankDescends | src/main/java/org/smurn/pokerutils/ranking/PairLocator.java:45-53 | the working copy is in descending rank order |
| RankScan.AppendRanks | src/main/java/org/smurn/pokerutils/ranking/PairLocator.java:81-85 | the rank-collecting loop appends the ranks of the remaining cards, in order |
| RankScan.SameCounts | src/main/java/org/smurn/pokerutils/ranking/PairLocator.java:45-53 | the working copy has as many cards of each rank as the input |
| RankScan.FirstRun | src/main/java/org/smurn/pokerutils/ranking/FourOfAKindLocator.java:57-69 | the scan result is the first position with the required number of equal adjacent ranks, or none when no such position exists |
| RankScan.RunIffCount | src/main/java/org/smurn/pokerutils/ranking/FourOfAKindLocator.java:57-69 | in a descending list, a run of n cards of rank r exists exactly when r occurs at least n times, and every such run lies inside r's block |
| RankScan.FirstRunIsHighest | src/main/java/org/smurn/pokerutils/ranking/PairLocator.java:57-64 | the first run of n in a descending list has the highest rank occurring n times, and there is none exactly when no rank occurs n times |
| RankScan.FirstRunOfInput | src/main/java/org/smurn/pokerutils/ranking/PairLocator.java:45-64 | the same, stated about the input the working copy was sorted from |
| RankScan.Block | src/main/java/org/smurn/pokerutils/ranking/PairLocator.java:45-64 | in a descending list the cards of one rank form one block, with all higher cards before it and all lower cards after it |
| RankScan.Leftovers | src/main/java/org/smurn/pokerutils/ranking/PairLocator.java:71-79 | cards chosen plus the top k of the descending remainder are drawn from the input, and no card left out ranks above the last one taken |
| RankScan.ChosenRun | src/main/java/org/smurn/pokerutils/ranking/FourOfAKindLocator.java:77-86 | a run followed by the highest other cards is drawn from the input, and nothing left out ranks above the last kicker |
| RankScan.ByRankReordered | src/main/java/org/smurn/pokerutils/ranking/PairLocator.java:45-53 | two orderings of the same cards give working copies with the same rank at every position |
| RankScan.FirstRunSameRanks | src/main/java/org/smurn/pokerutils/ranking/FourOfAKindLocator.java:57-69 | lists with the same rank at every position have the same first run of n |
| HighCardLocator.BestHighCard | src/main/java/org/smurn/pokerutils/ranking/HighCardLocator.java:40-65 | an error exactly when fewer than five cards are given; otherwise a hand is always found |
| HighCardLocator.FindBestHand | src/main/java/org/smurn/pokerutils/ranking/HighCardLocator.java:40-65 | the sort-and-collect method returns exactly the specified result |
| HighCardLocator.HighCardChoice | src/main/java/org/smurn/pokerutils/ranking/HighCardLocator.java:48-64 | the hand is labelled High Card and holds the first five cards of the descending copy; its ranks are theirs, non-increasing |
| HighCardLocator.HighCardLeftovers | src/main/java/org/smurn/pokerutils/ranking/HighCardLocator.java:48-58 | the five cards are drawn from the input and no card left out ranks above any of them |
| HighCardLocator.HighCardReordered | src/main/java/org/smurn/pokerutils/ranking/HighCardLocator.java:40-65 | two orderings of the same cards give the same error, or hands of the same category and ranks |
| PairLocator.PairCards | src/main/java/org/smurn/pokerutils/ranking/PairLocator.java:71-79 | the assembled hand list has exactly five cards |
| PairLocator.BestPair | src/main/java/org/smurn/pokerutils/ranking/PairLocator.java:35-88 | an error exactly when fewer than five cards are given |
| PairLocator.FindBestHand | src/main/java/org/smurn/pokerutils/ranking/PairLocator.java:35-88 | the scanning method returns exactly the specified result |
| PairLocator.PairAbsentIff | src/main/java/org/smurn/pokerutils/ranking/PairLocator.java:57-68 | no hand is found exactly when no two input cards share a rank |
| PairLocator.PairIsHighest | src/main/java/org/smurn/pokerutils/ranking/PairLocator.java:57-64 | the hand is labelled Pair, has four tie-break ranks, and its pair rank is the highest rank occurring at least twice |
| PairLocator.PairKickers | src/main/java/org/smurn/pokerutils/ranking/PairLocator.java:71-85 | the hand is two cards of the pair rank and three kickers drawn from the input, with kicker ranks non-increasing after the pair rank, and nothing left out ranks above the last kicker |
| PairLocator.PairReordered | src/main/java/org/smurn/pokerutils/ranking/PairLocator.java:35-88 | two orderings of the same cards give the same error or absence, or hands of the same category and ranks |
| TwoPairLocator.TwoPairCards | src/main/java/org/smurn/pokerutils/ranking/TwoPairLocator.java:78-89 | the assembled hand list has exactly five cards |
| TwoPairLocator.BestTwoPair | src/main/java/org/smurn/pokerutils/ranking/TwoPairLocator.java:35-97 | an error exactly when fewer than five cards are given |
| TwoPairLocator.FindBestHand | src/main/java/org/smurn/pokerutils/ranking/TwoPairLocator.java:35-97 | the scanning method returns exactly the specified result |
| TwoPairLocator.ScanPairs | src/main/java/org/smurn/pokerutils/ranking/TwoPairLocator.java:57-70 | the scan with its skip finds the first adjacent pair, then the first adjacent pair starting after both of its cards |
| TwoPairLocator.TwoPairRanks | src/main/java/org/smurn/pokerutils/ranking/TwoPairLocator.java:57-94 | the hand is labelled Two Pair with three ranks: the highest rank occurring twice, then the same rank again exactly when it occurs four times, otherwise the highest other rank occurring twice |
| TwoPairLocator.TwoPairAbsentIff | src/main/java/org/smurn/pokerutils/ranking/TwoPairLocator.java:57-74 | no hand is found exactly when no rank occurs four times and at most one rank occurs twice, so a lone triple gives no hand |
| TwoPairLocator.TwoPairCardsShape | src/main/java/org/smurn/pokerutils/ranking/TwoPairLocator.java:78-94 | the first four hand cards are the high pair and the low pair, all cards come from the input, and the ranks are those of cards 0, 2 and 4 |
| TwoPairLocator.FifthCard | src/main/java/org/smurn/pokerutils/ranking/TwoPairLocator.java:84-89 | with the high pair on top the fifth card is the high pair's second card again; otherwise it is the top card |
| TwoPairLocator.HighPairOnTop | src/main/java/org/smurn/pokerutils/ranking/TwoPairLocator.java:84-89 | the high pair is on top of the copy exactly when no input card ranks above it |
| TwoPairLocator.TwoPairTopPairRepeats | src/main/java/org/smurn/pokerutils/ranking/TwoPairLocator.java:86-89 | when no card ranks above the high pair, the fifth card repeats the high pair's second card |
| TwoPairLocator.TwoPairKickerIsTop | src/main/java/org/smurn/pokerutils/ranking/TwoPairLocator.java:84-89 | when some card ranks above the high pair, the fifth card is the highest card of the input |
| TwoPairLocator.TwoPairReordered | src/main/java/org/smurn/pokerutils/ranking/TwoPairLocator.java:35-97 | two orderings of the same cards give the same error or absence, or hands of the same category and ranks |
| FourOfAKindLocator.FourCards | src/main/java/org/smurn/pokerutils/ranking/FourOfAKindLocator.java:77-86 | the assembled hand list has exactly five cards |
| FourOfAKindLocator.BestFour | src/main/java/org/smurn/pokerutils/ranking/FourOfAKindLocator.java:35-93 | an error exactly when fewer than five cards are given |
| FourOfAKindLocator.FindBestHand | src/main/java/org/smurn/pokerutils/ranking/FourOfAKindLocator.java:35-93 | the window-scanning method returns exactly the specified result |
| FourOfAKindLocator.ScanQuads | src/main/java/org/smurn/pokerutils/ranking/FourOfAKindLocator.java:57-69 | the window loop finds the first window of four equal ranks, or none |
| FourOfAKindLocator.FourAbsentIff | src/main/java/org/smurn/pokerutils/ranking/FourOfAKindLocator.java:57-73 | no hand is found exactly when no rank occurs four times |
| FourOfAKindLocator.FourIsHighest | src/main/java/org/smurn/pokerutils/ranking/FourOfAKindLocator.java:57-92 | the hand is labelled Four of a Kind with two ranks, and its quad rank is the highest rank occurring four times |
| FourOfAKindLocator.FourKicker | src/main/java/org/smurn/pokerutils/ranking/FourOfAKindLocator.java:77-90 | the hand is four cards of the quad rank and a kicker, drawn from the input; no card left out ranks above the kicker |
| FourOfAKindLocator.FourReordered | src/main/java/org/smurn/pokerutils/ranking/FourOfAKindLocator.java:35-93 | two orderings of the same cards give the same error or absence, or hands of the same category and ranks |
| FullHouseLocator.FirstClearPair | src/main/java/org/smurn/pokerutils/ranking/FullHouseLocator.java:72-88 | the result is the first adjacent pair whose positions avoid the triple's three positions, or none when there is no such pair |
| FullHouseLocator.BestFullHouse | src/main/java/org/smurn/pokerutils/ranking/FullHouseLocator.java:35-108 | an error exactly when fewer than five cards are given |
| FullHouseLocator.FindBestHand | src/main/java/org/smurn/pokerutils/ranking/FullHouseLocator.java:35-108 | the two-scan method returns exactly the specified result |
| FullHouseLocator.ScanTriples | src/main/java/org/smurn/pokerutils/ranking/FullHouseLocator.java:56-65 | the triple loop finds the first window of three equal ranks, or none |
| FullHouseLocator.ScanPairs | src/main/java/org/smurn/pokerutils/ranking/FullHouseLocator.java:72-88 | the pair loop, with its jumps over the triple, finds the first clear pair, or none |
| FullHouseLocator.ClearPairIsHighest | src/main/java/org/smurn/pokerutils/ranking/FullHouseLocator.java:72-92 | beside the triple, the pair found has the highest rank that can supply one: another rank occurring twice, or the triple's rank occurring five times; none is found exactly when no rank can |
| FullHouseLocator.FullHouseRanks | src/main/java/org/smurn/pokerutils/ranking/FullHouseLocator.java:56-104 | the hand is labelled Full House; its triple rank is the highest rank occurring three times and its pair rank the highest rank that can supply a pair beside it |
| FullHouseLocator.FullHouseAbsentIff | src/main/java/org/smurn/pokerutils/ranking/FullHouseLocator.java:56-92 | no hand is found exactly when no rank occurs five times and no rank occurring three times has another rank occurring twice |
| FullHouseLocator.FullHouseCards | src/main/java/org/smurn/pokerutils/ranking/FullHouseLocator.java:95-104 | the hand is the three triple cards then the two pair cards, five distinct positions of the copy, all drawn from the input |
| FullHouseLocator.FullHouseReordered | src/main/java/org/smurn/pokerutils/ranking/FullHouseLocator.java:35-108 | two orderings of the same cards give the same error or absence, or hands of the same category and ranks |
| StraightLocator.BestStraight | src/main/java/org/smurn/pokerutils/ranking/StraightLocator.java:35-85 | an error exactly when fewer than five cards are given; a found straight has one tie-break rank |
| StraightLocator.Scan | src/main/java/org/smurn/pokerutils/ranking/StraightLocator.java:56-75 | the scan ends with a non-empty run of at most five cards, each taken from the starting run or the scanned cards |
| StraightLocator.FinalRun | src/main/java/org/smurn/pokerutils/ranking/StraightLocator.java:56-79 | the locator's final run is non-empty, holds at most five cards, and each of them is one of the sorted cards |
| StraightLocator.FindBestHand | src/main/java/org/smurn/pokerutils/ranking/StraightLocator.java:35-85 | the run-building method returns exactly the specified result |
| StraightLocator.ScanResult | src/main/java/org/smurn/pokerutils/ranking/StraightLocator.java:56-75 | the scan, skipping repeated ranks and restarting on gaps, ends with either the highest five-run or a short run when the cards hold no straight |
| StraightLocator.StraightPermutation | src/main/java/org/smurn/pokerutils/ranking/StraightLocator.java:45-53 | sorting does not change which straights the cards hold |
| StraightLocator.StraightShape | src/main/java/org/smurn/pokerutils/ranking/StraightLocator.java:56-84 | a found straight is five distinct input cards whose rank values fall by one from the first; it is labelled Straight and ranked by its top card |
| StraightLocator.StraightIsHighest | src/main/java/org/smurn/pokerutils/ranking/StraightLocator.java:56-82 | the found straight occurs in the input and no straight of the input has a higher top |
| StraightLocator.StraightAbsentIff | src/main/java/org/smurn/pokerutils/ranking/StraightLocator.java:56-79 | no hand is found exactly when the input holds no five consecutive rank values (with the Ace only above the King) |
| StraightLocator.StraightReordered | src/main/java/org/smurn/pokerutils/ranking/StraightLocator.java:35-85 | two orderings of the same cards give the same error or absence, or hands of the same category and ranks |
| FlushLocator.BySuit | src/main/java/org/smurn/pokerutils/ranking/FlushLocator.java:45-57 | the suit-sorted working copy is a permutation of the input |
| FlushLocator.Candidates | src/main/java/org/smurn/pokerutils/ranking/FlushLocator.java:60-72 | every recorded candidate leaves room for five cards |
| FlushLocator.CandidatesAreRuns | src/main/java/org/smurn/pokerutils/ranking/FlushLocator.java:60-72 | the candidates are exactly the increasing start positions of runs of at least five cards of one suit |
| FlushLocator.FlushCandidates | src/main/java/org/smurn/pokerutils/ranking/FlushLocator.java:60-72 | each suit with at least five cards contributes exactly one candidate, the position of its first card, and nothing else is a candidate |
| FlushLocator.RunOfFiveIff | src/main/java/org/smurn/pokerutils/ranking/FlushLocator.java:60-72 | the first card of a suit starts a run of five exactly when the suit has at least five cards |
| FlushLocator.FlushAbsentIff | src/main/java/org/smurn/pokerutils/ranking/FlushLocator.java:74-76 | no hand is found exactly when no suit has five cards |
| FlushLocator.Survivors | src/main/java/org/smurn/pokerutils/ranking/FlushLocator.java:79-95 | the elimination never empties a non-empty candidate list and keeps only fitting candidates |
| FlushLocator.SurvivorsRanked | src/main/java/org/smurn/pokerutils/ranking/FlushLocator.java:79-95 | after n passes the survivors agree on their first n rank values and every eliminated candidate is lexicographically lower on them |
| FlushLocator.BestFlush | src/main/java/org/smurn/pokerutils/ranking/FlushLocator.java:35-108 | an error exactly when fewer than five cards are given |
| FlushLocator.FindBestHand | src/main/java/org/smurn/pokerutils/ranking/FlushLocator.java:35-108 | the candidate-elimination method returns exactly the specified result |
| FlushLocator.KeepBest | src/main/java/org/smurn/pokerutils/ranking/FlushLocator.java:79-95 | one elimination pass keeps exactly the candidates with the highest rank at that offset, in order |
| FlushLocator.DropBefore | src/main/java/org/smurn/pokerutils/ranking/FlushLocator.java:85-87 | the removal loop drops exactly the first i candidates |
| FlushLocator.FlushIsBest | src/main/java/org/smurn/pokerutils/ranking/FlushLocator.java:79-100 | the winner has the lexicographically greatest five rank values among all candidates, and every earlier candidate is strictly lower, so ties go to the earliest suit |
| FlushLocator.FlushShape | src/main/java/org/smurn/pokerutils/ranking/FlushLocator.java:97-107 | the hand is labelled Flush and is the five highest cards of one suit of the input, ranks non-increasing and equal to theirs |
| FlushLocator.BySuitReordered | src/main/java/org/smurn/pokerutils/ranking/FlushLocator.java:45-57 | two orderings of the same cards give the identical suit-sorted copy, because the comparator tells any two different cards apart |
| FlushLocator.FlushReordered | src/main/java/org/smurn/pokerutils/ranking/FlushLocator.java:35-108 | two orderings of the same cards give exactly the same result, chosen cards included |
| FlushLocator.OfSuitReordered | src/main/java/org/smurn/pokerutils/ranking/StraightFlushLocator.java:45-50 | two orderings of the same cards hold the same cards of each suit |
| StraightFlushLocator.SuitStraight | src/main/java/org/smurn/pokerutils/ranking/StraightFlushLocator.java:44-52 | a straight found within a suit has one tie-break rank |
| StraightFlushLocator.BestSuited | src/main/java/org/smurn/pokerutils/ranking/StraightFlushLocator.java:44-59 | the running best straight always has a tie-break rank |
| StraightFlushLocator.BestStraightFlush | src/main/java/org/smurn/pokerutils/ranking/StraightFlushLocator.java:33-66 | fewer than five cards is an IllegalArgument error and every error is IllegalArgument; a found hand is labelled Straight Flush, with five cards and one tie-break rank |
| StraightFlushLocator.SuitCards | src/main/java/org/smurn/pokerutils/ranking/StraightFlushLocator.java:45-50 | the inner loop collects exactly the cards of the suit, in input order |
| StraightFlushLocator.FindBestHand | src/main/java/org/smurn/pokerutils/ranking/StraightFlushLocator.java:33-66 | the per-suit loop returns exactly the specified result |
| StraightFlushLocator.SuitedLeading | src/main/java/org/smurn/pokerutils/ranking/StraightFlushLocator.java:44-59 | after all suits the choice came from one suit, is at least as high as every suit's straight, and strictly higher than every earlier suit's |
| StraightFlushLocator.SuitStraightAbsent | src/main/java/org/smurn/pokerutils/ranking/StraightFlushLocator.java:44-52 | a suit yields a straight exactly when its cards hold five consecutive rank values |
| StraightFlushLocator.StraightFlushWinner | src/main/java/org/smurn/pokerutils/ranking/StraightFlushLocator.java:44-65 | the hand is a suit's straight relabelled Straight Flush: five input cards of that suit within four ranks of its top; no suit has a higher straight and every earlier suit a strictly lower one |
| StraightFlushLocator.WinnerCards | src/main/java/org/smurn/pokerutils/ranking/StraightFlushLocator.java:45-52 | the cards of a suit's straight are five input cards of that suit, within four ranks of the top |
| StraightFlushLocator.StraightFlushErrors | src/main/java/org/smurn/pokerutils/ranking/StraightFlushLocator.java:33-66 | the only error is an input of fewer than five cards |
| StraightFlushLocator.StraightFlushAbsentIff | src/main/java/org/smurn/pokerutils/ranking/StraightFlushLocator.java:61-63 | no hand is found exactly when no single suit holds five consecutive rank values; a straight of mixed suits does not count |
| StraightFlushLocator.SuitStraightReordered | src/main/java/org/smurn/pokerutils/ranking/StraightFlushLocator.java:44-52 | two orderings of the same cards give the same straight within each suit, chosen cards included |
| StraightFlushLocator.StraightFlushReordered | src/main/java/org/smurn/pokerutils/ranking/StraightFlushLocator.java:33-66 | two orderings of the same cards give exactly the same result, chosen cards included |
| CombinedLocator.Run | src/main/java/org/smurn/pokerutils/ranking/CombinedLocator.java:54 | calling one locator's method gives that locator's specified result |
| CombinedLocator.FirstFound | src/main/java/org/smurn/pokerutils/ranking/CombinedLocator.java:52-60 | when every locator finds no hand the result is no hand; any other result is the result of one of the locators |
| CombinedLocator.Decider | src/main/java/org/smurn/pokerutils/ranking/CombinedLocator.java:52-60 | some position decides: every earlier locator finds no hand, and the result is that locator's result, or no hand when the sequence is exhausted |
| CombinedLocator.NoneFound | src/main/java/org/smurn/pokerutils/ranking/CombinedLocator.java:52-60 | no hand comes back exactly when every locator finds none, in particular for an empty sequence |
| CombinedLocator.FoundByOne | src/main/java/org/smurn/pokerutils/ranking/CombinedLocator.java:52-58 | any other result, errors included, is the result of one locator that every earlier locator let through |
| CombinedLocator.EarlierWins | src/main/java/org/smurn/pokerutils/ranking/CombinedLocator.java:52-58 | locators after the first one that finds a hand are never consulted, whatever they would find |
| CombinedLocator.LocateReordered | src/main/java/org/smurn/pokerutils/ranking/CombinedLocator.java:54 | for every locator case, two orderings of the same cards give the same error or absence, or hands of the same category and ranks |
| CombinedLocator.FirstFoundReordered | src/main/java/org/smurn/pokerutils/ranking/CombinedLocator.java:52-60 | the combined result for two orderings of the same cards has the same error or absence, or hands of the same category and ranks |
| CombinedLocator.CombinedLocator.constructor | src/main/java/org/smurn/pokerutils/ranking/CombinedLocator.java:39-42 | the locator keeps its own copy of the given sequence |
| CombinedLocator.CombinedLocator.FindBestHand | src/main/java/org/smurn/pokerutils/ranking/CombinedLocator.java:52-60 | the loop returns the first-found result of the stored sequence |
| Seats.Seat.constructor | src/main/java/org/smurn/pokerutils/Seat.java:47-50 | a new seat has no player, no stake, no bet, no cards, hidden cards, and is unsealed |
| Seats.Seat.Copy | src/main/java/org/smurn/pokerutils/Seat.java:57-67 | a copy has the same player, stake, bet, visibility and cards, and is unsealed |
| Seats.Seat.SetBet | src/main/java/org/smurn/pokerutils/Seat.java:83-91 | refused when sealed, then refused when negative; otherwise only the bet changes |
| Seats.Seat.SetPlayer | src/main/java/org/smurn/pokerutils/Seat.java:126-131 | refused when sealed; otherwise only the player changes |
| Seats.Seat.SetStake | src/main/java/org/smurn/pokerutils/Seat.java:145-153 | refused when sealed, then refused when the current bet is negative; otherwise only the stake changes, so a negative stake is stored |
| Seats.Seat.SetCardsVisible | src/main/java/org/smurn/pokerutils/Seat.java:167-172 | refused when sealed; otherwise only the visibility flag changes |
| Seats.Seat.SetHoleCards | src/main/java/org/smurn/pokerutils/Seat.java:99-101 | writing the hole-card list fails once the seat is sealed; otherwise only that list changes |
| Seats.Seat.SetVisibleCards | src/main/java/org/smurn/pokerutils/Seat.java:109-111 | writing the visible-card list fails once the seat is sealed; otherwise only that list changes |
| Seats.Seat.Seal | src/main/java/org/smurn/pokerutils/Seat.java:175-181 | the seat ends sealed with its state unchanged, also on a second call |
| Seats.StatesOf | src/main/java/org/smurn/pokerutils/Table.java:63-85 | the states of a seat list, position by position |
| Seats.CopyAll | src/main/java/org/smurn/pokerutils/Table.java:69-73 | the copy loop gives new, distinct, unsealed seats with the states of the originals, in order |
| Seats.SealAll | src/main/java/org/smurn/pokerutils/Table.java:243-245 | the sealing loop seals every seat and changes no state |
| Pots.Pot.constructor | src/main/java/org/smurn/pokerutils/Pot.java:39-41 | a new pot has no chips and no seat numbers, and is unsealed |
| Pots.Pot.Copy | src/main/java/org/smurn/pokerutils/Pot.java:47-50 | a copy has the same amount and seat numbers, and is unsealed |
| Pots.Pot.SetAmount | src/main/java/org/smurn/pokerutils/Pot.java:64-72 | refused when sealed, then refused when negative; otherwise only the amount changes |
| Pots.Pot.SetSeatNumbers | src/main/java/org/smurn/pokerutils/Pot.java:79-90 | writing the seat-number list fails once the pot is sealed; otherwise only that list changes |
| Pots.Pot.Seal | src/main/java/org/smurn/pokerutils/Pot.java:84-90 | the pot ends sealed with its state unchanged; a second call changes nothing |
| Pots.StatesOf | src/main/java/org/smurn/pokerutils/Table.java:63-85 | the states of a pot list, position by position |
| Pots.CopyAll | src/main/java/org/smurn/pokerutils/Table.java:76-79 | the copy loop gives new, distinct, unsealed pots with the states of the originals, in order |
| Pots.SealAll | src/main/java/org/smurn/pokerutils/Table.java:246-248 | the sealing loop seals every pot and changes no state |
| Tables.Table.constructor | src/main/java/org/smurn/pokerutils/Table.java:48-55 | a new table has the given number of new empty seats, no pots, seat numbers 0, and is unsealed |
| Tables.EmptyTableBetsValid | src/main/java/org/smurn/pokerutils/Table.java:48-55 | a new table holds no negative bet, so the bet check of `setStake` in the changes cannot fire on tables built from it through the setters |
| Tables.NewTable | src/main/java/org/smurn/pokerutils/Table.java:48-55 | a negative seat count is refused; otherwise a new unsealed table of that many empty seats |
| Tables.Table.Copy | src/main/java/org/smurn/pokerutils/Table.java:63-85 | a copy has new unsealed copies of every seat and pot, the same four seat numbers, and is unsealed |
| Tables.Table.SeatCount | src/main/java/org/smurn/pokerutils/Table.java:91-93 | the seat count is the length of the fixed seat list |
| Tables.Table.GetSeat | src/main/java/org/smurn/pokerutils/Table.java:232-237 | a seat is returned exactly for an index within the seat list; any other index is an IllegalArgument error |
| Tables.Table.SetActingSeatNr | src/main/java/org/smurn/pokerutils/Table.java:111-120 | refused when sealed, then for any value outside 0 up to the seat count, -1 included; otherwise only the acting seat changes |
| Tables.Table.SetDealerSeatNr | src/main/java/org/smurn/pokerutils/Table.java:137-148 | refused when sealed, then for any value outside -1 up to the seat count; otherwise only the dealer seat changes |
| Tables.Table.SetBigBlindSeatNr | src/main/java/org/smurn/pokerutils/Table.java:165-174 | refused when sealed, then for any value outside 0 up to the seat count, -1 included; otherwise only the big-blind seat changes |
| Tables.Table.SetSmallBlindSeatNr | src/main/java/org/smurn/pokerutils/Table.java:191-200 | refused when sealed, then for any value outside 0 up to the seat count, -1 included; otherwise only the small-blind seat changes |
| Tables.Table.SetPots | src/main/java/org/smurn/pokerutils/Table.java:211-213 | writing the pot list fails once the table is sealed; otherwise only the pot list changes |
| Tables.Table.Seal | src/main/java/org/smurn/pokerutils/Table.java:240-251 | the first call seals the table, every seat and every pot without changing any state; a later call changes nothing |
| Tables.Occupy | src/main/java/org/smurn/pokerutils/automata/SitDownChange.java:105-107 | setting player then stake on one seat of a copy: refused when that seat's bet is negative, otherwise only that seat's player and stake change |
| Tables.CopyOccupied | src/main/java/org/smurn/pokerutils/automata/SitDownChange.java:103-107 | a new unsealed copy whose state is the input's with one seat's player and stake replaced |
| Tables.Reseat | src/main/java/org/smurn/pokerutils/automata/SitDownChange.java:103-110 | a new, fully sealed copy whose state is the input's with one seat's player and stake replaced |
| SitDown.NewSitDownChange | src/main/java/org/smurn/pokerutils/automata/SitDownChange.java:45-59 | a null player is a NullArgument error, then a negative seat number or stake an IllegalArgument error; otherwise the change keeps all three |
| SitDown.Seated | src/main/java/org/smurn/pokerutils/automata/SitDownChange.java:83-110 | a missing seat is an IncompatibleTable error; every error is IncompatibleTable or IllegalArgument, and IllegalArgument only for an existing seat with a negative bet; success keeps the seat count and puts the change's player and stake on the seat |
| SitDown.SeatedEffect | src/main/java/org/smurn/pokerutils/automata/SitDownChange.java:83-110 | sitting down succeeds exactly when the seat exists, is free, holds no stake and no cards, and its bet is not negative; a missing seat is an incompatible table; on success only that seat changes, getting the player and stake |
| SitDown.SeatedOnValidTable | src/main/java/org/smurn/pokerutils/automata/SitDownChange.java:83-110 | on a table without negative bets the IllegalArgument case cannot occur: sitting down succeeds exactly when the seat exists, is free and holds no stake and no cards, and the result again has no negative bet |
| SitDown.SeatTaken | src/main/java/org/smurn/pokerutils/automata/SitDownChange.java:88-92 | a seat just taken refuses every further sit-down as an incompatible table |
| SitDown.Apply | src/main/java/org/smurn/pokerutils/automata/SitDownChange.java:76-111 | a null table, then an unsealed one, is refused; otherwise the errors are those of the seat checks, and success gives a new, fully sealed table in the seated state; the input is not modified |
| GetUp.NewGetUpChange | src/main/java/org/smurn/pokerutils/automata/GetUpChange.java:45-59 | a null player is a NullArgument error, then a negative seat number or stake an IllegalArgument error; otherwise the change keeps all three |
| GetUp.Vacated | src/main/java/org/smurn/pokerutils/automata/GetUpChange.java:76-96 | a missing seat is an IncompatibleTable error; every error is IncompatibleTable or IllegalArgument, and IllegalArgument only for an existing seat with a negative bet; success keeps the seat count and leaves the seat without player and stake |
| GetUp.VacatedEffect | src/main/java/org/smurn/pokerutils/automata/GetUpChange.java:76-96 | getting up succeeds exactly when the seat exists and holds this very player and this stake and its bet is not negative, whatever its cards; on success only that seat changes, losing player and stake and keeping bet and cards |
| GetUp.VacatedOnValidTable | src/main/java/org/smurn/pokerutils/automata/GetUpChange.java:76-96 | on a table without negative bets the IllegalArgument case cannot occur: getting up succeeds exactly when the seat exists and holds this player and this stake, and the result again has no negative bet |
| GetUp.GetUpUndoesSitDown | src/main/java/org/smurn/pokerutils/automata/GetUpChange.java:76-96 | getting up with the same player, seat and stake restores the table exactly as it was before sitting down |
| GetUp.SitDownUndoesGetUp | src/main/java/org/smurn/pokerutils/automata/GetUpChange.java:76-96 | sitting down again restores the table as it was before getting up, when the seat held no cards |
| GetUp.Apply | src/main/java/org/smurn/pokerutils/automata/GetUpChange.java:72-100 | a null table fails, an unsealed one is refused; otherwise the errors are those of the seat checks, and success gives a new, fully sealed table in the vacated state; the input is not modified |
| Scenarios.HighCardIgnoresPair | src/main/java/org/smurn/pokerutils/ranking/HighCardLocator.java:40-65 | "As Ad 3c 2h Kd" gives a High Card hand of all five cards, ranked A A K 3 2: the pair is ignored |
| Scenarios.PairMultipleCandidates | src/main/java/org/smurn/pokerutils/ranking/PairLocator.java:35-88 | "As 7d 7c 9h 9d" gives the pair of nines with kickers A 7 7 |
| Scenarios.PairFromTriple | src/main/java/org/smurn/pokerutils/ranking/PairLocator.java:35-88 | "As 7d 7c 7h Kd" gives the first two sevens as the pair, with kickers Ace, King and the third seven: ranks Seven, Ace, King, Seven |
| Scenarios.FullHouseFoursOverTwos | src/main/java/org/smurn/pokerutils/ranking/FullHouseLocator.java:35-108 | "2h 2h 2h 4h 4s 4d Ad" gives a Full House ranked Four over Two, the repeated twos supplying the pair |
| Scenarios.StraightFlushOfHearts | src/main/java/org/smurn/pokerutils/ranking/StraightFlushLocator.java:33-66 | "9h Th Jh Qh Kh 2c" gives the Straight Flush of the five hearts, ranked by the King |
| Scenarios.NoWheel | src/main/java/org/smurn/pokerutils/ranking/StraightLocator.java:56-79 | "As 2h 3d 4c 5s" holds no straight, because the Ace is not low |
| Scenarios.HighCardTieOrder | src/main/java/org/smurn/pokerutils/ranking/HighCardLocator.java:40-65 | "As Kd Qc Jh 9s 9d" and "As Kd Qc Jh 9d 9s" are the same cards but give different hands: the first keeps 9s, the second 9d, with equal ranks A K Q J 9 |

## Left out
- HighCardLocator.HighCardReordered: promises the same category and ranks for two orderings of the same cards, not equal hands, because the code picks among cards of equal rank by input order (`Scenarios.HighCardTieOrder`).
- PairLocator.PairReordered: promises the same category and ranks for two orderings of the same cards, not equal hands, because the code picks among cards of equal rank by input order (`Scenarios.HighCardTieOrder`).
- TwoPairLocator.TwoPairReordered: promises the same category and ranks for two orderings of the same cards, not equal hands, because the code picks among cards of equal rank by input order (`Scenarios.HighCardTieOrder`).
- FourOfAKindLocator.FourReordered: promises the same category and ranks for two orderings of the same cards, not equal hands, because the code picks among cards of equal rank by input order (`Scenarios.HighCardTieOrder`).
- FullHouseLocator.FullHouseReordered: promises the same category and ranks for two orderings of the same cards, not equal hands, because the code picks among cards of equal rank by input order (`Scenarios.HighCardTieOrder`).
- StraightLocator.StraightReordered: promises the same category and ranks for two orderings of the same cards, not equal hands, because the code picks among cards of equal rank by input order (`Scenarios.HighCardTieOrder`).
- CombinedLocator.LocateReordered: promises the same category and ranks for two orderings of the same cards, not equal hands, because the code picks among cards of equal rank by input order (`Scenarios.HighCardTieOrder`).
- CombinedLocator.FirstFoundReordered: promises the same category and ranks for two orderings of the same cards, not equal hands, because the code picks among cards of equal rank by input order (`Scenarios.HighCardTieOrder`).

- Null arguments of value type (a null card list, string, category or rank list): Dafny sequences cannot be null. Null players and tables are modelled.
- Null arguments to the `Seat`, `Pot` and `Table` copy constructors: the models take a non-null object.
- The `HandLocator`, `Change`, `Automata` and `Sealable` interfaces: they hold no logic. A locator is one of a closed set of cases (`CombinedLocator.Locator`), and "sealed" is a field of each class.
- ThreeOfAKindLocator.java is not part of this model. It is therefore not one of the `CombinedLocator.Locator` cases.
- `Hand.hashCode`, `Hand.toString` and the getters: they return fields and do no checking.
- Exception classes and messages: each exception is an error value.
- `Collections.unmodifiableList` and the `EnumSet` copy: a list handed out by a getter is a sequence field. Writes to it are `SetHoleCards`, `SetVisibleCards`, `SetSeatNumbers` and `SetPots`, which fail once the owner is sealed.
- `Player` has no state of its own here. It is compared by reference only.
- Integer width: Java `int` is modelled as unbounded `int`. No arithmetic in the modelled code can overflow with valid arguments.
- Tables.Table.Copy and Tables.Table.Seal: they state their effect seat by seat and pot by pot, not through `State()`. `Tables.Reseat` lifts them to `State()`.
- FlushLocator.ValAt: it reads a rank value of zero past the end of the copy. Candidates always leave room for five cards, so this value is never used.
- CombinedLocator.CombinedLocator.constructor: aliasing of the caller's Java list is not modelled. A Dafny sequence is a value, so later changes by the caller cannot reach the copy.
