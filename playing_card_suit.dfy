/**
 * `PlayingCardSuit` of src/playing_cards/playing_card_suit.rs: four suits in declaration
 * order, which is their derived order, two of them red and two black, each written as
 * its symbol.
 */
module PlayingCardSuits {

  datatype PlayingCardSuit = Diamonds | Clubs | Hearts | Spades

  /** The position in the declaration, which the derived `Ord` compares. */
  function Index(s: PlayingCardSuit): (i: nat)
    ensures i < 4
  {
    match s
    case Diamonds => 0
    case Clubs => 1
    case Hearts => 2
    case Spades => 3
  }

  /** `ALL_SUITS`: every suit, in declaration order. */
  const AllSuits: seq<PlayingCardSuit> := [Diamonds, Clubs, Hearts, Spades]

  lemma AllSuitsInOrder()
    ensures |AllSuits| == 4
    ensures forall i :: 0 <= i < |AllSuits| ==> Index(AllSuits[i]) == i
    ensures forall s :: AllSuits[Index(s)] == s
  {
  }

  lemma IndexInjective(a: PlayingCardSuit, b: PlayingCardSuit)
    requires Index(a) == Index(b)
    ensures a == b
  {
  }

  /** The derived `Ord`: a comes before b in `ALL_SUITS`, Diamonds < Clubs < Hearts < Spades. */
  function Less(a: PlayingCardSuit, b: PlayingCardSuit): (r: bool)
    ensures r <==> a in AllSuits[..Index(b)]
  {
    AllSuitsInOrder();
    Index(a) < Index(b)
  }

  predicate LessOrEqual(a: PlayingCardSuit, b: PlayingCardSuit)
  {
    Index(a) <= Index(b)
  }

  /** `is_red`: hearts and diamonds, which alternate with the black suits in `ALL_SUITS`. */
  function IsRed(s: PlayingCardSuit): (r: bool)
    ensures r <==> Index(s) % 2 == 0
  {
    s == Hearts || s == Diamonds
  }

  /** `is_black`: not red, which leaves exactly clubs and spades. */
  function IsBlack(s: PlayingCardSuit): (b: bool)
    ensures b <==> s == Clubs || s == Spades
  {
    !IsRed(s)
  }

  /** `as_char`. */
  function AsChar(s: PlayingCardSuit): (c: char)
    ensures c != ' '
  {
    match s
    case Diamonds => '♦'
    case Clubs => '♣'
    case Hearts => '♥'
    case Spades => '♠'
  }

  lemma AsCharInjective(a: PlayingCardSuit, b: PlayingCardSuit)
    requires AsChar(a) == AsChar(b)
    ensures a == b
  {
  }

  /** `Display`: the symbol alone. */
  function ToString(s: PlayingCardSuit): (r: string)
    ensures r == [AsChar(s)]
  {
    [AsChar(s)]
  }
}
