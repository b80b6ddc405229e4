/**
 * `PlayingCard` of src/playing_cards/playing_card.rs: a value and a suit.  Equality and
 * order are derived from the two fields in that order; `Display` writes the value's text,
 * a space and the suit's symbol.
 */
module PlayingCards {
  import V = PlayingCardValues
  import S = PlayingCardSuits

  datatype PlayingCard = PlayingCard(value: V.PlayingCardValue, suit: S.PlayingCardSuit)
  {
    /** The accessor `value()`. */
    function Value(): V.PlayingCardValue
    {
      value
    }

    /** The accessor `suit()`. */
    function Suit(): S.PlayingCardSuit
    {
      suit
    }
  }

  /** `PlayingCard::new`. */
  function New(value: V.PlayingCardValue, suit: S.PlayingCardSuit): (c: PlayingCard)
    ensures c.Value() == value && c.Suit() == suit
  {
    PlayingCard(value, suit)
  }

  /** Two cards are the same card exactly when value and suit agree. */
  lemma EqualIffFieldsEqual(a: PlayingCard, b: PlayingCard)
    ensures a == b <==> a.Value() == b.Value() && a.Suit() == b.Suit()
  {
  }

  /** The derived `Ord`: by value first, by suit among cards of equal value. */
  predicate Less(a: PlayingCard, b: PlayingCard)
  {
    V.Less(a.value, b.value) || (a.value == b.value && S.Less(a.suit, b.suit))
  }

  /** The derived order is a strict total order. */
  lemma LessIsTotalOrder(a: PlayingCard, b: PlayingCard, c: PlayingCard)
    ensures !Less(a, a)
    ensures Less(a, b) && Less(b, c) ==> Less(a, c)
    ensures a == b || Less(a, b) || Less(b, a)
    ensures !(Less(a, b) && Less(b, a))
  {
    if V.Index(a.value) == V.Index(b.value) {
      V.IndexInjective(a.value, b.value);
      if S.Index(a.suit) == S.Index(b.suit) {
        S.IndexInjective(a.suit, b.suit);
      }
    }
  }

  /** `Display`: "{value} {suit}". */
  function ToString(c: PlayingCard): (s: string)
    ensures |s| == |V.AsStr(c.value)| + 2
    ensures s[..|s| - 2] == V.AsStr(c.value) && s[|s| - 2] == ' ' && s[|s| - 1] == S.AsChar(c.suit)
  {
    V.ToString(c.value) + " " + S.ToString(c.suit)
  }

  /** The test's example: the king of hearts is "K ♥". */
  lemma KingOfHearts()
    ensures ToString(New(V.King, S.Hearts)) == "K ♥"
  {
  }

  /** Different cards are displayed differently. */
  lemma ToStringInjective(a: PlayingCard, b: PlayingCard)
    requires ToString(a) == ToString(b)
    ensures a == b
  {
    V.AsStrInjective(a.value, b.value);
    S.AsCharInjective(a.suit, b.suit);
  }
}
