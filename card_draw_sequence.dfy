/**
 * `CardDrawSequence<C>` (src/cards/card_draw_sequence.rs): the cards of one path through
 * a draw tree, in drawing order, with the probability of drawing exactly that sequence.
 */
module CardDrawSequences {
  import opened Rationals
  import opened Probabilities
  import Prob = Probabilities

  datatype CardDrawSequence<C> = CardDrawSequence(cards: seq<C>, probability: Probability)

  /** `CardDrawSequence::new`: stores both fields verbatim, without any check. */
  function New<C>(cards: seq<C>, probability: Probability): (s: CardDrawSequence<C>)
    ensures s.cards == cards && s.probability == probability
  {
    CardDrawSequence(cards, probability)
  }

  /** `PartialEq`: same card list and probabilities of the same value. */
  function Equals<C(==)>(a: CardDrawSequence<C>, b: CardDrawSequence<C>): (e: bool)
    ensures e <==> a.cards == b.cards && Value(a.probability) == Value(b.probability)
  {
    EqualIffSameValue(a.probability, b.probability);
    a.cards == b.cards && a.probability == b.probability
  }

  /**
   * Sequences are equal exactly when their cards agree position by position and their
   * probabilities have the same value (so 2/8 and 1/4 count as the same probability).
   */
  lemma EqualsElementwise<C>(a: CardDrawSequence<C>, b: CardDrawSequence<C>)
    ensures Equals(a, b) <==>
      && |a.cards| == |b.cards|
      && (forall i :: 0 <= i < |a.cards| ==> a.cards[i] == b.cards[i])
      && Value(a.probability) == Value(b.probability)
  {
    if |a.cards| == |b.cards| && forall i :: 0 <= i < |a.cards| ==> a.cards[i] == b.cards[i] {
      assert a.cards == b.cards;
    }
  }

  /** The documented example: `new([1, 2, 3], PROBABILITY_ONE)`. */
  lemma NewExample()
    ensures New([1, 2, 3], ONE).cards == [1, 2, 3] && New([1, 2, 3], ONE).probability == ONE
    ensures !Equals(New([1, 2], Prob.New(1, 4)), New([2, 1], Prob.New(2, 8)))
    ensures Equals(New([1, 2], Prob.New(1, 4)), New([1, 2], Prob.New(2, 8)))
  {
    ValueInjective(Prob.New(1, 4), Prob.New(2, 8));
    assert [1, 2][0] != [2, 1][0];
  }
}
