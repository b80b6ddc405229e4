/**
 * The documented examples and unit tests of src/cards/card_draw_tree.rs, worked out on
 * the model: a fair coin drawn twice, and the deck [1, 2, 3] drawn three times with and
 * without replacement.  Cards are numbers here; the coin's heads is 0 and tails is 1.
 * Probabilities are compared by value, which for probabilities is equality
 * (`Probabilities.EqualIffSameValue`).
 */
module CardDrawTreeExamples {
  import opened Rationals
  import opened Probabilities
  import opened MapSums
  import opened CardDecks
  import opened CardDrawTrees
  import opened CardDrawTreeLaws
  import opened CardDrawTreePaths

  /** The count map of `CardDeck::from` a list of distinct cards: each of them once. */
  ghost predicate SingleCopiesOf(cards: map<nat, nat>, keys: set<nat>)
  {
    cards.Keys == keys && forall k :: k in cards ==> cards[k] == 1
  }

  /** In a deck holding each of its cards once, every card has probability one over the deck's size. */
  lemma SingleCopies(cards: map<nat, nat>, c: nat)
    requires forall k :: k in cards ==> cards[k] == 1
    requires c in cards
    ensures ProbabilitiesDefined(cards)
    ensures Value(ProbabilityIn(cards, c)) == 1.0 / |cards| as real
  {
    SumConstant(cards, 1);
    ProbabilityInValue(cards, c);
  }

  /** The product of probabilities of known values, as a value. */
  lemma MulOf(p: Probability, q: Probability, a: real, b: real)
    requires Value(p) == a && Value(q) == b
    ensures Value(Mul(p, q)) == a * b
  {
    MulValue(p, q);
  }

  /** The `probability_of` example: a coin (heads and tails once each) thrown twice. */
  lemma CoinProbabilityOf(coin: map<nat, nat>)
    requires SingleCopiesOf(coin, {0, 1})
    ensures ProbabilitiesDefined(coin)
    ensures ProbabilityOf(WithoutShrinkingTree(coin, 2, ONE, ONE), []) == ONE
    ensures Value(ProbabilityOf(WithoutShrinkingTree(coin, 2, ONE, ONE), [0])) == 1.0 / 2.0
    ensures Value(ProbabilityOf(WithoutShrinkingTree(coin, 2, ONE, ONE), [0, 0])) == 1.0 / 4.0
    ensures ProbabilityOf(WithoutShrinkingTree(coin, 2, ONE, ONE), [0, 0, 0]) == ZERO
  {
    HalvesProduct(coin);
    WithoutShrinkingProbabilityOf(coin, 2, ONE, ONE, [0]);
    WithoutShrinkingProbabilityOf(coin, 2, ONE, ONE, [0, 0]);
    WithoutShrinkingProbabilityOf(coin, 2, ONE, ONE, [0, 0, 0]);
  }

  /** Heads once has probability 1/2 in the coin, and twice 1/4. */
  lemma HalvesProduct(coin: map<nat, nat>)
    requires SingleCopiesOf(coin, {0, 1})
    ensures ProbabilitiesDefined(coin)
    ensures Value(IndependentProbability(coin, [0])) == 1.0 / 2.0
    ensures Value(IndependentProbability(coin, [0, 0])) == 1.0 / 4.0
  {
    assert |coin| == 2;
    SingleCopies(coin, 0);
    var half := ProbabilityIn(coin, 0);
    assert [0][1..] == [] && [0, 0][1..] == [0];
    MulUnits(half);
    assert IndependentProbability(coin, [0]) == half;
    MulOf(half, half, 1.0 / 2.0, 1.0 / 2.0);
  }

  /** The `paths` example: the twice-thrown coin has four paths, in ascending order. */
  lemma CoinPaths(coin: map<nat, nat>)
    requires SingleCopiesOf(coin, {0, 1})
    ensures ProbabilitiesDefined(coin)
    ensures |AllPaths(WithoutShrinkingTree(coin, 2, ONE, ONE))| == 4
    ensures Ascending(AllPaths(WithoutShrinkingTree(coin, 2, ONE, ONE)))
  {
    SingleCopies(coin, 0);
    assert |coin| == 2;
    WithoutShrinkingPathsCounted(coin, 2);
  }

  /** `without_shrinking_multiple_draws`, on the deck [1, 2, 3]: every sequence of three draws has probability 1/27. */
  lemma WithoutShrinkingThreeDraws(deck: map<nat, nat>)
    requires SingleCopiesOf(deck, {1, 2, 3})
    ensures ProbabilitiesDefined(deck)
    ensures Value(ProbabilityOf(WithoutShrinkingTree(deck, 3, ONE, ONE), [1, 2, 1])) == 1.0 / 27.0
    ensures Value(ProbabilityOf(WithoutShrinkingTree(deck, 3, ONE, ONE), [1, 2, 2])) == 1.0 / 27.0
    ensures Value(ProbabilityOf(WithoutShrinkingTree(deck, 3, ONE, ONE), [1, 2, 3])) == 1.0 / 27.0
  {
    assert |deck| == 3;
    ThirdsIndependent(deck, [1, 2, 1]);
    ThirdsIndependent(deck, [1, 2, 2]);
    ThirdsIndependent(deck, [1, 2, 3]);
  }

  /** Three cards drawn with replacement from three single cards: (1/3)^3 whichever they are. */
  lemma ThirdsIndependent(deck: map<nat, nat>, s: seq<nat>)
    requires |deck| == 3 && forall k :: k in deck ==> deck[k] == 1
    requires |s| == 3 && forall i :: 0 <= i < 3 ==> s[i] in deck
    ensures ProbabilitiesDefined(deck)
    ensures Value(ProbabilityOf(WithoutShrinkingTree(deck, 3, ONE, ONE), s)) == 1.0 / 27.0
  {
    ThirdsProduct(deck, s);
    WithoutShrinkingProbabilityOf(deck, 3, ONE, ONE, s);
  }

  /** The product of three card probabilities of 1/3 each. */
  lemma ThirdsProduct(deck: map<nat, nat>, s: seq<nat>)
    requires |deck| == 3 && forall k :: k in deck ==> deck[k] == 1
    requires |s| == 3 && forall i :: 0 <= i < 3 ==> s[i] in deck
    ensures ProbabilitiesDefined(deck)
    ensures Value(IndependentProbability(deck, s)) == 1.0 / 27.0
  {
    SingleCopies(deck, s[0]);
    SingleCopies(deck, s[1]);
    SingleCopies(deck, s[2]);
    var p0, p1, p2 := ProbabilityIn(deck, s[0]), ProbabilityIn(deck, s[1]), ProbabilityIn(deck, s[2]);
    var s1 := s[1..];
    var s2 := s1[1..];
    assert s2[1..] == [];
    MulUnits(p2);
    assert IndependentProbability(deck, s2) == p2;
    MulOf(p1, p2, 1.0 / 3.0, 1.0 / 3.0);
    assert IndependentProbability(deck, s1) == Mul(p1, p2);
    MulOf(p0, Mul(p1, p2), 1.0 / 3.0, 1.0 / 9.0);
  }

  /** `shrinking_multiple_draws`, on the deck [1, 2, 3]: a card drawn twice has probability zero; 1, 2, 3 has 1/6. */
  lemma ShrinkingThreeDraws(deck: map<nat, nat>)
    requires SingleCopiesOf(deck, {1, 2, 3})
    ensures ShrinkingDefined(deck, 3)
    ensures ProbabilityOf(ShrinkingTree(deck, 3, ONE, ONE), [1, 2, 1]) == ZERO
    ensures ProbabilityOf(ShrinkingTree(deck, 3, ONE, ONE), [1, 2, 2]) == ZERO
    ensures Value(ProbabilityOf(ShrinkingTree(deck, 3, ONE, ONE), [1, 2, 3])) == 1.0 / 6.0
  {
    DependentProducts(deck);
    ShrinkingProbabilityOf(deck, 3, ONE, ONE, [1, 2, 1]);
    ShrinkingProbabilityOf(deck, 3, ONE, ONE, [1, 2, 2]);
    ShrinkingProbabilityOf(deck, 3, ONE, ONE, [1, 2, 3]);
  }

  /** Drawing without replacement from [1, 2, 3]: 1, 2 and then 1 or 2 again is impossible; 1, 2, 3 is 1/3 × 1/2 × 1. */
  lemma DependentProducts(deck: map<nat, nat>)
    requires SingleCopiesOf(deck, {1, 2, 3})
    ensures ShrinkingDefined(deck, 3)
    ensures DependentProbability(deck, [1, 2, 1]) == ZERO
    ensures DependentProbability(deck, [1, 2, 2]) == ZERO
    ensures Value(DependentProbability(deck, [1, 2, 3])) == 1.0 / 6.0
  {
    PositiveShrinkingDefined(deck, 3);
    DrawOne(deck, {1, 2, 3}, 1);
    var after1 := Drawn(deck, 1);
    assert {1, 2, 3} - {1} == {2, 3};
    DrawOne(after1, {2, 3}, 2);
    var after12 := Drawn(after1, 2);
    assert {2, 3} - {2} == {3};
    DrawOne(after12, {3}, 3);
    assert {3} - {3} == {};
    LastOfThree(after12);
    TwoOfThree(deck, after1, after12);
  }

  /** Drawing one copy of a single card removes it from the deck. */
  lemma DrawOne(cards: map<nat, nat>, keys: set<nat>, c: nat)
    requires SingleCopiesOf(cards, keys) && c in keys
    ensures SingleCopiesOf(Drawn(cards, c), keys - {c})
  {
  }

  /** With only 3 left, 1 or 2 cannot be drawn, and 3 is drawn for sure. */
  lemma LastOfThree(last: map<nat, nat>)
    requires SingleCopiesOf(last, {3})
    ensures ShrinkingDefined(last, 1)
    ensures DependentProbability(last, [1]) == ZERO
    ensures DependentProbability(last, [2]) == ZERO
    ensures Value(DependentProbability(last, [3])) == 1.0
  {
    PositiveShrinkingDefined(last, 1);
    assert |last| == 1;
    SingleCopies(last, 3);
    DrawOne(last, {3}, 3);
    assert {3} - {3} == {};
    assert [3][1..] == [];
    var one := ProbabilityIn(last, 3);
    MulUnits(one);
  }

  /** The three sequences from the full deck, through the decks left after 1 and after 1, 2. */
  lemma TwoOfThree(deck: map<nat, nat>, after1: map<nat, nat>, after12: map<nat, nat>)
    requires SingleCopiesOf(deck, {1, 2, 3}) && after1 == Drawn(deck, 1) && after12 == Drawn(after1, 2)
    requires SingleCopiesOf(after1, {2, 3}) && SingleCopiesOf(after12, {3})
    requires ShrinkingDefined(deck, 3) && ShrinkingDefined(after12, 1)
    requires DependentProbability(after12, [1]) == ZERO && DependentProbability(after12, [2]) == ZERO
    requires Value(DependentProbability(after12, [3])) == 1.0
    ensures DependentProbability(deck, [1, 2, 1]) == ZERO
    ensures DependentProbability(deck, [1, 2, 2]) == ZERO
    ensures Value(DependentProbability(deck, [1, 2, 3])) == 1.0 / 6.0
  {
    assert |deck| == 3 && |after1| == 2;
    SingleCopies(deck, 1);
    SingleCopies(after1, 2);
    var third, half := ProbabilityIn(deck, 1), ProbabilityIn(after1, 2);
    MulUnits(half);
    MulUnits(third);
    assert [1, 2, 1][1..] == [2, 1] && [2, 1][1..] == [1];
    assert [1, 2, 2][1..] == [2, 2] && [2, 2][1..] == [2];
    assert [1, 2, 3][1..] == [2, 3] && [2, 3][1..] == [3];
    var rest := DependentProbability(after12, [3]);
    MulOf(half, rest, 1.0 / 2.0, 1.0);
    MulOf(third, Mul(half, rest), 1.0 / 3.0, 1.0 / 2.0);
  }
}
