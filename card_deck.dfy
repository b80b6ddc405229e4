/**
 * `CardDeck<C>` (src/cards/card_deck.rs): a bag of cards stored as a map from card to
 * count.  The functions at the top of the module say what the deck's operations compute
 * on the count map; the class holds the map and changes it in place as the source does.
 */
module CardDecks {
  import opened Rationals
  import opened Probabilities
  import Prob = Probabilities
  import opened MapSums

  // ---------------------------------------------------------------------------
  // The count map and what the deck computes from it

  /** `count`: the stored count, or 0 for a card that was never added. */
  function CountOf<C>(cards: map<C, nat>, c: C): nat
  {
    if c in cards then cards[c] else 0
  }

  /** The count map after `add_times(c, n)`. */
  function AddedTimes<C>(cards: map<C, nat>, c: C, n: nat): map<C, nat>
  {
    cards[c := CountOf(cards, c) + n]
  }

  /** The count map after adding every card of cs once, in order (`extend`). */
  function Tallied<C>(base: map<C, nat>, cs: seq<C>): map<C, nat>
    decreases |cs|
  {
    if cs == [] then base else AddedTimes(Tallied(base, cs[..|cs| - 1]), cs[|cs| - 1], 1)
  }

  /**
   * The count map of a copy of the deck with one fewer `c`.  The source calls
   * `draw` but does not define it; here the entry is dropped instead of reaching zero,
   * and a deck without `c` is copied unchanged.
   */
  function Drawn<C>(cards: map<C, nat>, c: C): map<C, nat>
  {
    if CountOf(cards, c) > 1 then cards[c := cards[c] - 1] else cards - {c}
  }

  /** Every stored count is positive: what decks built only by adding at least once have. */
  ghost predicate AllPositive<C>(cards: map<C, nat>)
  {
    forall c :: c in cards ==> cards[c] > 0
  }

  /** Some stored card has a positive count: the size is positive (lemma `SizePositive`). */
  ghost predicate HasPositiveCount<C>(cards: map<C, nat>)
  {
    exists c :: c in cards && cards[c] > 0
  }

  /** The size is positive exactly when some count is. */
  lemma SizePositive<C>(cards: map<C, nat>)
    ensures Sum(cards) > 0 <==> HasPositiveCount(cards)
  {
    SumZero(cards);
  }

  /**
   * The probabilities can be computed without dividing by zero: no card stored, or a
   * positive size.  A deck holding only zero counts makes `probabilities()` panic.
   */
  ghost predicate ProbabilitiesDefined<C>(cards: map<C, nat>)
  {
    cards == map[] || HasPositiveCount(cards)
  }

  /** `probability(c)`: count/size for a stored card, zero for an absent one. */
  ghost function ProbabilityIn<C>(cards: map<C, nat>, c: C): Probability
    requires c !in cards || HasPositiveCount(cards)
  {
    if c in cards then
      SizePositive(cards);
      ValueAtMostSum(cards, c);
      Prob.New(cards[c], Sum(cards))
    else
      Prob.New(0, 1)
  }

  /** `probabilities()`: every stored card, zero counts included, with count/size. */
  ghost function ProbabilitiesOf<C>(cards: map<C, nat>): (ps: map<C, Probability>)
    requires ProbabilitiesDefined(cards)
    ensures ps.Keys == cards.Keys
  {
    map c | c in cards :: ProbabilityIn(cards, c)
  }

  /** `probability(c)` is the share of c in the deck: count/size, or zero when absent. */
  lemma ProbabilityInValue<C>(cards: map<C, nat>, c: C)
    requires c !in cards || HasPositiveCount(cards)
    ensures c in cards ==> Sum(cards) > 0 && Value(ProbabilityIn(cards, c)) == cards[c] as real / Sum(cards) as real
    ensures c !in cards ==> ProbabilityIn(cards, c) == ZERO
  {
    SizePositive(cards);
    if c !in cards {
      AbsentProbability(cards, c);
    }
  }

  /** An absent card has probability zero, whatever the deck. */
  lemma AbsentProbability<C>(cards: map<C, nat>, c: C)
    requires c !in cards
    ensures ProbabilityIn(cards, c) == ZERO
  {
    ValueInjective(Prob.New(0, 1), ZERO);
  }

  /** `probabilities()` gives each stored card its `probability`. */
  lemma ProbabilitiesValues<C>(cards: map<C, nat>)
    requires ProbabilitiesDefined(cards)
    ensures forall c :: c in cards ==> Sum(cards) > 0 && Value(ProbabilitiesOf(cards)[c]) == cards[c] as real / Sum(cards) as real
  {
    forall c | c in cards
      ensures Sum(cards) > 0 && Value(ProbabilitiesOf(cards)[c]) == cards[c] as real / Sum(cards) as real
    {
      ProbabilityInValue(cards, c);
    }
  }

  /** A map holding `probability(c)` for exactly the stored cards is `probabilities()`. */
  lemma ProbabilitiesOfIs<C>(cards: map<C, nat>, ps: map<C, Probability>)
    requires ProbabilitiesDefined(cards)
    requires ps.Keys == cards.Keys
    requires forall c :: c in ps ==> ps[c] == ProbabilityIn(cards, c)
    ensures ps == ProbabilitiesOf(cards)
  {
  }

  /** The values of a probability map as reals. */
  ghost function Values<C>(ps: map<C, Probability>): (r: map<C, real>)
    ensures r.Keys == ps.Keys
  {
    map c | c in ps :: Value(ps[c])
  }

  // ---------------------------------------------------------------------------
  // The deck object

  class CardDeck<C(==)> {
    var cards: map<C, nat>

    /** `CardDeck::new`: an empty deck. */
    constructor ()
      ensures cards == map[]
    {
      cards := map[];
    }

    /** `From<Vec<C>>` and `FromIterator`: a new deck, then each card added once. */
    constructor FromCards(cs: seq<C>)
      ensures cards == Tallied(map[], cs)
    {
      cards := map[];
      new;
      Extend(cs);
    }

    /** `add_times`: raises the count of c by n, storing c even when n == 0. */
    method AddTimes(c: C, n: nat)
      modifies this
      ensures cards == AddedTimes(old(cards), c, n)
    {
      cards := cards[c := Count(c) + n];
    }

    /** `add`: `add_times(c, 1)`. */
    method Add(c: C)
      modifies this
      ensures cards == AddedTimes(old(cards), c, 1)
    {
      AddTimes(c, 1);
    }

    /** `Extend`: adds the cards one after the other. */
    method Extend(cs: seq<C>)
      modifies this
      ensures cards == Tallied(old(cards), cs)
    {
      for i := 0 to |cs|
        invariant cards == Tallied(old(cards), cs[..i])
      {
        assert cs[..i + 1][..i] == cs[..i];
        Add(cs[i]);
      }
      assert cs[..|cs|] == cs;
    }

    /** `is_empty`: no card stored, whatever the counts; an empty deck has size zero. */
    function IsEmpty(): (e: bool)
      reads this
      ensures e ==> Sum(cards) == 0
      ensures !e ==> exists c :: c in cards
    {
      |cards| == 0
    }

    /** `count`: how many copies of c the deck holds, never more than its size. */
    function Count(c: C): (n: nat)
      reads this
      ensures c !in cards ==> n == 0
      ensures n <= Sum(cards)
    {
      if c in cards then ValueAtMostSum(cards, c); cards[c] else 0
    }

    /** `contains`: at least one copy of c. */
    function Contains(c: C): (b: bool)
      reads this
      ensures b <==> c in cards && cards[c] > 0
    {
      Count(c) > 0
    }

    /**
     * `PartialEq`: equal count maps, which is more than equal counts: a card stored with
     * count zero tells two decks apart.
     */
    function Equals(other: CardDeck<C>): (e: bool)
      reads this, other
      ensures e <==> cards.Keys == other.cards.Keys && forall c :: c in cards ==> Count(c) == other.Count(c)
    {
      cards == other.cards
    }

    /** `size`: the sum of the counts, over the entries in no particular order. */
    method Size() returns (n: nat)
      ensures n == Sum(cards)
    {
      n := 0;
      var rest := cards;
      while rest != map[]
        invariant n + Sum(rest) == Sum(cards)
        decreases |rest|
      {
        var c :| c in rest;
        SumRemove(rest, c);
        n := n + rest[c];
        assert (rest - {c}).Keys == rest.Keys - {c};
        rest := rest - {c};
      }
    }

    /** `probability(c)`; panics when c is stored and the size is zero. */
    method Probability(c: C) returns (p: Probability)
      requires c !in cards || HasPositiveCount(cards)
      ensures p == ProbabilityIn(cards, c)
    {
      if c in cards {
        SizePositive(cards);
        var size := Size();
        ValueAtMostSum(cards, c);
        p := Prob.New(cards[c], size);
      } else {
        p := Prob.New(0, 1);
      }
    }

    /** `probabilities()`; panics when cards are stored and the size is zero. */
    method Probabilities() returns (ps: map<C, Probability>)
      requires ProbabilitiesDefined(cards)
      ensures ps == ProbabilitiesOf(cards)
    {
      SizePositive(cards);
      var size := Size();
      ps := map[];
      var todo := cards.Keys;
      while todo != {}
        invariant todo <= cards.Keys && ps.Keys == cards.Keys - todo
        invariant forall c :: c in ps ==> ps[c] == ProbabilityIn(cards, c)
        decreases |todo|
      {
        var c :| c in todo;
        ValueAtMostSum(cards, c);
        var p := Prob.New(cards[c], size);
        ps := ps[c := p];
        todo := todo - {c};
      }
      ProbabilitiesOfIs(cards, ps);
    }

    /** `draw(c)`: a new deck with one fewer c; this deck is left as it is. */
    method Draw(c: C) returns (d: CardDeck<C>)
      ensures fresh(d) && d.cards == Drawn(cards, c)
    {
      d := new CardDeck();
      d.cards := if Count(c) > 1 then cards[c := cards[c] - 1] else cards - {c};
    }
  }

  // ---------------------------------------------------------------------------
  // Properties of the count map

  /** `add_times(c, n)` raises the count of c by exactly n, the size by n, nothing else. */
  lemma AddTimesCounts<C>(cards: map<C, nat>, c: C, n: nat)
    ensures forall x :: CountOf(AddedTimes(cards, c, n), x)
                        == CountOf(cards, x) + (if x == c then n else 0)
    ensures AddedTimes(cards, c, n).Keys == cards.Keys + {c}
    ensures Sum(AddedTimes(cards, c, n)) == Sum(cards) + n
  {
    SumUpdate(cards, c, CountOf(cards, c) + n);
  }

  /** Building from a list (or extending) counts every card by its occurrences. */
  lemma {:induction false} TalliedCounts<C>(base: map<C, nat>, cs: seq<C>)
    ensures forall x :: CountOf(Tallied(base, cs), x) == CountOf(base, x) + multiset(cs)[x]
    ensures Tallied(base, cs).Keys == base.Keys + set x | x in cs
    ensures Sum(Tallied(base, cs)) == Sum(base) + |cs|
    decreases |cs|
  {
    if cs != [] {
      var init, last := cs[..|cs| - 1], cs[|cs| - 1];
      assert cs == init + [last];
      TalliedCounts(base, init);
      AddTimesCounts(Tallied(base, init), last, 1);
      assert multiset(cs) == multiset(init) + multiset{last};
      assert (set x | x in cs) == (set x | x in init) + {last};
    }
  }

  /** A deck built from cards alone has only positive counts. */
  lemma {:induction false} TalliedPositive<C>(cs: seq<C>)
    ensures AllPositive(Tallied(map[], cs))
    decreases |cs|
  {
    if cs != [] {
      TalliedPositive(cs[..|cs| - 1]);
    }
  }

  /** The documented examples: [1, 3, 3] and [1, 2, 1]. */
  lemma CountExamples()
    ensures CountOf(Tallied(map[], [1, 3, 3]), 1) == 1
    ensures CountOf(Tallied(map[], [1, 3, 3]), 3) == 2
    ensures CountOf(Tallied(map[], [1, 3, 3]), 5) == 0
    ensures Sum(Tallied(map[], [1, 2, 1])) == 3
  {
    TalliedCounts(map[], [1, 3, 3]);
    assert multiset([1, 3, 3])[3] == 2;
    TalliedCounts(map[], [1, 2, 1]);
    var empty: map<int, nat> := map[];
    assert Sum(empty) == 0;
  }

  /** `contains` holds of a deck built from a list exactly for the cards in the list. */
  lemma ContainsIffListed<C>(cs: seq<C>, c: C)
    ensures CountOf(Tallied(map[], cs), c) > 0 <==> c in cs
  {
    TalliedCounts(map[], cs);
  }

  /** While every count is positive, storing nothing and having size zero agree. */
  lemma EmptyIffSizeZero<C>(cards: map<C, nat>)
    requires AllPositive(cards)
    ensures cards == map[] <==> Sum(cards) == 0
    ensures ProbabilitiesDefined(cards)
  {
    SumZero(cards);
    if cards != map[] {
      var c := Pick(cards);
      assert cards[c] > 0;
    }
  }

  /**
   * `add_times(c, 0)` on an empty deck stores c with count zero: the deck is then not
   * empty, has size zero, differs from the empty deck, and `probability(c)` would panic.
   */
  lemma ZeroCountEntry<C>(c: C)
    ensures var cards := AddedTimes(map[], c, 0);
      && cards != map[]
      && Sum(cards) == 0
      && !(c !in cards || HasPositiveCount(cards))
      && !ProbabilitiesDefined(cards)
  {
    AddTimesCounts(map[], c, 0);
    var empty: map<C, nat> := map[];
    assert Sum(empty) == 0;
    SizePositive(AddedTimes(map[], c, 0));
  }

  /** With a positive size the probabilities sum to exactly one. */
  lemma ProbabilitiesSumToOne<C>(cards: map<C, nat>)
    requires HasPositiveCount(cards)
    ensures SumReal(Values(ProbabilitiesOf(cards))) == 1.0
  {
    SizePositive(cards);
    var s := Sum(cards) as real;
    var ps, scaled := Values(ProbabilitiesOf(cards)), Scaled(cards, s);
    forall c | c in ps ensures ps[c] == scaled[c] {
      assert ps[c] == Value(ProbabilitiesOf(cards)[c]);
      ProbabilityInValue(cards, c);
    }
    assert ps == scaled;
    SumScaled(cards, s);
    assert SumReal(scaled) == s / s;
    DivSelf(s);
    assert SumReal(ps) == 1.0;
  }

  /** `draw(c)` lowers the count of c by one when there is one, and nothing else. */
  lemma DrawnCounts<C>(cards: map<C, nat>, c: C)
    ensures forall x :: x != c ==> CountOf(Drawn(cards, c), x) == CountOf(cards, x)
    ensures CountOf(Drawn(cards, c), c) == if CountOf(cards, c) > 0 then CountOf(cards, c) - 1 else 0
    ensures CountOf(cards, c) > 0 ==> Sum(Drawn(cards, c)) + 1 == Sum(cards)
    ensures Drawn(cards, c).Keys <= cards.Keys
  {
    if c in cards {
      SumRemove(cards, c);
      if cards[c] > 1 {
        SumUpdate(cards, c, cards[c] - 1);
      }
    }
  }

  /** Drawing keeps every stored count positive. */
  lemma DrawnPositive<C>(cards: map<C, nat>, c: C)
    requires AllPositive(cards)
    ensures AllPositive(Drawn(cards, c))
  {
  }
}
