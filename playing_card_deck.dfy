/**
 * `PlayingCardDeck` of src/playing_cards/playing_card_deck.rs: a builder that collects a
 * set of values, a set of suits and a count, then turns them into a `CardDeck` holding
 * every (value, suit) card that many times.
 */
module PlayingCardDecks {
  import V = PlayingCardValues
  import S = PlayingCardSuits
  import opened PlayingCards
  import opened CardDecks
  import opened MapSums

  /** `iter().position(|x| x == item)`: the first index of item, |arr| when it is absent. */
  function Position<T(==)>(arr: seq<T>, item: T): (i: nat)
    ensures i <= |arr|
    ensures i < |arr| ==> arr[i] == item
    ensures forall j :: 0 <= j < i ==> arr[j] != item
  {
    if arr == [] then 0
    else if arr[0] == item then 0
    else 1 + Position(arr[1..], item)
  }

  /** `position` answers an index exactly when the item occurs, so `unwrap` fails only on absent items. */
  lemma {:induction false} PositionFinds<T>(arr: seq<T>, item: T)
    ensures Position(arr, item) < |arr| <==> item in arr
  {
    if arr != [] && arr[0] != item {
      PositionFinds(arr[1..], item);
      assert item in arr <==> item in arr[1..];
    }
  }

  /**
   * `arr_from_to`: the slice from the first `from` to the first `to`, both included.  The
   * source unwraps both positions and slices `from_idx..=to_idx`, so it panics unless both
   * items occur and the slice is well formed.
   */
  function ArrFromTo<T(==)>(arr: seq<T>, from: T, to: T): (r: seq<T>)
    requires Position(arr, from) < |arr| && Position(arr, to) < |arr|
    requires Position(arr, from) <= Position(arr, to) + 1
    ensures |r| == Position(arr, to) + 1 - Position(arr, from)
    ensures forall i :: 0 <= i < |r| ==> r[i] == arr[Position(arr, from) + i]
  {
    arr[Position(arr, from)..Position(arr, to) + 1]
  }

  /** Each item x stands in arr at index idx(x), and idx undoes indexing into arr. */
  ghost predicate IndexedBy<T(!new)>(arr: seq<T>, idx: T -> nat)
  {
    (forall i :: 0 <= i < |arr| ==> idx(arr[i]) == i) &&
    (forall x :: idx(x) < |arr| && arr[idx(x)] == x)
  }

  /** In such a list, `position` finds each item at its index. */
  lemma PositionAt<T(!new)>(arr: seq<T>, idx: T -> nat, item: T)
    requires IndexedBy(arr, idx)
    ensures Position(arr, item) == idx(item)
  {
    var p := Position(arr, item);
    assert arr[idx(item)] == item;
    assert idx(arr[p]) == p;
  }

  /**
   * In such a list, the slice from `from` to `to` holds exactly the items whose index lies
   * between theirs.
   */
  lemma SliceMembers<T(!new)>(arr: seq<T>, idx: T -> nat, from: T, to: T, x: T)
    requires IndexedBy(arr, idx) && idx(from) <= idx(to) + 1
    ensures Position(arr, from) == idx(from) && Position(arr, to) == idx(to)
    ensures x in ArrFromTo(arr, from, to) <==> idx(from) <= idx(x) <= idx(to)
  {
    PositionAt(arr, idx, from);
    PositionAt(arr, idx, to);
    var r := ArrFromTo(arr, from, to);
    if idx(from) <= idx(x) <= idx(to) {
      assert r[idx(x) - idx(from)] == x;
    }
    if x in r {
      var i :| 0 <= i < |r| && r[i] == x;
      assert r[i] == arr[idx(from) + i];
    }
  }

  /** Hence the set of the slice, as `value_range` and `suits_range` collect it. */
  lemma IndexedSlice<T(!new)>(arr: seq<T>, idx: T -> nat, from: T, to: T)
    requires IndexedBy(arr, idx) && idx(from) <= idx(to) + 1
    ensures Position(arr, from) == idx(from) && Position(arr, to) == idx(to)
    ensures forall x :: x in (set y | y in ArrFromTo(arr, from, to)) <==> idx(from) <= idx(x) <= idx(to)
  {
    SliceMembers(arr, idx, from, to, from);
    forall x ensures x in (set y | y in ArrFromTo(arr, from, to)) <==> idx(from) <= idx(x) <= idx(to) {
      SliceMembers(arr, idx, from, to, x);
    }
  }

  /** `ALL_VALUES` lists each value once, at its own index. */
  lemma ValuesIndexed()
    ensures IndexedBy(V.AllValues, V.Index)
  {
    V.AllValuesInOrder();
  }

  /** `ALL_SUITS` lists each suit once, at its own index. */
  lemma SuitsIndexed()
    ensures IndexedBy(S.AllSuits, S.Index)
  {
    S.AllSuitsInOrder();
  }

  /** On `ALL_VALUES` the slice from..=to holds exactly the values between from and to. */
  lemma ValueRangeSet(from: V.PlayingCardValue, to: V.PlayingCardValue)
    requires V.Index(from) <= V.Index(to) + 1
    requires IndexedBy(V.AllValues, V.Index)
    ensures Position(V.AllValues, from) < |V.AllValues| && Position(V.AllValues, to) < |V.AllValues|
    ensures Position(V.AllValues, from) <= Position(V.AllValues, to) + 1
    ensures forall v :: v in (set x | x in ArrFromTo(V.AllValues, from, to)) <==> V.Index(from) <= V.Index(v) <= V.Index(to)
  {
    IndexedSlice(V.AllValues, V.Index, from, to);
  }

  /** On `ALL_SUITS` the slice from..=to holds exactly the suits between from and to. */
  lemma SuitRangeSet(from: S.PlayingCardSuit, to: S.PlayingCardSuit)
    requires S.Index(from) <= S.Index(to) + 1
    ensures Position(S.AllSuits, from) < |S.AllSuits| && Position(S.AllSuits, to) < |S.AllSuits|
    ensures Position(S.AllSuits, from) <= Position(S.AllSuits, to) + 1
    ensures forall s :: s in (set x | x in ArrFromTo(S.AllSuits, from, to)) <==> S.Index(from) <= S.Index(s) <= S.Index(to)
  {
    SuitsIndexed();
    IndexedSlice(S.AllSuits, S.Index, from, to);
  }

  /** The values `value_range` collects from the slice of `ALL_VALUES`. */
  function ValuesBetween(from: V.PlayingCardValue, to: V.PlayingCardValue): (r: set<V.PlayingCardValue>)
    requires V.Index(from) <= V.Index(to) + 1
    ensures forall v :: v in r <==> V.InRange(from, to, v)
  {
    ValuesIndexed();
    ValueRangeSet(from, to);
    set x | x in ArrFromTo(V.AllValues, from, to)
  }

  /** The suits `suits_range` collects from the slice of `ALL_SUITS`. */
  function SuitsBetween(from: S.PlayingCardSuit, to: S.PlayingCardSuit): (r: set<S.PlayingCardSuit>)
    requires S.Index(from) <= S.Index(to) + 1
    ensures forall s :: s in r <==> S.LessOrEqual(from, s) && S.LessOrEqual(s, to)
  {
    SuitRangeSet(from, to);
    set x | x in ArrFromTo(S.AllSuits, from, to)
  }

  /** Every card of a value in vs and a suit in ss. */
  ghost function Grid(vs: set<V.PlayingCardValue>, ss: set<S.PlayingCardSuit>): (g: set<PlayingCard>)
    ensures forall c :: c in g <==> c.value in vs && c.suit in ss
  {
    set v, s | v in vs && s in ss :: PlayingCard(v, s)
  }

  /** The cards `to_deck` stores: every card of the grid, each with count n. */
  ghost function DeckCards(vs: set<V.PlayingCardValue>, ss: set<S.PlayingCardSuit>, n: nat): (m: map<PlayingCard, nat>)
    ensures forall c :: c in m <==> c.value in vs && c.suit in ss
    ensures forall c :: c in m ==> m[c] == n
  {
    map c | c in Grid(vs, ss) :: n
  }

  class PlayingCardDeck {
    var values: set<V.PlayingCardValue>
    var suits: set<S.PlayingCardSuit>
    var count: nat

    /** `PlayingCardDeck::new` (and `Default`): no values, no suits, count 1. */
    constructor ()
      ensures values == {} && suits == {} && count == 1
    {
      values, suits, count := {}, {}, 1;
    }

    /** `values`: adds the given values to those already chosen. */
    method Values(vs: seq<V.PlayingCardValue>)
      modifies this
      ensures values == old(values) + set v | v in vs
      ensures suits == old(suits) && count == old(count)
    {
      values := values + set v | v in vs;
    }

    /** `suits`: adds the given suits to those already chosen. */
    method Suits(ss: seq<S.PlayingCardSuit>)
      modifies this
      ensures suits == old(suits) + set s | s in ss
      ensures values == old(values) && count == old(count)
    {
      suits := suits + set s | s in ss;
    }

    /** `value_range`: adds from..=to; panics when from lies more than one step above to. */
    method ValueRange(from: V.PlayingCardValue, to: V.PlayingCardValue)
      requires V.Index(from) <= V.Index(to) + 1
      modifies this
      ensures forall v :: v in values <==> v in old(values) || V.InRange(from, to, v)
      ensures suits == old(suits) && count == old(count)
    {
      values := values + ValuesBetween(from, to);
    }

    /** `suits_range`: adds from..=to; panics when from lies more than one step above to. */
    method SuitsRange(from: S.PlayingCardSuit, to: S.PlayingCardSuit)
      requires S.Index(from) <= S.Index(to) + 1
      modifies this
      ensures forall s :: s in suits <==> s in old(suits) || (S.LessOrEqual(from, s) && S.LessOrEqual(s, to))
      ensures values == old(values) && count == old(count)
    {
      suits := suits + SuitsBetween(from, to);
    }

    /** `all_values`: adds every value. */
    method AllValues()
      modifies this
      ensures forall v :: v in values
      ensures suits == old(suits) && count == old(count)
    {
      values := values + set v | v in V.AllValues;
      forall v ensures v in values {
        ValuesIndexed();
        PositionAt(V.AllValues, V.Index, v);
      }
    }

    /** `all_suits`: adds every suit. */
    method AllSuits()
      modifies this
      ensures forall s :: s in suits
      ensures values == old(values) && count == old(count)
    {
      suits := suits + set s | s in S.AllSuits;
      forall s ensures s in suits {
        SuitsIndexed();
        PositionAt(S.AllSuits, S.Index, s);
      }
    }

    /** `count`: replaces the number of copies of each card. */
    method Count(n: nat)
      modifies this
      ensures count == n
      ensures values == old(values) && suits == old(suits)
    {
      count := n;
    }

    /**
     * `to_deck`: for each chosen value, for each chosen suit (both sets in no particular
     * order), `add_times` of that card `count` times, on a new deck.
     */
    method ToDeck() returns (deck: CardDeck<PlayingCard>)
      ensures fresh(deck)
      ensures deck.cards == DeckCards(values, suits, count)
      ensures Sum(deck.cards) == |values| * |suits| * count
    {
      deck := new CardDeck<PlayingCard>();
      var allSuits, n := suits, count;
      var valuesLeft := values;
      ghost var valuesDone: set<V.PlayingCardValue> := {};
      while valuesLeft != {}
        invariant valuesLeft + valuesDone == values && valuesLeft !! valuesDone
        invariant deck.cards == DeckCards(valuesDone, allSuits, n)
        invariant Sum(deck.cards) == |valuesDone| * |allSuits| * n
        decreases |valuesLeft|
      {
        var value :| value in valuesLeft;
        MoveOne(valuesLeft, valuesDone, values, value);
        AddRow(deck, valuesDone, value, allSuits, n);
        valuesLeft := valuesLeft - {value};
        valuesDone := valuesDone + {value};
      }
    }
  }

  /** The inner loop of `to_deck`: adds every card of one value, `n` times each. */
  method AddRow(deck: CardDeck<PlayingCard>, ghost valuesDone: set<V.PlayingCardValue>, value: V.PlayingCardValue,
                allSuits: set<S.PlayingCardSuit>, n: nat)
    requires value !in valuesDone
    requires deck.cards == DeckCards(valuesDone, allSuits, n)
    requires Sum(deck.cards) == |valuesDone| * |allSuits| * n
    modifies deck
    ensures deck.cards == DeckCards(valuesDone + {value}, allSuits, n)
    ensures Sum(deck.cards) == |valuesDone + {value}| * |allSuits| * n
  {
    var suitsLeft := allSuits;
    ghost var suitsDone: set<S.PlayingCardSuit> := {};
    RowStart(valuesDone, value, allSuits, n);
    while suitsLeft != {}
      invariant suitsLeft + suitsDone == allSuits && suitsLeft !! suitsDone
      invariant deck.cards == RowCards(valuesDone, value, suitsDone, allSuits, n)
      invariant Sum(deck.cards) == |valuesDone| * |allSuits| * n + |suitsDone| * n
      decreases |suitsLeft|
    {
      var suit :| suit in suitsLeft;
      MoveOne(suitsLeft, suitsDone, allSuits, suit);
      RowStep(valuesDone, value, suitsDone, suit, allSuits, n);
      AddTimesCounts(deck.cards, New(value, suit), n);
      deck.AddTimes(New(value, suit), n);
      suitsLeft := suitsLeft - {suit};
      suitsDone := suitsDone + {suit};
    }
    RowDone(valuesDone, value, allSuits, n);
  }

  /** Moving one element from the part left to the part done keeps the split of all. */
  lemma MoveOne<T>(left: set<T>, done: set<T>, all: set<T>, x: T)
    requires left + done == all && left !! done && x in left
    ensures (left - {x}) + (done + {x}) == all && (left - {x}) !! (done + {x})
    ensures x !in done && |left - {x}| < |left|
  {
  }

  /** The cards stored part way through `to_deck`: the rows finished, and part of the current one. */
  ghost function RowCards(vs: set<V.PlayingCardValue>, v: V.PlayingCardValue, done: set<S.PlayingCardSuit>,
                          ss: set<S.PlayingCardSuit>, n: nat): map<PlayingCard, nat>
  {
    DeckCards(vs, ss, n) + DeckCards({v}, done, n)
  }

  lemma RowCardsShape(vs: set<V.PlayingCardValue>, v: V.PlayingCardValue, done: set<S.PlayingCardSuit>,
                      ss: set<S.PlayingCardSuit>, n: nat)
    ensures forall c :: c in RowCards(vs, v, done, ss, n) <==> (c.value in vs && c.suit in ss) || (c.value == v && c.suit in done)
    ensures forall c :: c in RowCards(vs, v, done, ss, n) ==> RowCards(vs, v, done, ss, n)[c] == n
  {
  }

  /** Two maps with the same keys that give every key the same count are equal. */
  lemma UniformMaps(m1: map<PlayingCard, nat>, m2: map<PlayingCard, nat>, n: nat)
    requires forall c :: c in m1 <==> c in m2
    requires forall c :: c in m1 ==> m1[c] == n
    requires forall c :: c in m2 ==> m2[c] == n
    ensures m1 == m2
  {
    assert m1.Keys == m2.Keys;
  }

  /** One turn of the inner loop: the next card is new, and adding it extends the row. */
  lemma RowStep(vs: set<V.PlayingCardValue>, v: V.PlayingCardValue, done: set<S.PlayingCardSuit>,
                s: S.PlayingCardSuit, ss: set<S.PlayingCardSuit>, n: nat)
    requires v !in vs && s !in done
    ensures PlayingCard(v, s) !in RowCards(vs, v, done, ss, n)
    ensures AddedTimes(RowCards(vs, v, done, ss, n), PlayingCard(v, s), n) == RowCards(vs, v, done + {s}, ss, n)
    ensures |done + {s}| * n == |done| * n + n
  {
    RowCardsShape(vs, v, done, ss, n);
    RowCardsShape(vs, v, done + {s}, ss, n);
    var before := RowCards(vs, v, done, ss, n);
    var m := AddedTimes(before, PlayingCard(v, s), n);
    assert m == before[PlayingCard(v, s) := n];
    UniformMaps(m, RowCards(vs, v, done + {s}, ss, n), n);
    assert |done + {s}| == |done| + 1;
  }

  /** Before the inner loop of `to_deck`: the current row is empty. */
  lemma RowStart(vs: set<V.PlayingCardValue>, v: V.PlayingCardValue, ss: set<S.PlayingCardSuit>, n: nat)
    ensures RowCards(vs, v, {}, ss, n) == DeckCards(vs, ss, n)
  {
    RowCardsShape(vs, v, {}, ss, n);
    UniformMaps(RowCards(vs, v, {}, ss, n), DeckCards(vs, ss, n), n);
  }

  /** One turn of the outer loop: a full row makes the grid one value larger. */
  lemma RowDone(vs: set<V.PlayingCardValue>, v: V.PlayingCardValue, ss: set<S.PlayingCardSuit>, n: nat)
    requires v !in vs
    ensures RowCards(vs, v, ss, ss, n) == DeckCards(vs + {v}, ss, n)
    ensures |vs + {v}| * |ss| * n == |vs| * |ss| * n + |ss| * n
  {
    RowCardsShape(vs, v, ss, ss, n);
    UniformMaps(RowCards(vs, v, ss, ss, n), DeckCards(vs + {v}, ss, n), n);
    assert |vs + {v}| == |vs| + 1;
    assert (|vs| + 1) * |ss| == |vs| * |ss| + |ss|;
    assert (|vs| * |ss| + |ss|) * n == |vs| * |ss| * n + |ss| * n;
  }

  /** The values Seven..=Ace: eight of them. */
  lemma SkatValues(values: set<V.PlayingCardValue>)
    requires forall v :: v in values <==> V.InRange(V.Seven, V.Ace, v)
    ensures |values| == 8
  {
    forall v ensures v in values <==> v in {V.Seven, V.Eight, V.Nine, V.Ten, V.Jack, V.Queen, V.King, V.Ace} {
      V.SkatRange(v);
    }
    assert values == {V.Seven, V.Eight, V.Nine, V.Ten, V.Jack, V.Queen, V.King, V.Ace};
  }

  /** The suits Diamonds..=Spades: all four. */
  lemma SkatSuits(suits: set<S.PlayingCardSuit>)
    requires forall s :: s in suits <==> S.LessOrEqual(S.Diamonds, s) && S.LessOrEqual(s, S.Spades)
    ensures |suits| == 4
  {
    assert suits == {S.Diamonds, S.Clubs, S.Hearts, S.Spades};
  }

  /** The documented example: seven to ace in all four suits, twice each, is 64 cards. */
  method SkatDeckSize() returns (size: nat)
    ensures size == 64
  {
    var builder := new PlayingCardDeck();
    builder.ValueRange(V.Seven, V.Ace);
    builder.SuitsRange(S.Diamonds, S.Spades);
    builder.Count(2);
    SkatValues(builder.values);
    SkatSuits(builder.suits);
    var deck := builder.ToDeck();
    size := deck.Size();
  }
}
