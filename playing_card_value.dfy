/**
 * `PlayingCardValue` of src/playing_cards/playing_card_value.rs: the thirteen values in
 * declaration order, which is also their derived order, with the short text `as_str`
 * that `Display` writes.
 */
module PlayingCardValues {

  datatype PlayingCardValue =
    | Two | Three | Four | Five | Six | Seven | Eight | Nine | Ten
    | Jack | Queen | King | Ace

  /** The position in the declaration, which the derived `Ord` compares. */
  function Index(v: PlayingCardValue): (i: nat)
    ensures i < 13
  {
    match v
    case Two => 0
    case Three => 1
    case Four => 2
    case Five => 3
    case Six => 4
    case Seven => 5
    case Eight => 6
    case Nine => 7
    case Ten => 8
    case Jack => 9
    case Queen => 10
    case King => 11
    case Ace => 12
  }

  /** `ALL_VALUES`: every value, in declaration order. */
  const AllValues: seq<PlayingCardValue> :=
    [Two, Three, Four, Five, Six, Seven, Eight, Nine, Ten, Jack, Queen, King, Ace]

  /** Each value stands in `ALL_VALUES` at its own index, so the list holds every value once. */
  lemma AllValuesInOrder()
    ensures |AllValues| == 13
    ensures forall i :: 0 <= i < |AllValues| ==> Index(AllValues[i]) == i
    ensures forall v :: AllValues[Index(v)] == v
  {
  }

  /** Different values have different positions: the derived order is total. */
  lemma IndexInjective(a: PlayingCardValue, b: PlayingCardValue)
    requires Index(a) == Index(b)
    ensures a == b
  {
  }

  /** The derived `Ord`: a comes before b in `ALL_VALUES`. */
  function Less(a: PlayingCardValue, b: PlayingCardValue): (r: bool)
    ensures r <==> a in AllValues[..Index(b)]
  {
    AllValuesInOrder();
    Index(a) < Index(b)
  }

  predicate LessOrEqual(a: PlayingCardValue, b: PlayingCardValue)
  {
    Index(a) <= Index(b)
  }

  /** The derived `Default`. */
  const Default: PlayingCardValue := Two

  /** `as_str`: the digits for Two to Ten, the initial for the court cards and the ace. */
  function AsStr(v: PlayingCardValue): (s: string)
    ensures 1 <= |s| <= 2
    ensures ' ' !in s
  {
    match v
    case Two => "2"
    case Three => "3"
    case Four => "4"
    case Five => "5"
    case Six => "6"
    case Seven => "7"
    case Eight => "8"
    case Nine => "9"
    case Ten => "10"
    case Jack => "J"
    case Queen => "Q"
    case King => "K"
    case Ace => "A"
  }

  /** Different values are written differently. */
  lemma AsStrInjective(a: PlayingCardValue, b: PlayingCardValue)
    requires AsStr(a) == AsStr(b)
    ensures a == b
  {
  }

  /** `Display`: `as_str`. */
  function ToString(v: PlayingCardValue): (s: string)
    ensures s == AsStr(v)
  {
    AsStr(v)
  }

  /** The `display_check` test: Two, Ten and Ace are written "2", "10" and "A". */
  lemma DisplayCheck()
    ensures ToString(Two) == "2" && ToString(Ten) == "10" && ToString(Ace) == "A"
  {
  }

  /** `RangeInclusive::contains` for from..=to: from <= v && v <= to. */
  predicate InRange(from: PlayingCardValue, to: PlayingCardValue, v: PlayingCardValue)
  {
    LessOrEqual(from, v) && LessOrEqual(v, to)
  }

  /** The range of a skat deck, Seven..=Ace, holds Seven to Ace and nothing below. */
  lemma SkatRange(v: PlayingCardValue)
    ensures InRange(Seven, Ace, v) <==> v in {Seven, Eight, Nine, Ten, Jack, Queen, King, Ace}
  {
  }
}
