# stochasta in Dafny

A model of the core of `stochasta`, a Rust crate that computes exact probabilities for
drawing cards from a deck.

- **Probabilities.** A probability is an exact reduced rational in [0, 1]
  (`Probability`, built on the reduced ratios of `Ratio<u64>`). It has a checked
  constructor, exact multiplication, and the constants zero and one.
- **Card decks.** A deck (`CardDeck<C>`) is a bag of cards: a map from card to count.
  It can add cards, report sizes, counts and per-card probabilities, and give the full
  probability map. It also has `draw`, which the tree builder calls but the deck does
  not define.
- **Draw sequences.** `CardDrawSequence<C>` is the cards of one path with their
  probability.
- **Draw trees.** `CardDrawTree<C>` is the tree of all outcomes of drawing `k` cards.
  - It can be built with replacement (`without_shrinking`) or without replacement
    (`shrinking`).
  - `probability_of` looks up the probability of a sequence.
  - `paths` lists the leaves.
  - There are two text renderings: the Graphviz export `to_graphviz` and the indented
    `Display`.
- **Smaller pieces.**
  - `factorial`;
  - the `BinomialCoefficient` validator;
  - the text card `Card`;
  - the playing-card enums and struct;
  - the `PlayingCardDeck` builder that turns value and suit sets into a `CardDeck`.

## Modelling decisions

- **Form of the model.** Pure code is modelled as datatypes and functions. Code that
  changes state is modelled imperatively.
  - `CardDeck` is a class whose `cards: map<C, nat>` field `add_times` updates in place.
    `from`, `from_iter` and `extend` loop over `add`. `size`, `probability` and
    `probabilities` are loops over the map's entries, taken in any order.
  - The tree builders fill a local child map in a loop, as the source does.
  - `create_paths` and `to_graphviz_iter` are methods with loops.
  - `PlayingCardDeck` is a class whose builder methods update its `values` and `suits`
    sets and its `count` field. `to_deck` runs the nested loop over both sets.
- **Specification functions.** Each method is proved equal to a function (`Tallied`,
  `WithoutShrinkingTree`, `ShrinkingTree`, `PathsFrom`, `IterStatements`, `DeckCards`).
  The lemmas state what the source promises about those functions.
- **Probabilities.** A `Probability` is a reduced pair `Ratio(numer, denom)` whose type
  carries `numer <= denom`. Since the reduced form is unique, equality of pairs is
  equality of values, as for the source's derived `Eq`.
- **Panics become preconditions.** The conditions are:
  - `Probability::new` with `d == 0` or `n > d`;
  - `from_ratio` above one;
  - `BinomialCoefficient::new` with `n < k`;
  - `arr_from_to` with a missing element or a start past the end;
  - `probability` and `probabilities` on a deck whose stored counts are all zero.
- **Tree cards are natural numbers.** The ascending order of the children's `BTreeMap`
  is then the order of `nat`. A card's `Display` is its decimal text.
- **`draw`.** The deck called by `card_draw_tree.rs:169` does not define `draw`. It is
  modelled as a copy of the deck with one copy of the card fewer, where an entry that
  would reach zero is dropped. This matches the unit test's tree for `shrinking`, which
  has no zero-probability branches.
- **`ALL_VALUES` and `ALL_SUITS`.** These are not among the source files. They are
  defined as the variants in declaration order.
- **Where the documentation and the code disagree, the code is followed.**
  - `probabilities()` keeps entries whose count is zero.
  - `is_empty()` looks only at whether entries are stored (`ZeroCountEntry`).
  - The builder example calls `.values(range)` where the method takes a slice. The
    example is modelled with `value_range` and `suits_range`
    (`PlayingCardDecks.SkatDeckSize`).

## Model

| member | source | states |
|---|---|---|
| Rationals.NewRatio | src/probability.rs:49-51 | `Ratio::new(n, d)` with d > 0 is a reduced ratio whose value is n/d |
| Rationals.ValueInjective | src/probability.rs:10-13 | two reduced ratios with the same value are the same pair, so derived equality is equality of values |
| Rationals.MulRatio | src/probability.rs:24-29 | the product of two ratios is reduced and has the product of their values |
| Rationals.LessRatioIsValueOrder | src/probability.rs:10 | the cross-multiplication order of ratios is the order of their values |
| Probabilities.Bounds | src/probability.rs:5-13 | every probability lies in [0, 1] |
| Probabilities.AtMostOne | src/probability.rs:58-64 | a reduced ratio of value at most one has numerator at most denominator |
| Probabilities.FromRatio | src/probability.rs:58-64 | `from_ratio` requires a ratio of at most one (it panics otherwise) and keeps its value |
| Probabilities.New | src/probability.rs:49-51 | `new(n, d)` requires d > 0 and n <= d (the two panics) and has the value n/d |
| Probabilities.RatioOf | src/probability.rs:67-69 | `ratio()` gives back the probability's own reduced ratio, whose value lies in [0, 1] and whose numerator is at most its denominator |
| Probabilities.MulInBounds | src/probability.rs:21-30 | the exact product of two probabilities needs no bounds check: it is at most one |
| Probabilities.Mul | src/probability.rs:21-30 | `p * q` has the product of the values |
| Probabilities.MulValue | src/probability.rs:21-30 | the product's value is the product of the values, and at most either factor |
| Probabilities.MulNoLarger | src/probability.rs:21-30 | multiplying by the same probability keeps the order of values |
| Probabilities.MulAssociative | src/probability.rs:21-30 | the product is associative |
| Probabilities.MulCommutative | src/probability.rs:21-30 | the product is commutative |
| Probabilities.MulUnits | src/probability.rs:72-84 | `PROBABILITY_ONE` is neutral and `PROBABILITY_ZERO` absorbs under the product |
| Probabilities.EqualIffSameValue | src/probability.rs:10-13 | two probabilities are equal exactly when their values are |
| Probabilities.Less | src/probability.rs:10 | the derived order holds exactly when the first value is smaller |
| Probabilities.LessIsValueOrder | src/probability.rs:10 | the derived order is total: of two probabilities one is smaller, or they are equal |
| Probabilities.Examples | src/probability.rs:91-168 | the test values: the constants are 0/1 and 1/1; new(0,2), new(1,2), new(2,2); from_ratio of 0/7, 4/9, 9/9; 1/4 == 2/8; 1/3 < 4/7 < 8/9 |
| Probabilities.ToString | src/probability.rs:15-19 | `Display` writes the ratio: digits, with "/" and the denominator exactly when the denominator is not one |
| Probabilities.ToStringInjective | src/probability.rs:15-19 | different probabilities display differently |
| Util.Factorial | src/util.rs:8-31 | `factorial(n)` is at least one |
| Util.TableStep | src/util.rs:11-29 | each table entry from 2 to 20 is n times the entry before it |
| Util.FactorialStep | src/util.rs:8-31 | `factorial(n) == n * factorial(n - 1)` for every n >= 2, in the table or past it |
| Util.FactorialIsFact | src/util.rs:1-31 | the table-plus-recursion agrees with the definition n! = n * (n - 1)!, 1! = 0! = 1 |
| Util.FactorialTestValues | src/util.rs:38-50 | the unit test's values 0! to 9! |
| Util.FactorialU64Range | src/util.rs:8-31 | every value up to 20! fits a `u64`; from 21! on the product does not |
| BinomialCoefficients.New | src/binomial_coefficient.rs:15-19 | `new(n, k)` requires n >= k (it asserts this); `n()` and `k()` give back n and k |
| BinomialCoefficients.TryNew | src/binomial_coefficient.rs:24-30 | `try_new(n, k)` is Some exactly when n >= k, holding n and k |
| BinomialCoefficients.NewIsTryNew | src/binomial_coefficient.rs:15-30 | where both succeed, `new` and `try_new` build the same coefficient |
| BinomialCoefficients.Default | src/binomial_coefficient.rs:4-8 | the derived default is 0 over 0, which is valid |
| Cards.New | src/cards/card.rs:28-37 | `Card::new(text).text() == text` |
| Cards.TextDeterminesCard | src/cards/card.rs:6-9 | cards with the same text are equal |
| Cards.Default | src/cards/card.rs:6-9 | the default card has empty text |
| Cards.ToString | src/cards/card.rs:11-15 | `Display` is "(" + text + ")" |
| Cards.ToStringInjective | src/cards/card.rs:11-15 | different cards display differently |
| Cards.LessIsTotalOrder | src/cards/card.rs:6-9 | the derived order, that of the texts, is a strict total order |
| Cards.Less | src/cards/card.rs:6-9 | the derived order compares the texts: a comes first exactly when, at the first place the texts differ, a has the smaller character or has ended |
| Text.LexLessIff | src/cards/card.rs:6-9 | the character-by-character comparison agrees with that first-difference definition of string order |
| CardDecks.CardDeck.constructor | src/cards/card_deck.rs:93-97 | `new()` stores no card |
| CardDecks.CardDeck.FromCards | src/cards/card_deck.rs:21-47 | `from(vec)` and `from_iter` add each card once, in order, to a new deck |
| CardDecks.CardDeck.AddTimes | src/cards/card_deck.rs:131-133 | `add_times(c, n)` raises the stored count of c by n, storing c even when n == 0 |
| CardDecks.CardDeck.Add | src/cards/card_deck.rs:113-115 | `add(c)` is `add_times(c, 1)` |
| CardDecks.CardDeck.Extend | src/cards/card_deck.rs:54-58 | `extend` adds the cards one after the other |
| CardDecks.CardDeck.Size | src/cards/card_deck.rs:160-162 | `size()` is the sum of the stored counts, whatever the order of the entries |
| CardDecks.CardDeck.Probability | src/cards/card_deck.rs:175-181 | `probability(c)` is count/size for a stored card and 0/1 for an absent one |
| CardDecks.CardDeck.Probabilities | src/cards/card_deck.rs:201-207 | `probabilities()` maps every stored card to count/size |
| CardDecks.CardDeck.Draw | src/cards/card_draw_tree.rs:169 | `draw(c)` is a new deck with one c fewer; this deck is unchanged |
| CardDecks.CardDeck.IsEmpty | src/cards/card_deck.rs:146-148 | `is_empty()` means no card is stored; an empty deck has size zero, and a deck that is not empty stores some card |
| CardDecks.CardDeck.Count | src/cards/card_deck.rs:241-243 | `count(c)` is zero for a card never stored, and never more than the size |
| CardDecks.CardDeck.Contains | src/cards/card_deck.rs:223-225 | `contains(c)` holds exactly when c is stored with a positive count |
| CardDecks.CardDeck.Equals | src/cards/card_deck.rs:61-68 | two decks are equal exactly when they store the same cards with the same counts, so a card stored with count zero tells them apart |
| CardDecks.AddTimesCounts | src/cards/card_deck.rs:131-133 | `add_times(c, n)` raises `count(c)` by n, leaves every other count alone, adds c to the stored cards and n to the size |
| CardDecks.TalliedCounts | src/cards/card_deck.rs:21-58 | after `from` or `extend`, each card's count grows by its number of occurrences, and the size by the number of cards |
| CardDecks.TalliedPositive | src/cards/card_deck.rs:21-29 | a deck built from a list stores only positive counts |
| CardDecks.CountExamples | src/cards/card_deck.rs:227-240 | the examples: [1, 3, 3] counts 1 once, 3 twice and 5 never; [1, 2, 1] has size 3 |
| CardDecks.ContainsIffListed | src/cards/card_deck.rs:223-225 | for a deck built from a list, `contains(c)` (count > 0) holds exactly for the cards in the list |
| CardDecks.EmptyIffSizeZero | src/cards/card_deck.rs:135-148 | while all counts are positive, `is_empty()` agrees with `size() == 0`, and the probabilities are defined |
| CardDecks.ZeroCountEntry | src/cards/card_deck.rs:131-148 | `add_times(c, 0)` on an empty deck gives a deck that is not empty, has size zero, and differs from the empty deck; `probability(c)` there has no defined value |
| CardDecks.SizePositive | src/cards/card_deck.rs:160-162 | the size is positive exactly when some stored count is |
| CardDecks.ProbabilitiesOf | src/cards/card_deck.rs:201-207 | `probabilities()` has exactly the stored cards as keys |
| CardDecks.ProbabilityInValue | src/cards/card_deck.rs:175-181 | `probability(c)` has the value count/size for a stored card and is zero for an absent one |
| CardDecks.AbsentProbability | src/cards/card_deck.rs:175-181 | an absent card has probability zero, whatever the deck |
| CardDecks.ProbabilitiesValues | src/cards/card_deck.rs:201-207 | each entry of `probabilities()` has the value count/size |
| CardDecks.ProbabilitiesOfIs | src/cards/card_deck.rs:201-207 | a map holding `probability(c)` for exactly the stored cards is `probabilities()` |
| CardDecks.ProbabilitiesSumToOne | src/cards/card_deck.rs:183-207 | with a positive size, the values of `probabilities()` sum to exactly one |
| CardDecks.DrawnCounts | src/cards/card_draw_tree.rs:169 | `draw(c)` lowers the count of c by one when it is positive, changes no other count, and lowers the size by one |
| CardDecks.DrawnPositive | src/cards/card_draw_tree.rs:169 | drawing keeps every stored count positive |
| CardDrawSequences.New | src/cards/card_draw_sequence.rs:44-56 | `new(cards, p).cards() == cards` and `.probability() == p`, unchecked and unchanged |
| CardDrawSequences.Equals | src/cards/card_draw_sequence.rs:20-27 | two sequences are equal exactly when their card lists are and their probabilities have the same value |
| CardDrawSequences.EqualsElementwise | src/cards/card_draw_sequence.rs:20-27 | two sequences are equal exactly when their cards agree position by position and their probabilities have the same value |
| CardDrawSequences.NewExample | src/cards/card_draw_sequence.rs:33-46 | the documented example, and 1/4 versus 2/8 on the same or on reordered cards |
| CardDrawTrees.SortedKeysSpec | src/cards/card_draw_tree.rs:24 | the children's keys in `BTreeMap` order: every key once, strictly ascending |
| CardDrawTrees.New | src/cards/card_draw_tree.rs:76-83 | `new()` is a childless node with both probabilities one |
| CardDrawTrees.NewNode | src/cards/card_draw_tree.rs:86-93 | `new_node(p, parent)` is childless, has edge probability p and probability in the tree parent × p |
| CardDrawTrees.ProbabilityOf | src/cards/card_draw_tree.rs:184-212 | `probability_of(&[])` is one, and any non-empty sequence has probability zero in a childless tree (as in the `probability_of_empty` test, lines 387-391) |
| CardDrawTrees.IsEmpty | src/cards/card_draw_tree.rs:214-218 | `is_empty` holds exactly when the node has no children to visit in card order |
| CardDrawTrees.CreateFrom | src/cards/card_draw_tree.rs:105-113 | `create_from(deck)` is the one-level without-shrinking tree: one leaf per entry of `probabilities()` |
| CardDrawTrees.WithoutShrinking | src/cards/card_draw_tree.rs:121-124 | `without_shrinking(deck, k)` is the without-shrinking tree below a root of probability one |
| CardDrawTrees.Shrinking | src/cards/card_draw_tree.rs:132-135 | `shrinking(deck, k)` is the shrinking tree below a root of probability one |
| CardDrawTrees.WithoutShrinkingRootProbability | src/cards/card_draw_tree.rs:137-158 | the builder's loop gives one child per card, each built from the same deck one level down |
| CardDrawTrees.ShrinkingRootProbability | src/cards/card_draw_tree.rs:160-182 | the builder's loop gives one child per card, each built from `deck.draw(card)` one level down |
| CardDrawTrees.ChildrenKeys | src/cards/card_draw_tree.rs:143-156 | the children of a built node are keyed by exactly the deck's cards |
| CardDrawTrees.PositiveShrinkingDefined | src/cards/card_draw_tree.rs:160-182 | a deck of positive counts never makes the shrinking builder divide by zero, at any depth |
| CardDrawTreeLaws.ProbabilityOfStep | src/cards/card_draw_tree.rs:204-212 | for a child, `probability_of` is the child's edge probability times the rest below it |
| CardDrawTreeLaws.OffPathZero | src/cards/card_draw_tree.rs:204-212 | `probability_of` is zero once a card of the sequence is not a child, including sequences longer than the tree is deep |
| CardDrawTreeLaws.PathProbability | src/cards/card_draw_tree.rs:204-212 | in a consistent tree, the root's probability in the tree times `probability_of(s)` is the probability in the tree of the node s reaches |
| CardDrawTreeLaws.RootedPathProbability | src/cards/card_draw_tree.rs:204-212 | below a root of probability one, `probability_of` a path is its node's probability in the tree |
| CardDrawTreeLaws.ExtendNoMoreLikely | src/cards/card_draw_tree.rs:204-212 | appending a card never increases `probability_of` |
| CardDrawTreeLaws.WithoutShrinkingRoot | src/cards/card_draw_tree.rs:137-143 | the root of a without-shrinking tree is `new_node(probability, parent)` |
| CardDrawTreeLaws.WithoutShrinkingConsistent | src/cards/card_draw_tree.rs:137-158 | in a without-shrinking tree every child's probability in the tree is its parent's times its own |
| CardDrawTreeLaws.WithoutShrinkingPaths | src/cards/card_draw_tree.rs:137-158 | the paths of a without-shrinking tree are exactly the sequences of at most k cards of the deck |
| CardDrawTreeLaws.WithoutShrinkingLeaves | src/cards/card_draw_tree.rs:137-158 | a node is a leaf exactly when it is k levels down or the deck is empty |
| CardDrawTreeLaws.WithoutShrinkingProbabilityOf | src/cards/card_draw_tree.rs:137-158 | `probability_of(s)` is the product of the cards' deck probabilities when \|s\| <= k, and zero past k |
| CardDrawTreeLaws.ShrinkingRoot | src/cards/card_draw_tree.rs:160-166 | the root of a shrinking tree is `new_node(probability, parent)` |
| CardDrawTreeLaws.ShrinkingConsistent | src/cards/card_draw_tree.rs:160-182 | in a shrinking tree every child's probability in the tree is its parent's times its own |
| CardDrawTreeLaws.ShrinkingPaths | src/cards/card_draw_tree.rs:160-182 | the paths of a shrinking tree are exactly the sequences of at most k cards that can be drawn one after the other |
| CardDrawTreeLaws.ShrinkingDrawsWithinCounts | src/cards/card_draw_tree.rs:160-182 | along every path, no card appears more often than the deck holds it |
| CardDrawTreeLaws.ShrinkingTreeShape | src/cards/card_draw_tree.rs:160-182 | a shrinking tree has one child per card, carrying the card's share of the deck, over the deck without that card |
| CardDrawTreeLaws.ShapeProbabilityOf | src/cards/card_draw_tree.rs:204-212 | in a tree of that shape, `probability_of` a short enough sequence is its probability of being drawn without replacement |
| CardDrawTreeLaws.ShrinkingProbabilityOf | src/cards/card_draw_tree.rs:160-182 | `probability_of(s)` is the probability of drawing s without replacement when \|s\| <= k, and zero past k |
| CardDrawTreePaths.CreatePaths | src/cards/card_draw_tree.rs:244-262 | `create_paths(sequence)` pushes the leaf's sequence, or extends by each child's paths in ascending card order |
| CardDrawTreePaths.Paths | src/cards/card_draw_tree.rs:239-242 | `paths()` is `create_paths` from the empty sequence |
| CardDrawTreePaths.PathsFrom | src/cards/card_draw_tree.rs:244-262 | `create_paths(sequence)` returns at least one sequence, and every one extends the given sequence |
| CardDrawTreePaths.ChildrenPaths | src/cards/card_draw_tree.rs:253-259 | the loop over the children returns at least one sequence per child, each extending the given sequence by at least one card |
| CardDrawTreePaths.PathsSound | src/cards/card_draw_tree.rs:244-262 | every returned sequence extends the given one by a path to a leaf, with that leaf's probability in the tree |
| CardDrawTreePaths.PathsComplete | src/cards/card_draw_tree.rs:244-262 | every leaf appears among the returned sequences with its probability in the tree |
| CardDrawTreePaths.LeafPaths | src/cards/card_draw_tree.rs:247-251 | a childless tree yields exactly the given sequence with its probability in the tree |
| CardDrawTreePaths.PathsAscending | src/cards/card_draw_tree.rs:244-262 | the returned sequences are pairwise distinct and strictly ascending in the lexicographic order of their cards, the `BTreeMap` order |
| CardDrawTreePaths.WithoutShrinkingPathCount | src/cards/card_draw_tree.rs:137-158 | a without-shrinking tree of depth k over n > 0 cards has n^k paths, and one over an empty deck |
| CardDrawTreePaths.WithoutShrinkingPathsCounted | src/cards/card_draw_tree.rs:220-262 | `paths()` of `without_shrinking(deck, k)` over a non-empty deck lists \|deck\|^k sequences, in ascending order |
| CardDrawTreePaths.PathsTotal | src/cards/card_draw_tree.rs:244-262 | in a conserving tree the paths' probabilities add up to the node's probability in the tree |
| CardDrawTreePaths.WithoutShrinkingNormalized | src/cards/card_draw_tree.rs:137-158 | below every inner node of a without-shrinking tree the edge probabilities add up to one |
| CardDrawTreePaths.ShrinkingNormalized | src/cards/card_draw_tree.rs:160-182 | below every inner node of a shrinking tree the edge probabilities add up to one |
| CardDrawTreePaths.RootedTotal | src/cards/card_draw_tree.rs:453-479 | in a conserving tree whose root has probability one in the tree, the paths' probabilities add up to one |
| CardDrawTreePaths.WithoutShrinkingPathsSumToOne | src/cards/card_draw_tree.rs:467-479 | the paths of `without_shrinking(deck, k)` have probabilities summing to exactly one |
| CardDrawTreePaths.ShrinkingPathsSumToOne | src/cards/card_draw_tree.rs:453-465 | the paths of `shrinking(deck, k)` have probabilities summing to exactly one |
| CardDrawTreePaths.WithoutShrinkingPathsAre | src/cards/card_draw_tree.rs:220-242 | over a non-empty deck, the paths of `without_shrinking` are exactly the k-card sequences of the deck, each with the product of its cards' probabilities |
| CardDrawTreeText.PreOrderNodes | src/cards/card_draw_tree.rs:369-378 | the pre-order walk lists every node below the root exactly once |
| CardDrawTreeText.ToGraphvizSub | src/cards/card_draw_tree.rs:346-367 | `to_graphviz_sub` writes the node's edge and declaration and then its children, and returns id + its number of descendants |
| CardDrawTreeText.ToGraphvizIter | src/cards/card_draw_tree.rs:369-378 | the loop writes the children's text in ascending card order and returns id + the number of nodes below |
| CardDrawTreeText.ToGraphvizChild | src/cards/card_draw_tree.rs:372-375 | one turn of that loop: after the first remaining child's text is appended, what is written followed by the later children's text is still the whole output, and the counter has moved past that child's nodes |
| CardDrawTreeText.ToGraphviz | src/cards/card_draw_tree.rs:326-344 | `to_graphviz` is the header, the statements below "root" numbered from 2, and "}" |
| CardDrawTreeText.Graphviz | src/cards/card_draw_tree.rs:326-344 | the export begins with the `digraph` header declaring "_root" and ends with "}" |
| CardDrawTreeTextLaws.IterCount | src/cards/card_draw_tree.rs:369-378 | `to_graphviz_iter` writes exactly two statements per node below the tree |
| CardDrawTreeTextLaws.IterCovers | src/cards/card_draw_tree.rs:369-378 | it writes the declaration and the incoming edge of every node below the tree |
| CardDrawTreeTextLaws.IterOnly | src/cards/card_draw_tree.rs:369-378 | it writes nothing but those statements |
| CardDrawTreeTextLaws.NumberRange | src/cards/card_draw_tree.rs:369-378 | the ids used below a call that starts at id run from id + 1 to id + the number of nodes |
| CardDrawTreeTextLaws.NumberInjective | src/cards/card_draw_tree.rs:369-378 | different nodes get different ids |
| CardDrawTreeTextLaws.NodeNameInjective | src/cards/card_draw_tree.rs:346-348 | node names "card_id" with numeric card texts are equal only for equal card and id |
| CardDrawTreeTextLaws.GraphvizCount | src/cards/card_draw_tree.rs:326-344 | between header and "}" there are two statements per node |
| CardDrawTreeTextLaws.GraphvizCovers | src/cards/card_draw_tree.rs:326-378 | the export holds every node's declaration and incoming edge |
| CardDrawTreeTextLaws.GraphvizOnly | src/cards/card_draw_tree.rs:326-378 | the export holds nothing else |
| CardDrawTreeTextLaws.GraphvizDeclaration | src/cards/card_draw_tree.rs:350-361 | each node is declared under its name, labelled "card (probability in tree)" |
| CardDrawTreeTextLaws.GraphvizEdgeFromRoot | src/cards/card_draw_tree.rs:331-361 | the edge into a child of the root starts at "_root" and carries the child's own probability |
| CardDrawTreeTextLaws.GraphvizEdgeFromParent | src/cards/card_draw_tree.rs:346-367 | the edge into a deeper node starts at its parent's name and carries its own probability |
| CardDrawTreeTextLaws.GraphvizNamesDistinct | src/cards/card_draw_tree.rs:339-378 | ids run from 2 to 1 + the number of nodes, and distinct nodes have distinct names |
| CardDrawTreeTextLaws.GraphvizChildless | src/cards/card_draw_tree.rs:326-344 | the export is only the header and "}" exactly when the tree has no children |
| CardDrawTreeDisplay.EntryHead | src/cards/card_draw_tree.rs:46-49 | an entry's first line starts with "* ", ends with ")" and holds no line feed |
| CardDrawTreeDisplay.EntryHeadInjective | src/cards/card_draw_tree.rs:46-49 | the first line determines the card and the probability in the tree: two heads are equal only for equal cards and probabilities |
| CardDrawTreeDisplay.Indented | src/cards/card_draw_tree.rs:50-54 | each line of the child's text gets a leading tab, and no line is added or lost |
| CardDrawTreeDisplay.Entries | src/cards/card_draw_tree.rs:44-57 | `Display` makes one entry per child, in ascending card order: entry i begins with the head line of the i-th child and a line feed |
| CardDrawTreeDisplay.Display | src/cards/card_draw_tree.rs:36-60 | a tree with children renders starting with the head line of its least card and a line feed |
| CardDrawTreeDisplay.DisplayEmpty | src/cards/card_draw_tree.rs:36-60 | `Display` is the empty text exactly when the node has no children |
| CardDrawTreeDisplay.LeafSiblingsLeaveBlankLine | src/cards/card_draw_tree.rs:46-56 | as written, two leaf children 1 and 2 of probability 1/2 render as "* 1 (1/2)\n\n* 2 (1/2)\n", whose lines are ["* 1 (1/2)", "", "* 2 (1/2)"] |
| CardDrawTreeDisplay.BlankLineSplit | src/cards/card_draw_tree.rs:51 | `str::lines` keeps an empty line between two line feeds and starts no line after a final line feed |
| CardDrawTreeDisplay.CorrectedDisplayLines | src/cards/card_draw_tree.rs:36-60 | the corrected rendering has one line per node, in pre-order, each being as many tabs as the node's depth minus one, then "* card (probability in tree)" |
| CardDrawTreeDisplay.CorrectedTwoLeaves | src/cards/card_draw_tree.rs:36-60 | the corrected rendering of the two leaves is "* 1 (1/2)\n* 2 (1/2)" |
| CardDrawTreeExamples.CoinProbabilityOf | src/cards/card_draw_tree.rs:184-202 | the documented coin thrown twice: [] has probability 1, [H] 1/2, [H, H] 1/4 and [H, H, H] 0 |
| CardDrawTreeExamples.CoinPaths | src/cards/card_draw_tree.rs:220-238 | the documented coin thrown twice has four paths, in ascending order |
| CardDrawTreeExamples.WithoutShrinkingThreeDraws | src/cards/card_draw_tree.rs:444-451 | drawing [1, 2, 1], [1, 2, 2] or [1, 2, 3] from [1, 2, 3] with replacement has probability 1/27 |
| CardDrawTreeExamples.ThirdsIndependent | src/cards/card_draw_tree.rs:444-451 | any three draws with replacement from three single cards have probability 1/27 |
| CardDrawTreeExamples.ShrinkingThreeDraws | src/cards/card_draw_tree.rs:435-442 | without replacement from [1, 2, 3], [1, 2, 1] and [1, 2, 2] have probability 0 and [1, 2, 3] has 1/6 |
| PlayingCardValues.Index | src/playing_cards/playing_card_value.rs:4-33 | each value has a declaration position below 13 |
| PlayingCardValues.IndexInjective | src/playing_cards/playing_card_value.rs:4-33 | different values have different positions, so the derived order is total |
| PlayingCardValues.Less | src/playing_cards/playing_card_value.rs:4-33 | the derived order puts a before b exactly when a comes before b in `ALL_VALUES` |
| PlayingCardValues.AllValuesInOrder | src/playing_cards/playing_card_deck.rs:5 | `ALL_VALUES` holds the 13 values, each at its own declaration position |
| PlayingCardValues.AsStr | src/playing_cards/playing_card_value.rs:36-52 | `as_str` is one or two characters with no space |
| PlayingCardValues.AsStrInjective | src/playing_cards/playing_card_value.rs:36-52 | different values have different texts |
| PlayingCardValues.ToString | src/playing_cards/playing_card_value.rs:55-59 | `Display` is `as_str` |
| PlayingCardValues.DisplayCheck | src/playing_cards/playing_card_value.rs:65-70 | the `display_check` test: Two, Ten and Ace display as "2", "10" and "A" |
| PlayingCardValues.SkatRange | src/playing_cards/playing_card_value.rs:72-88 | `Seven..=Ace` contains exactly Seven to Ace |
| PlayingCardSuits.Index | src/playing_cards/playing_card_suit.rs:4-14 | each suit has a declaration position below 4 |
| PlayingCardSuits.IndexInjective | src/playing_cards/playing_card_suit.rs:4-14 | different suits have different positions |
| PlayingCardSuits.Less | src/playing_cards/playing_card_suit.rs:4-14 | the derived order puts a before b exactly when a comes before b in `ALL_SUITS` |
| PlayingCardSuits.AllSuitsInOrder | src/playing_cards/playing_card_deck.rs:5 | `ALL_SUITS` holds the 4 suits, each at its own declaration position |
| PlayingCardSuits.IsRed | src/playing_cards/playing_card_suit.rs:16-22 | `is_red` holds of hearts and diamonds, the suits at even places of `ALL_SUITS` |
| PlayingCardSuits.IsBlack | src/playing_cards/playing_card_suit.rs:23-29 | `is_black` is `!is_red`, which holds of exactly clubs and spades |
| PlayingCardSuits.AsChar | src/playing_cards/playing_card_suit.rs:31-38 | `as_char` is a symbol other than a space |
| PlayingCardSuits.AsCharInjective | src/playing_cards/playing_card_suit.rs:31-38 | different suits have different symbols |
| PlayingCardSuits.ToString | src/playing_cards/playing_card_suit.rs:41-45 | `Display` is the symbol alone |
| PlayingCards.New | src/playing_cards/playing_card.rs:27-63 | `new(v, s).value() == v` and `new(v, s).suit() == s` |
| PlayingCards.EqualIffFieldsEqual | src/playing_cards/playing_card.rs:8-12 | two cards are equal exactly when value and suit are |
| PlayingCards.LessIsTotalOrder | src/playing_cards/playing_card.rs:8-12 | the derived order, value first and then suit, is a strict total order |
| PlayingCards.ToString | src/playing_cards/playing_card.rs:66-70 | `Display` is the value's text, a space, then the suit's symbol |
| PlayingCards.ToStringInjective | src/playing_cards/playing_card.rs:66-70 | different cards display differently |
| PlayingCards.KingOfHearts | src/playing_cards/playing_card.rs:76-80 | the king of hearts displays as "K ♥" |
| PlayingCardDecks.Position | src/playing_cards/playing_card_deck.rs:102-103 | `position` is the first index holding the item, or the length when there is none |
| PlayingCardDecks.PositionFinds | src/playing_cards/playing_card_deck.rs:102-103 | `position` finds an index exactly when the item occurs |
| PlayingCardDecks.ArrFromTo | src/playing_cards/playing_card_deck.rs:98-105 | `arr_from_to` requires both items present and the start at most one past the end (it panics otherwise), and is the slice from the first index of `from` to that of `to`, inclusive |
| PlayingCardDecks.SliceMembers | src/playing_cards/playing_card_deck.rs:98-105 | over a list that holds each item at its own index, the slice holds exactly the items whose index lies between those of `from` and `to` |
| PlayingCardDecks.ValuesBetween | src/playing_cards/playing_card_deck.rs:51-54 | `arr_from_to(ALL_VALUES, from, to)` holds exactly the values of `from..=to` |
| PlayingCardDecks.SuitsBetween | src/playing_cards/playing_card_deck.rs:57-60 | `arr_from_to(ALL_SUITS, from, to)` holds exactly the suits from `from` to `to` |
| PlayingCardDecks.DeckCards | src/playing_cards/playing_card_deck.rs:81-89 | the deck `to_deck` aims at holds exactly the cards of the value–suit grid, each with the count |
| PlayingCardDecks.PlayingCardDeck.constructor | src/playing_cards/playing_card_deck.rs:28-36 | `new()` (and `Default`) has no values, no suits and count 1 |
| PlayingCardDecks.PlayingCardDeck.Values | src/playing_cards/playing_card_deck.rs:38-42 | `values(slice)` adds the slice's values; the suits and count are unchanged |
| PlayingCardDecks.PlayingCardDeck.Suits | src/playing_cards/playing_card_deck.rs:44-48 | `suits(slice)` adds the slice's suits; the values and count are unchanged |
| PlayingCardDecks.PlayingCardDeck.ValueRange | src/playing_cards/playing_card_deck.rs:50-54 | `value_range(from, to)` adds exactly the values of `from..=to` |
| PlayingCardDecks.PlayingCardDeck.SuitsRange | src/playing_cards/playing_card_deck.rs:56-60 | `suits_range(from, to)` adds exactly the suits from `from` to `to` |
| PlayingCardDecks.PlayingCardDeck.AllValues | src/playing_cards/playing_card_deck.rs:62-66 | `all_values()` makes the value set every value |
| PlayingCardDecks.PlayingCardDeck.AllSuits | src/playing_cards/playing_card_deck.rs:68-72 | `all_suits()` makes the suit set every suit |
| PlayingCardDecks.PlayingCardDeck.Count | src/playing_cards/playing_card_deck.rs:74-78 | `count(n)` overwrites the count and keeps the sets |
| PlayingCardDecks.PlayingCardDeck.ToDeck | src/playing_cards/playing_card_deck.rs:80-89 | `to_deck()` gives every value–suit pair of the sets the count and holds no other card; its size is \|values\| × \|suits\| × count |
| PlayingCardDecks.AddRow | src/playing_cards/playing_card_deck.rs:84-86 | the inner loop adds the row of one value: each suit's card with the count |
| PlayingCardDecks.SkatValues | src/playing_cards/playing_card_value.rs:72-88 | the values Seven..=Ace are eight |
| PlayingCardDecks.SkatSuits | src/playing_cards/playing_card_deck.rs:57-60 | the suits Diamonds to Spades are four |
| PlayingCardDecks.SkatDeckSize | src/playing_cards/playing_card_deck.rs:9-21 | the documented skat deck, Seven to Ace in all four suits twice, has size 64 |

## Left out

- `u64` and `u32` widths: counts, sizes, ratio parts, `draws` and the Graphviz ids are
  unbounded naturals. The overflow of `Ratio<u64>` arithmetic and of `size()` is not
  modelled. `Util.FactorialU64Range` shows where `factorial` leaves the `u64` range.
- `HashMap` and `HashSet` iteration order: the loops over a deck's entries and over the
  builder's sets take the elements in an arbitrary order. The results are proved to be
  the same for every order.
- Tree cards are natural numbers rather than any `Ord + Display` type, and a card's
  `Display` is its decimal text. `CardDrawTreeTextLaws.NodeNameInjective` relies on
  that text being all digits.
- The text of a probability is "n" or "n/d", following `num_rational`'s `Display`.
  `Ratio`'s own arithmetic and parsing are not part of this model.
- `str::lines` is modelled for text without carriage returns.
- `CardDeck::draw` is not defined in the source files. The model's version (one copy
  fewer, the entry dropped at zero) is an assumption.
- `CardDecks.CardDeck.Probability`, `CardDecks.CardDeck.Probabilities`: require that the
  size is positive whenever a card is stored. The source divides by zero there and
  panics.
- `PlayingCardDecks.PlayingCardDeck.ValueRange`, `PlayingCardDecks.PlayingCardDeck.SuitsRange`:
  require `from` to come at most one place after `to`. The source's slice panics
  otherwise. When `from` comes exactly one place after `to`, nothing is added.
- `ALL_VALUES` and `ALL_SUITS` are not among the source files. They are defined as the
  variants in declaration order.
- serde, `Hash` and `Debug` derives, the `Send`/`Sync` checks under tests/, the
  examples/ front ends and scripts/new_version.py are not part of this model. They are
  I/O or compile-time glue.
- The `tree_to_string` test (src/cards/card_draw_tree.rs:481-503) is not worked out as a
  literal comparison of its fifteen lines. Its tree has no leaf with a sibling, so the
  rendering as written and the corrected one agree on it; the general contracts
  (`CardDrawTreeDisplay.Entries`, `CardDrawTreeDisplay.CorrectedDisplayLines`) say what
  each line holds.
- `PlayingCardDecks.SkatDeckSize`: the documented example passes ranges to `values` and
  `suits`, which take slices. The model builds the same deck with `value_range` and
  `suits_range`.

## Findings

| source | as written | input that shows it | evidently intended | confidence | as-written member | corrected member |
|---|---|---|---|---|---|---|
| src/cards/card_draw_tree.rs:46-56 | every entry is formatted as "* card (p)\n" followed by the child's indented lines. For a leaf child those lines are empty, so the entry ends in "\n", and the join then adds another "\n" | a root with two leaf children 1 and 2, each of probability 1/2, renders as "* 1 (1/2)\n\n* 2 (1/2)\n": a blank line between them and a trailing line feed. `create_from` of a two-card deck gives such a tree | one line per node, tab-indented by depth, joined by single line feeds, as in the `tree_to_string` test (lines 482-503), whose leaves have no siblings | medium; not executed | CardDrawTreeDisplay.LeafSiblingsLeaveBlankLine | CardDrawTreeDisplay.CorrectedDisplayLines |
