/**
 * `CardDrawTree<C>` (src/cards/card_draw_tree.rs): the tree of all outcomes of drawing
 * cards from a deck.  Every node holds the probability of the edge leading to it
 * (`probability`) and the probability of reaching it from the root
 * (`probabilityInTree`); its children are keyed by the card drawn.  Cards are natural
 * numbers here, so the ascending order of the source's `BTreeMap` is the order of `nat`.
 */
module CardDrawTrees {
  import opened Rationals
  import opened Probabilities
  import Prob = Probabilities
  import opened MapSums
  import opened CardDecks

  datatype CardDrawTree = Node(
    probability: Probability,
    probabilityInTree: Probability,
    nodes: map<nat, CardDrawTree>)

  // ---------------------------------------------------------------------------
  // Choosing elements and ascending key order

  /** Some element of a non-empty set, for the loops over a `HashMap`'s unordered entries. */
  method Choose<T>(s: set<T>) returns (x: T)
    requires s != {}
    ensures x in s
  {
    x :| x in s;
  }

  /** The least element of a non-empty set, found by taking elements out one at a time. */
  lemma {:induction false} LeastElement(s: set<nat>) returns (m: nat)
    requires s != {}
    ensures m in s && forall x :: x in s ==> m <= x
    decreases |s|
  {
    var y :| y in s;
    if s == {y} {
      m := y;
    } else {
      var rest := s - {y};
      var r := LeastElement(rest);
      m := if y < r then y else r;
      forall x | x in s ensures m <= x {
        if x != y { assert x in rest; }
      }
    }
  }

  lemma HasMinimum(s: set<nat>)
    requires s != {}
    ensures exists m :: m in s && forall x :: x in s ==> m <= x
  {
    var m := LeastElement(s);
  }

  /** The least element of a non-empty set. */
  function Minimum(s: set<nat>): (m: nat)
    requires s != {}
    ensures m in s && forall x :: x in s ==> m <= x
  {
    HasMinimum(s);
    var m :| m in s && forall x :: x in s ==> m <= x; m
  }

  /** The elements of s in ascending order: how a `BTreeMap` iterates its keys. */
  function SortedKeys(s: set<nat>): seq<nat>
    decreases |s|
  {
    if s == {} then [] else [Minimum(s)] + SortedKeys(s - {Minimum(s)})
  }

  /** SortedKeys lists every element of s once, in strictly ascending order. */
  lemma {:induction false} SortedKeysSpec(s: set<nat>)
    ensures |SortedKeys(s)| == |s|
    ensures forall x :: x in SortedKeys(s) <==> x in s
    ensures forall i, j :: 0 <= i < j < |SortedKeys(s)| ==> SortedKeys(s)[i] < SortedKeys(s)[j]
    decreases |s|
  {
    if s != {} {
      var m := Minimum(s);
      var rest := s - {m};
      SortedKeysSpec(rest);
      var r := SortedKeys(s);
      assert r == [m] + SortedKeys(rest);
      forall i, j | 0 <= i < j < |r| ensures r[i] < r[j] {
        if i == 0 {
          assert r[j] in rest;
        } else {
          assert r[i] == SortedKeys(rest)[i - 1] && r[j] == SortedKeys(rest)[j - 1];
        }
      }
    }
  }

  /** Every key of the ascending order of a node's children is a child. */
  lemma KeysInNodes(t: CardDrawTree)
    ensures forall j :: 0 <= j < |SortedKeys(t.nodes.Keys)| ==> SortedKeys(t.nodes.Keys)[j] in t.nodes
  {
    SortedKeysSpec(t.nodes.Keys);
  }

  // ---------------------------------------------------------------------------
  // Constructors and queries

  /** `CardDrawTree::new`: a single node, reached with certainty. */
  function New(): (t: CardDrawTree)
    ensures IsEmpty(t)
    ensures t.probability == ONE && t.probabilityInTree == ONE
  {
    Node(ONE, ONE, map[])
  }

  /** `new_node`: a childless node whose probability in the tree is parent × own. */
  function NewNode(probability: Probability, parentProbability: Probability): (t: CardDrawTree)
    ensures IsEmpty(t)
    ensures t.probability == probability
    ensures Value(t.probabilityInTree) == Value(parentProbability) * Value(probability)
  {
    MulValue(parentProbability, probability);
    Node(probability, Mul(parentProbability, probability), map[])
  }

  /** `is_empty`: the node has no children. */
  function IsEmpty(t: CardDrawTree): (e: bool)
    ensures e <==> SortedKeys(t.nodes.Keys) == []
  {
    SortedKeysSpec(t.nodes.Keys);
    t.nodes == map[]
  }

  /**
   * `probability_of(sequence)`: one for the empty sequence; otherwise the first card's
   * edge probability times the probability of the rest below that child, and zero as
   * soon as a card is not a child.
   */
  function ProbabilityOf(t: CardDrawTree, sequence: seq<nat>): (r: Probability)
    ensures sequence == [] ==> r == ONE
    ensures IsEmpty(t) && sequence != [] ==> r == ZERO
    decreases |sequence|
  {
    if sequence == [] then ONE
    else if sequence[0] in t.nodes then
      Mul(t.nodes[sequence[0]].probability, ProbabilityOf(t.nodes[sequence[0]], sequence[1..]))
    else ZERO
  }

  /** The sequence names a node: each card is a child of the node reached so far. */
  predicate IsPath(t: CardDrawTree, s: seq<nat>)
    decreases |s|
  {
    s == [] || (s[0] in t.nodes && IsPath(t.nodes[s[0]], s[1..]))
  }

  /** The node a path leads to. */
  function Subtree(t: CardDrawTree, s: seq<nat>): CardDrawTree
    requires IsPath(t, s)
    decreases |s|
  {
    if s == [] then t else Subtree(t.nodes[s[0]], s[1..])
  }

  // ---------------------------------------------------------------------------
  // The builders, as functions of the deck's count map

  /** The tree `without_shrinking_root_probability` builds: the deck is the same at every level. */
  ghost function WithoutShrinkingTree(
    cards: map<nat, nat>, draws: nat, probability: Probability, parentProbability: Probability): CardDrawTree
    requires draws > 0 ==> ProbabilitiesDefined(cards)
    decreases draws, 1
  {
    var node := NewNode(probability, parentProbability);
    if draws == 0 then node
    else
      node.(nodes := WithoutShrinkingChildren(cards, draws, node.probabilityInTree))
  }

  /** The children of a without-shrinking node: one subtree per card, from the same deck. */
  ghost function WithoutShrinkingChildren(
    cards: map<nat, nat>, draws: nat, parentProbability: Probability): (children: map<nat, CardDrawTree>)
    requires draws > 0 && ProbabilitiesDefined(cards)
    decreases draws, 0
  {
    var ps := ProbabilitiesOf(cards);
    map c | c in ps :: WithoutShrinkingTree(cards, draws - 1, ps[c], parentProbability)
  }

  /** Every deck met while building a shrinking tree of the given depth can give its probabilities. */
  ghost predicate ShrinkingDefined(cards: map<nat, nat>, draws: nat)
    decreases draws
  {
    draws == 0 ||
    (ProbabilitiesDefined(cards) &&
     forall c {:trigger Drawn(cards, c)} :: c in cards ==> ShrinkingDefined(Drawn(cards, c), draws - 1))
  }

  /** The tree `shrinking_root_probability` builds: below card c the deck has one c fewer. */
  ghost function ShrinkingTree(
    cards: map<nat, nat>, draws: nat, probability: Probability, parentProbability: Probability): CardDrawTree
    requires ShrinkingDefined(cards, draws)
    decreases draws, 1
  {
    var node := NewNode(probability, parentProbability);
    if draws == 0 then node
    else
      node.(nodes := ShrinkingChildren(cards, draws, node.probabilityInTree))
  }

  /** The children of a shrinking node: one subtree per card, built from the deck without it. */
  ghost function ShrinkingChildren(
    cards: map<nat, nat>, draws: nat, parentProbability: Probability): (children: map<nat, CardDrawTree>)
    requires draws > 0 && ShrinkingDefined(cards, draws)
    decreases draws, 0
  {
    var ps := ProbabilitiesOf(cards);
    map c | c in ps :: ShrinkingTree(Drawn(cards, c), draws - 1, ps[c], parentProbability)
  }

  /** The keys of `nodes` are the cards of the deck that are in `done`. */
  ghost predicate KeysSoFar<V>(nodes: map<nat, V>, done: set<nat>, cards: map<nat, nat>)
  {
    forall c :: c in nodes <==> c in done && c in cards
  }

  /** Storing one more card taken from those still to do. */
  lemma KeysStep<V>(nodes: map<nat, V>, cards: map<nat, nat>, keys: set<nat>, todo: set<nat>, card: nat, v: V)
    requires keys == cards.Keys && todo <= keys && card in todo
    requires KeysSoFar(nodes, keys - todo, cards)
    ensures KeysSoFar(nodes[card := v], keys - (todo - {card}), cards)
  {
  }

  /** Taking an element out of a set makes it smaller. */
  lemma Shrinks<T>(s: set<T>, x: T)
    requires x in s
    ensures |s - {x}| < |s|
  {
  }

  /** Maps with the same keys and the same value at every key are equal. */
  lemma MapsEqual<K, V>(a: map<K, V>, b: map<K, V>)
    requires a.Keys == b.Keys
    requires forall k :: k in a ==> a[k] == b[k]
    ensures a == b
  {
  }

  /** A node's children are keyed by the cards of the deck. */
  lemma ChildrenKeys(cards: map<nat, nat>, draws: nat, parentProbability: Probability)
    requires draws > 0 && ProbabilitiesDefined(cards)
    ensures WithoutShrinkingChildren(cards, draws, parentProbability).Keys == cards.Keys
    ensures ShrinkingDefined(cards, draws) ==>
      ShrinkingChildren(cards, draws, parentProbability).Keys == cards.Keys
  {
  }

  /** Card c has a child exactly when it is a card of the deck. */
  lemma ChildIn(cards: map<nat, nat>, draws: nat, parentProbability: Probability, c: nat)
    requires draws > 0 && ProbabilitiesDefined(cards)
    ensures c in WithoutShrinkingChildren(cards, draws, parentProbability) <==> c in cards
    ensures ShrinkingDefined(cards, draws) ==>
      (c in ShrinkingChildren(cards, draws, parentProbability) <==> c in cards)
  {
  }

  /** One level of the without-shrinking tree: its node, then the subtrees below it. */
  lemma WithoutShrinkingUnfold(
    cards: map<nat, nat>, draws: nat, probability: Probability, parentProbability: Probability)
    requires draws > 0 && ProbabilitiesDefined(cards)
    ensures WithoutShrinkingTree(cards, draws, probability, parentProbability)
         == Node(probability, Mul(parentProbability, probability),
                 WithoutShrinkingChildren(cards, draws, Mul(parentProbability, probability)))
  {
  }

  /** The child under card c of a without-shrinking node. */
  lemma WithoutShrinkingChildAt(cards: map<nat, nat>, draws: nat, parentProbability: Probability, c: nat)
    requires draws > 0 && ProbabilitiesDefined(cards) && c in cards
    ensures WithoutShrinkingChildren(cards, draws, parentProbability)[c]
         == WithoutShrinkingTree(cards, draws - 1, ProbabilitiesOf(cards)[c], parentProbability)
  {
  }

  /** One level of the shrinking tree: its node, then the subtrees below it. */
  lemma ShrinkingUnfold(
    cards: map<nat, nat>, draws: nat, probability: Probability, parentProbability: Probability)
    requires draws > 0 && ShrinkingDefined(cards, draws)
    ensures ShrinkingTree(cards, draws, probability, parentProbability)
         == Node(probability, Mul(parentProbability, probability),
                 ShrinkingChildren(cards, draws, Mul(parentProbability, probability)))
  {
  }

  /** The child under card c of a shrinking node. */
  lemma ShrinkingChildAt(cards: map<nat, nat>, draws: nat, parentProbability: Probability, c: nat)
    requires draws > 0 && ShrinkingDefined(cards, draws) && c in cards
    ensures ShrinkingChildren(cards, draws, parentProbability)[c]
         == ShrinkingTree(Drawn(cards, c), draws - 1, ProbabilitiesOf(cards)[c], parentProbability)
  {
  }

  /** Decks whose counts are all positive never make the shrinking builder panic. */
  lemma {:induction false} PositiveShrinkingDefined(cards: map<nat, nat>, draws: nat)
    requires AllPositive(cards)
    ensures ShrinkingDefined(cards, draws)
    decreases draws, 1
  {
    if draws > 0 {
      EmptyIffSizeZero(cards);
      forall c | c in cards ensures ShrinkingDefined(Drawn(cards, c), draws - 1) {
        PositiveDrawnShrinkingDefined(cards, draws - 1, c);
      }
      ShrinkingDefinedIntro(cards, draws);
    }
  }

  lemma ShrinkingDefinedIntro(cards: map<nat, nat>, draws: nat)
    requires draws > 0 && ProbabilitiesDefined(cards)
    requires forall c {:trigger Drawn(cards, c)} :: c in cards ==> ShrinkingDefined(Drawn(cards, c), draws - 1)
    ensures ShrinkingDefined(cards, draws)
  {
  }

  /** One card drawn from an all-positive deck: the deck left over can be built from. */
  lemma {:induction false} PositiveDrawnShrinkingDefined(cards: map<nat, nat>, draws: nat, c: nat)
    requires AllPositive(cards)
    ensures ShrinkingDefined(Drawn(cards, c), draws)
    decreases draws + 1, 0
  {
    var d := Drawn(cards, c);
    assert AllPositive(d) by { DrawnPositive(cards, c); }
    PositiveShrinkingDefined(d, draws);
  }

  // ---------------------------------------------------------------------------
  // The builders as the source runs them

  /** `create_from`: a root with one leaf per card of `probabilities()`. */
  method CreateFrom(deck: CardDeck<nat>) returns (tree: CardDrawTree)
    requires ProbabilitiesDefined(deck.cards)
    ensures tree == WithoutShrinkingTree(deck.cards, 1, ONE, ONE)
  {
    tree := NewNode(ONE, ONE);
    MulUnits(ONE);
    var ps := deck.Probabilities();
    ghost var cards := deck.cards;
    var nodes: map<nat, CardDrawTree> := map[];
    var todo := ps.Keys;
    while todo != {}
      invariant ps == ProbabilitiesOf(cards)
      invariant todo <= ps.Keys
      invariant WithoutShrinkingChildrenSoFar(cards, 1, ONE, ps.Keys - todo, nodes)
      decreases |todo|
    {
      var card := Choose(todo);
      var child := NewNode(ps[card], ONE);
      assert child == WithoutShrinkingTree(cards, 0, ps[card], ONE);
      WithoutShrinkingChildrenStep(cards, 1, ONE, ps.Keys, todo, nodes, card, child);
      nodes := nodes[card := child];
      Shrinks(todo, card);
      todo := todo - {card};
    }
    WithoutShrinkingAssemble(cards, 1, ONE, ONE, nodes);
    tree := tree.(nodes := nodes);
  }

  /** `without_shrinking(deck, draws)`. */
  method WithoutShrinking(deck: CardDeck<nat>, draws: nat) returns (tree: CardDrawTree)
    requires draws > 0 ==> ProbabilitiesDefined(deck.cards)
    ensures tree == WithoutShrinkingTree(deck.cards, draws, ONE, ONE)
  {
    tree := WithoutShrinkingRootProbability(deck, draws, ONE, ONE);
  }

  /** `shrinking(deck, draws)`. */
  method Shrinking(deck: CardDeck<nat>, draws: nat) returns (tree: CardDrawTree)
    requires ShrinkingDefined(deck.cards, draws)
    ensures tree == ShrinkingTree(deck.cards, draws, ONE, ONE)
  {
    tree := ShrinkingRootProbability(deck, draws, ONE, ONE);
  }

  /**
   * `without_shrinking_root_probability`: a node, then, when draws remain, one subtree per
   * entry of `probabilities()`, each built from the same deck one level further down.  The
   * children are collected in `nodes` and stored in the node after the loop.
   */
  method WithoutShrinkingRootProbability(
    deck: CardDeck<nat>, draws: nat, probability: Probability, parentProbability: Probability)
    returns (tree: CardDrawTree)
    requires draws > 0 ==> ProbabilitiesDefined(deck.cards)
    ensures tree == WithoutShrinkingTree(deck.cards, draws, probability, parentProbability)
    decreases draws
  {
    tree := NewNode(probability, parentProbability);
    if 0 < draws {
      var ps := deck.Probabilities();
      var pit := tree.probabilityInTree;
      ghost var cards := deck.cards;
      var nodes: map<nat, CardDrawTree> := map[];
      var todo := ps.Keys;
      while todo != {}
        invariant deck.cards == cards && ps == ProbabilitiesOf(cards)
        invariant todo <= ps.Keys
        invariant WithoutShrinkingChildrenSoFar(cards, draws, pit, ps.Keys - todo, nodes)
        decreases |todo|
      {
        var card := Choose(todo);
        var child := WithoutShrinkingRootProbability(deck, draws - 1, ps[card], pit);
        WithoutShrinkingChildrenStep(cards, draws, pit, ps.Keys, todo, nodes, card, child);
        nodes := nodes[card := child];
        Shrinks(todo, card);
        todo := todo - {card};
      }
      WithoutShrinkingAssemble(cards, draws, probability, parentProbability, nodes);
      tree := tree.(nodes := nodes);
    }
  }

  /** The children built so far: one per card in `done`, each the subtree from the same deck. */
  ghost predicate WithoutShrinkingChildrenSoFar(
    cards: map<nat, nat>, draws: nat, pit: Probability, done: set<nat>, nodes: map<nat, CardDrawTree>)
    requires draws > 0 && ProbabilitiesDefined(cards)
  {
    KeysSoFar(nodes, done, cards) && WithoutShrinkingChildrenMatch(cards, draws, pit, nodes)
  }

  /** Every child stored under a card of the deck is the subtree from the same deck. */
  ghost predicate WithoutShrinkingChildrenMatch(
    cards: map<nat, nat>, draws: nat, pit: Probability, nodes: map<nat, CardDrawTree>)
    requires draws > 0 && ProbabilitiesDefined(cards)
  {
    forall c {:trigger nodes[c]} :: c in nodes && c in cards ==> nodes[c] == WithoutShrinkingTree(cards, draws - 1, ProbabilitiesOf(cards)[c], pit)
  }

  /** Adding the child under one more card keeps the children built so far as specified. */
  lemma WithoutShrinkingChildrenStep(
    cards: map<nat, nat>, draws: nat, pit: Probability, keys: set<nat>, todo: set<nat>,
    nodes: map<nat, CardDrawTree>, card: nat, child: CardDrawTree)
    requires draws > 0 && ProbabilitiesDefined(cards)
    requires keys == cards.Keys && todo <= keys && card in todo
    requires WithoutShrinkingChildrenSoFar(cards, draws, pit, keys - todo, nodes)
    requires child == WithoutShrinkingTree(cards, draws - 1, ProbabilitiesOf(cards)[card], pit)
    ensures WithoutShrinkingChildrenSoFar(cards, draws, pit, keys - (todo - {card}), nodes[card := child])
  {
    KeysStep(nodes, cards, keys, todo, card, child);
    WithoutShrinkingMatchStep(cards, draws, pit, nodes, card, child);
  }

  lemma WithoutShrinkingMatchStep(
    cards: map<nat, nat>, draws: nat, pit: Probability, nodes: map<nat, CardDrawTree>, card: nat, child: CardDrawTree)
    requires draws > 0 && ProbabilitiesDefined(cards) && card in cards
    requires WithoutShrinkingChildrenMatch(cards, draws, pit, nodes)
    requires child == WithoutShrinkingTree(cards, draws - 1, ProbabilitiesOf(cards)[card], pit)
    ensures WithoutShrinkingChildrenMatch(cards, draws, pit, nodes[card := child])
  {
  }

  /** Once every card has its child, the node holding them is the without-shrinking tree. */
  lemma WithoutShrinkingAssemble(
    cards: map<nat, nat>, draws: nat, probability: Probability, parentProbability: Probability,
    nodes: map<nat, CardDrawTree>)
    requires draws > 0 && ProbabilitiesDefined(cards)
    requires WithoutShrinkingChildrenSoFar(cards, draws, Mul(parentProbability, probability), cards.Keys - {}, nodes)
    ensures Node(probability, Mul(parentProbability, probability), nodes)
         == WithoutShrinkingTree(cards, draws, probability, parentProbability)
  {
    var children := WithoutShrinkingChildren(cards, draws, Mul(parentProbability, probability));
    forall c | c in nodes ensures nodes[c] == children[c] {
      WithoutShrinkingChildAt(cards, draws, Mul(parentProbability, probability), c);
    }
    MapsEqual(nodes, children);
    WithoutShrinkingUnfold(cards, draws, probability, parentProbability);
  }

  /**
   * `shrinking_root_probability`: as above, except that the subtree below a card is built
   * from `deck.draw(card)`, the deck with one copy of that card fewer.
   */
  method ShrinkingRootProbability(
    deck: CardDeck<nat>, draws: nat, probability: Probability, parentProbability: Probability)
    returns (tree: CardDrawTree)
    requires ShrinkingDefined(deck.cards, draws)
    ensures tree == ShrinkingTree(deck.cards, draws, probability, parentProbability)
    decreases draws
  {
    tree := NewNode(probability, parentProbability);
    if 0 < draws {
      var ps := deck.Probabilities();
      var pit := tree.probabilityInTree;
      ghost var cards := deck.cards;
      var nodes: map<nat, CardDrawTree> := map[];
      var todo := ps.Keys;
      while todo != {}
        invariant deck.cards == cards && ps == ProbabilitiesOf(cards)
        invariant todo <= ps.Keys
        invariant ShrinkingChildrenSoFar(cards, draws, pit, ps.Keys - todo, nodes)
        decreases |todo|
      {
        var card := Choose(todo);
        var newStack := deck.Draw(card);
        var child := ShrinkingRootProbability(newStack, draws - 1, ps[card], pit);
        ShrinkingChildrenStep(cards, draws, pit, ps.Keys, todo, nodes, card, child);
        nodes := nodes[card := child];
        Shrinks(todo, card);
        todo := todo - {card};
      }
      ShrinkingAssemble(cards, draws, probability, parentProbability, nodes);
      tree := tree.(nodes := nodes);
    }
  }

  /** The children built so far: one per card in `done`, each the shrinking subtree. */
  ghost predicate ShrinkingChildrenSoFar(
    cards: map<nat, nat>, draws: nat, pit: Probability, done: set<nat>, nodes: map<nat, CardDrawTree>)
    requires draws > 0 && ShrinkingDefined(cards, draws)
  {
    KeysSoFar(nodes, done, cards) && ShrinkingChildrenMatch(cards, draws, pit, nodes)
  }

  /** Every child stored under a card of the deck is the shrinking subtree. */
  ghost predicate ShrinkingChildrenMatch(
    cards: map<nat, nat>, draws: nat, pit: Probability, nodes: map<nat, CardDrawTree>)
    requires draws > 0 && ShrinkingDefined(cards, draws)
  {
    forall c {:trigger nodes[c]} :: c in nodes && c in cards ==> nodes[c] == ShrinkingTree(Drawn(cards, c), draws - 1, ProbabilitiesOf(cards)[c], pit)
  }

  /** Adding the child under one more card keeps the children built so far as specified. */
  lemma ShrinkingChildrenStep(
    cards: map<nat, nat>, draws: nat, pit: Probability, keys: set<nat>, todo: set<nat>,
    nodes: map<nat, CardDrawTree>, card: nat, child: CardDrawTree)
    requires draws > 0 && ShrinkingDefined(cards, draws)
    requires keys == cards.Keys && todo <= keys && card in todo
    requires ShrinkingChildrenSoFar(cards, draws, pit, keys - todo, nodes)
    requires child == ShrinkingTree(Drawn(cards, card), draws - 1, ProbabilitiesOf(cards)[card], pit)
    ensures ShrinkingChildrenSoFar(cards, draws, pit, keys - (todo - {card}), nodes[card := child])
  {
    KeysStep(nodes, cards, keys, todo, card, child);
    ShrinkingMatchStep(cards, draws, pit, nodes, card, child);
  }

  lemma ShrinkingMatchStep(
    cards: map<nat, nat>, draws: nat, pit: Probability, nodes: map<nat, CardDrawTree>, card: nat, child: CardDrawTree)
    requires draws > 0 && ShrinkingDefined(cards, draws) && card in cards
    requires ShrinkingChildrenMatch(cards, draws, pit, nodes)
    requires child == ShrinkingTree(Drawn(cards, card), draws - 1, ProbabilitiesOf(cards)[card], pit)
    ensures ShrinkingChildrenMatch(cards, draws, pit, nodes[card := child])
  {
  }

  /** Once every card has its child, the node holding them is the shrinking tree. */
  lemma ShrinkingAssemble(
    cards: map<nat, nat>, draws: nat, probability: Probability, parentProbability: Probability,
    nodes: map<nat, CardDrawTree>)
    requires draws > 0 && ShrinkingDefined(cards, draws)
    requires ShrinkingChildrenSoFar(cards, draws, Mul(parentProbability, probability), cards.Keys - {}, nodes)
    ensures Node(probability, Mul(parentProbability, probability), nodes)
         == ShrinkingTree(cards, draws, probability, parentProbability)
  {
    var children := ShrinkingChildren(cards, draws, Mul(parentProbability, probability));
    forall c | c in nodes ensures nodes[c] == children[c] {
      ShrinkingChildAt(cards, draws, Mul(parentProbability, probability), c);
    }
    MapsEqual(nodes, children);
    ShrinkingUnfold(cards, draws, probability, parentProbability);
  }
}
