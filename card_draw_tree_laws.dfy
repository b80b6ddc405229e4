/**
 * Laws of the draw trees of src/cards/card_draw_tree.rs: how `probability_of` walks a
 * tree, and the shape and path probabilities of the trees the two builders produce.
 */
module CardDrawTreeLaws {
  import opened Rationals
  import opened Probabilities
  import opened MapSums
  import opened CardDecks
  import opened CardDrawTrees

  // ---------------------------------------------------------------------------
  // `probability_of` on any tree

  /** Every child is reached with its parent's probability in the tree times its own. */
  ghost predicate Consistent(t: CardDrawTree)
  {
    forall c :: c in t.nodes ==>
      && t.nodes[c].probabilityInTree == Mul(t.probabilityInTree, t.nodes[c].probability)
      && Consistent(t.nodes[c])
  }

  /** One step of `probability_of`: the first card's edge, then the rest below it. */
  lemma ProbabilityOfStep(t: CardDrawTree, s: seq<nat>)
    requires s != [] && s[0] in t.nodes
    ensures ProbabilityOf(t, s) == Mul(t.nodes[s[0]].probability, ProbabilityOf(t.nodes[s[0]], s[1..]))
  {
  }

  /** `probability_of` is zero as soon as a card of the sequence is not a child. */
  lemma {:induction false} OffPathZero(t: CardDrawTree, s: seq<nat>)
    requires !IsPath(t, s)
    ensures ProbabilityOf(t, s) == ZERO
    decreases |s|
  {
    if s[0] in t.nodes {
      OffPathZero(t.nodes[s[0]], s[1..]);
      MulUnits(t.nodes[s[0]].probability);
    }
  }

  /**
   * Along a path, `probability_of` is the product of the edge probabilities, which in a
   * consistent tree takes the root's probability in the tree to the node's.
   */
  lemma {:induction false} PathProbability(t: CardDrawTree, s: seq<nat>)
    requires Consistent(t) && IsPath(t, s)
    ensures Subtree(t, s).probabilityInTree == Mul(t.probabilityInTree, ProbabilityOf(t, s))
    decreases |s|
  {
    if s == [] {
      MulUnits(t.probabilityInTree);
    } else {
      var u := t.nodes[s[0]];
      var rest := ProbabilityOf(u, s[1..]);
      PathProbability(u, s[1..]);
      MulAssociative(t.probabilityInTree, u.probability, rest);
    }
  }

  /** Below a root reached with certainty, `probability_of` a path is its node's probability in the tree. */
  lemma RootedPathProbability(t: CardDrawTree, s: seq<nat>)
    requires Consistent(t) && t.probabilityInTree == ONE && IsPath(t, s)
    ensures ProbabilityOf(t, s) == Subtree(t, s).probabilityInTree
  {
    PathProbability(t, s);
    MulUnits(ProbabilityOf(t, s));
  }

  /** Drawing one more card never makes a sequence more likely. */
  lemma {:induction false} ExtendNoMoreLikely(t: CardDrawTree, s: seq<nat>, c: nat)
    ensures Value(ProbabilityOf(t, s + [c])) <= Value(ProbabilityOf(t, s))
    decreases |s|
  {
    if s == [] {
      assert s + [c] == [c] && [c][1..] == [];
      if c in t.nodes {
        MulUnits(t.nodes[c].probability);
        Bounds(t.nodes[c].probability);
      }
    } else {
      assert (s + [c])[0] == s[0] && (s + [c])[1..] == s[1..] + [c];
      if s[0] in t.nodes {
        var u := t.nodes[s[0]];
        ExtendNoMoreLikely(u, s[1..], c);
        MulNoLarger(u.probability, ProbabilityOf(u, s[1..] + [c]), ProbabilityOf(u, s[1..]));
      }
    }
  }

  // ---------------------------------------------------------------------------
  // The without-shrinking builder

  /** The root of a without-shrinking tree is the node `new_node(probability, parent)`. */
  lemma WithoutShrinkingRoot(cards: map<nat, nat>, draws: nat, probability: Probability, parentProbability: Probability)
    requires draws > 0 ==> ProbabilitiesDefined(cards)
    ensures WithoutShrinkingTree(cards, draws, probability, parentProbability).probability == probability
    ensures WithoutShrinkingTree(cards, draws, probability, parentProbability).probabilityInTree
         == Mul(parentProbability, probability)
  {
  }

  /** Every without-shrinking tree is consistent. */
  lemma {:induction false} WithoutShrinkingConsistent(
    cards: map<nat, nat>, draws: nat, probability: Probability, parentProbability: Probability)
    requires draws > 0 ==> ProbabilitiesDefined(cards)
    ensures Consistent(WithoutShrinkingTree(cards, draws, probability, parentProbability))
    decreases draws, 1
  {
    if draws > 0 {
      var t := WithoutShrinkingTree(cards, draws, probability, parentProbability);
      var pit := Mul(parentProbability, probability);
      WithoutShrinkingUnfold(cards, draws, probability, parentProbability);
      ChildrenKeys(cards, draws, pit);
      forall c | c in t.nodes
        ensures t.nodes[c].probabilityInTree == Mul(t.probabilityInTree, t.nodes[c].probability)
        ensures Consistent(t.nodes[c])
      {
        WithoutShrinkingChildAt(cards, draws, pit, c);
        WithoutShrinkingSubtreeConsistent(cards, draws, pit, c);
      }
    }
  }

  /** The subtree below card c is consistent and hangs below `pit`. */
  lemma {:induction false} WithoutShrinkingSubtreeConsistent(cards: map<nat, nat>, draws: nat, pit: Probability, c: nat)
    requires draws > 0 && ProbabilitiesDefined(cards) && c in cards
    ensures var u := WithoutShrinkingTree(cards, draws - 1, ProbabilitiesOf(cards)[c], pit);
      u.probabilityInTree == Mul(pit, u.probability) && Consistent(u)
    decreases draws, 0
  {
    WithoutShrinkingRoot(cards, draws - 1, ProbabilitiesOf(cards)[c], pit);
    WithoutShrinkingConsistent(cards, draws - 1, ProbabilitiesOf(cards)[c], pit);
  }

  /** Every card of the sequence is a card of the deck. */
  ghost predicate AllIn(s: seq<nat>, cards: map<nat, nat>)
  {
    forall i :: 0 <= i < |s| ==> s[i] in cards
  }

  lemma AllInCons(s: seq<nat>, cards: map<nat, nat>)
    requires s != []
    ensures AllIn(s, cards) <==> s[0] in cards && AllIn(s[1..], cards)
  {
    if s[0] in cards && AllIn(s[1..], cards) {
      forall i | 0 <= i < |s| ensures s[i] in cards {
        if i > 0 { assert s[i] == s[1..][i - 1]; }
      }
    }
  }

  /**
   * The paths of a without-shrinking tree are exactly the sequences of at most `draws`
   * cards of the deck, repetitions allowed.
   */
  lemma {:induction false} WithoutShrinkingPaths(
    cards: map<nat, nat>, draws: nat, probability: Probability, parentProbability: Probability, s: seq<nat>)
    requires draws > 0 ==> ProbabilitiesDefined(cards)
    ensures IsPath(WithoutShrinkingTree(cards, draws, probability, parentProbability), s)
        <==> |s| <= draws && AllIn(s, cards)
    decreases |s|, 1
  {
    if s != [] && draws > 0 {
      var pit := Mul(parentProbability, probability);
      WithoutShrinkingUnfold(cards, draws, probability, parentProbability);
      ChildrenKeys(cards, draws, pit);
      AllInCons(s, cards);
      if s[0] in cards {
        WithoutShrinkingChildAt(cards, draws, pit, s[0]);
        WithoutShrinkingChildPaths(cards, draws, pit, s);
      }
    } else if s != [] {
      assert s[0] !in WithoutShrinkingTree(cards, draws, probability, parentProbability).nodes;
    }
  }

  lemma {:induction false} WithoutShrinkingChildPaths(cards: map<nat, nat>, draws: nat, pit: Probability, s: seq<nat>)
    requires draws > 0 && ProbabilitiesDefined(cards) && s != [] && s[0] in cards
    ensures IsPath(WithoutShrinkingTree(cards, draws - 1, ProbabilitiesOf(cards)[s[0]], pit), s[1..])
        <==> |s| - 1 <= draws - 1 && AllIn(s[1..], cards)
    decreases |s|, 0
  {
    WithoutShrinkingPaths(cards, draws - 1, ProbabilitiesOf(cards)[s[0]], pit, s[1..]);
  }

  /**
   * A node of a without-shrinking tree is a leaf exactly when it lies `draws` levels
   * down, or when the deck is empty.
   */
  lemma {:induction false} WithoutShrinkingLeaves(
    cards: map<nat, nat>, draws: nat, probability: Probability, parentProbability: Probability, s: seq<nat>)
    requires draws > 0 ==> ProbabilitiesDefined(cards)
    requires IsPath(WithoutShrinkingTree(cards, draws, probability, parentProbability), s)
    ensures IsEmpty(Subtree(WithoutShrinkingTree(cards, draws, probability, parentProbability), s))
        <==> |s| == draws || cards == map[]
    decreases |s|, 1
  {
    var pit := Mul(parentProbability, probability);
    if draws > 0 {
      WithoutShrinkingUnfold(cards, draws, probability, parentProbability);
      if s == [] {
        ChildrenKeys(cards, draws, pit);
        assert cards == map[] <==> cards.Keys == {};
      } else {
        ChildIn(cards, draws, pit, s[0]);
        WithoutShrinkingChildAt(cards, draws, pit, s[0]);
        WithoutShrinkingChildLeaves(cards, draws, pit, s);
      }
    }
  }

  lemma {:induction false} WithoutShrinkingChildLeaves(cards: map<nat, nat>, draws: nat, pit: Probability, s: seq<nat>)
    requires draws > 0 && ProbabilitiesDefined(cards) && s != [] && s[0] in cards
    requires IsPath(WithoutShrinkingTree(cards, draws - 1, ProbabilitiesOf(cards)[s[0]], pit), s[1..])
    ensures IsEmpty(Subtree(WithoutShrinkingTree(cards, draws - 1, ProbabilitiesOf(cards)[s[0]], pit), s[1..]))
        <==> |s| - 1 == draws - 1 || cards == map[]
    decreases |s|, 0
  {
    WithoutShrinkingLeaves(cards, draws - 1, ProbabilitiesOf(cards)[s[0]], pit, s[1..]);
  }

  /** Drawing with replacement: each card of s has its deck probability, and they multiply. */
  ghost function IndependentProbability(cards: map<nat, nat>, s: seq<nat>): Probability
    requires ProbabilitiesDefined(cards)
    decreases |s|
  {
    if s == [] then ONE else Mul(ProbabilityIn(cards, s[0]), IndependentProbability(cards, s[1..]))
  }

  /**
   * In a without-shrinking tree of depth `draws`, `probability_of` any sequence of at most
   * `draws` cards is the product of their probabilities in the unchanged deck; a longer
   * sequence has probability zero.
   */
  lemma {:induction false} WithoutShrinkingProbabilityOf(
    cards: map<nat, nat>, draws: nat, probability: Probability, parentProbability: Probability, s: seq<nat>)
    requires ProbabilitiesDefined(cards)
    ensures |s| <= draws ==>
      ProbabilityOf(WithoutShrinkingTree(cards, draws, probability, parentProbability), s)
        == IndependentProbability(cards, s)
    ensures |s| > draws ==>
      ProbabilityOf(WithoutShrinkingTree(cards, draws, probability, parentProbability), s) == ZERO
    decreases |s|, 1
  {
    var t := WithoutShrinkingTree(cards, draws, probability, parentProbability);
    if |s| > draws {
      WithoutShrinkingPaths(cards, draws, probability, parentProbability, s);
      OffPathZero(t, s);
    } else if s != [] {
      var pit := Mul(parentProbability, probability);
      WithoutShrinkingUnfold(cards, draws, probability, parentProbability);
      ChildrenKeys(cards, draws, pit);
      if s[0] in cards {
        WithoutShrinkingChildAt(cards, draws, pit, s[0]);
        WithoutShrinkingSubtreeProbabilityOf(cards, draws, pit, s);
      } else {
        AbsentProbability(cards, s[0]);
        MulUnits(IndependentProbability(cards, s[1..]));
      }
    }
  }

  lemma {:induction false} WithoutShrinkingSubtreeProbabilityOf(cards: map<nat, nat>, draws: nat, pit: Probability, s: seq<nat>)
    requires draws > 0 && ProbabilitiesDefined(cards) && s != [] && s[0] in cards && |s| <= draws
    ensures var u := WithoutShrinkingTree(cards, draws - 1, ProbabilitiesOf(cards)[s[0]], pit);
      Mul(u.probability, ProbabilityOf(u, s[1..])) == IndependentProbability(cards, s)
    decreases |s|, 0
  {
    var pc := ProbabilitiesOf(cards)[s[0]];
    WithoutShrinkingRoot(cards, draws - 1, pc, pit);
    WithoutShrinkingProbabilityOf(cards, draws - 1, pc, pit, s[1..]);
  }

  // ---------------------------------------------------------------------------
  // The shrinking builder

  /** The root of a shrinking tree is the node `new_node(probability, parent)`. */
  lemma ShrinkingRoot(cards: map<nat, nat>, draws: nat, probability: Probability, parentProbability: Probability)
    requires ShrinkingDefined(cards, draws)
    ensures ShrinkingTree(cards, draws, probability, parentProbability).probability == probability
    ensures ShrinkingTree(cards, draws, probability, parentProbability).probabilityInTree
         == Mul(parentProbability, probability)
  {
  }

  /** Building fewer levels never meets a deck that more levels would not. */
  lemma {:induction false} ShrinkingDefinedFewer(cards: map<nat, nat>, draws: nat, fewer: nat)
    requires ShrinkingDefined(cards, draws) && fewer <= draws
    ensures ShrinkingDefined(cards, fewer)
    decreases fewer
  {
    if fewer > 0 {
      forall c | c in cards ensures ShrinkingDefined(Drawn(cards, c), fewer - 1) {
        ShrinkingDefinedFewer(Drawn(cards, c), draws - 1, fewer - 1);
      }
    }
  }

  /** Every shrinking tree is consistent. */
  lemma {:induction false} ShrinkingConsistent(
    cards: map<nat, nat>, draws: nat, probability: Probability, parentProbability: Probability)
    requires ShrinkingDefined(cards, draws)
    ensures Consistent(ShrinkingTree(cards, draws, probability, parentProbability))
    decreases draws
  {
    if draws > 0 {
      var t := ShrinkingTree(cards, draws, probability, parentProbability);
      var pit := Mul(parentProbability, probability);
      ShrinkingUnfold(cards, draws, probability, parentProbability);
      ChildrenKeys(cards, draws, pit);
      forall c | c in t.nodes
        ensures t.nodes[c].probabilityInTree == Mul(t.probabilityInTree, t.nodes[c].probability)
        ensures Consistent(t.nodes[c])
      {
        ShrinkingChildAt(cards, draws, pit, c);
        ShrinkingDrawnConsistent(cards, draws, pit, c);
      }
    }
  }

  /** The subtree built from the deck left by drawing c is consistent and hangs below `pit`. */
  lemma {:induction false} ShrinkingDrawnConsistent(cards: map<nat, nat>, draws: nat, pit: Probability, c: nat)
    requires draws > 0 && ShrinkingDefined(cards, draws) && c in cards
    ensures var u := ShrinkingTree(Drawn(cards, c), draws - 1, ProbabilitiesOf(cards)[c], pit);
      u.probabilityInTree == Mul(pit, u.probability) && Consistent(u)
    decreases draws, 0
  {
    ShrinkingRoot(Drawn(cards, c), draws - 1, ProbabilitiesOf(cards)[c], pit);
    ShrinkingConsistent(Drawn(cards, c), draws - 1, ProbabilitiesOf(cards)[c], pit);
  }

  /** The sequence can be drawn in order: each card is in the deck the earlier draws leave. */
  ghost predicate Drawable(cards: map<nat, nat>, s: seq<nat>)
    decreases |s|
  {
    s == [] || (s[0] in cards && Drawable(Drawn(cards, s[0]), s[1..]))
  }

  /**
   * The paths of a shrinking tree are exactly the sequences of at most `draws` cards
   * that can be drawn one after the other from the shrinking deck.
   */
  lemma {:induction false} ShrinkingPaths(
    cards: map<nat, nat>, draws: nat, probability: Probability, parentProbability: Probability, s: seq<nat>)
    requires ShrinkingDefined(cards, draws)
    ensures IsPath(ShrinkingTree(cards, draws, probability, parentProbability), s)
        <==> |s| <= draws && Drawable(cards, s)
    decreases |s|
  {
    if s != [] && draws > 0 {
      var pit := Mul(parentProbability, probability);
      ShrinkingUnfold(cards, draws, probability, parentProbability);
      ChildrenKeys(cards, draws, pit);
      if s[0] in cards {
        ShrinkingChildAt(cards, draws, pit, s[0]);
        ShrinkingDrawnPaths(cards, draws, pit, s);
      }
    } else if s != [] {
      assert s[0] !in ShrinkingTree(cards, draws, probability, parentProbability).nodes;
    }
  }

  lemma {:induction false} ShrinkingDrawnPaths(cards: map<nat, nat>, draws: nat, pit: Probability, s: seq<nat>)
    requires draws > 0 && ShrinkingDefined(cards, draws) && s != [] && s[0] in cards
    ensures IsPath(ShrinkingTree(Drawn(cards, s[0]), draws - 1, ProbabilitiesOf(cards)[s[0]], pit), s[1..])
        <==> |s| - 1 <= draws - 1 && Drawable(Drawn(cards, s[0]), s[1..])
    decreases |s|, 0
  {
    ShrinkingPaths(Drawn(cards, s[0]), draws - 1, ProbabilitiesOf(cards)[s[0]], pit, s[1..]);
  }

  /** From a deck of positive counts no card can be drawn more often than it is counted. */
  lemma {:induction false} DrawableWithinCounts(cards: map<nat, nat>, s: seq<nat>, c: nat)
    requires AllPositive(cards) && Drawable(cards, s)
    ensures multiset(s)[c] <= CountOf(cards, c)
    decreases |s|
  {
    if s != [] {
      var d := Drawn(cards, s[0]);
      DrawnPositive(cards, s[0]);
      DrawnCounts(cards, s[0]);
      DrawableWithinCounts(d, s[1..], c);
      assert s == [s[0]] + s[1..];
      assert multiset(s) == multiset{s[0]} + multiset(s[1..]);
    }
  }

  /**
   * In a shrinking tree built from a deck of positive counts, along every path no card
   * appears more often than the deck holds it.
   */
  lemma ShrinkingDrawsWithinCounts(
    cards: map<nat, nat>, draws: nat, probability: Probability, parentProbability: Probability, s: seq<nat>, c: nat)
    requires AllPositive(cards) && ShrinkingDefined(cards, draws)
    requires IsPath(ShrinkingTree(cards, draws, probability, parentProbability), s)
    ensures multiset(s)[c] <= CountOf(cards, c)
  {
    ShrinkingPaths(cards, draws, probability, parentProbability, s);
    DrawableWithinCounts(cards, s, c);
  }

  /**
   * Drawing without replacement: each card has its probability in the deck the earlier
   * draws leave, and they multiply; a card no longer in that deck gives zero.
   */
  ghost function DependentProbability(cards: map<nat, nat>, s: seq<nat>): Probability
    requires ShrinkingDefined(cards, |s|)
    decreases |s|
  {
    if s == [] then ONE
    else if s[0] !in cards then ZERO
    else Mul(ProbabilityIn(cards, s[0]), DependentProbability(Drawn(cards, s[0]), s[1..]))
  }

  /**
   * The shape of a shrinking tree, stated of any tree: `draws` levels, one child per card
   * of the deck, carrying that card's share of the deck, over the deck without that card.
   */
  ghost predicate ShrinkingShape(t: CardDrawTree, cards: map<nat, nat>, draws: nat)
    decreases draws
  {
    if draws == 0 then t.nodes == map[]
    else
      // triggered on the deck left by drawing c, which a proof names when it follows card c
      forall c {:trigger Drawn(cards, c)} ::
        && (c in t.nodes <==> c in cards)
        && (c in t.nodes ==>
             && HasPositiveCount(cards)
             && t.nodes[c].probability == ProbabilityIn(cards, c)
             && ShrinkingShape(t.nodes[c], Drawn(cards, c), draws - 1))
  }

  /** A tree of the shrinking shape meets only decks that have probabilities. */
  lemma {:induction false} ShapeDefined(t: CardDrawTree, cards: map<nat, nat>, draws: nat)
    requires ShrinkingShape(t, cards, draws)
    ensures ShrinkingDefined(cards, draws)
    decreases draws
  {
    if draws > 0 {
      forall c | c in cards ensures ShrinkingDefined(Drawn(cards, c), draws - 1) {
        ShapeDefined(t.nodes[c], Drawn(cards, c), draws - 1);
      }
      if cards != map[] {
        var c :| c in cards;
        assert c in t.nodes;
      }
    }
  }

  /** The shrinking builder's trees have that shape. */
  lemma {:induction false} ShrinkingTreeShape(
    cards: map<nat, nat>, draws: nat, probability: Probability, parentProbability: Probability)
    requires ShrinkingDefined(cards, draws)
    ensures ShrinkingShape(ShrinkingTree(cards, draws, probability, parentProbability), cards, draws)
    decreases draws, 1
  {
    var t := ShrinkingTree(cards, draws, probability, parentProbability);
    if draws > 0 {
      var pit := Mul(parentProbability, probability);
      ShrinkingUnfold(cards, draws, probability, parentProbability);
      forall c
        ensures c in t.nodes <==> c in cards
        ensures c in t.nodes ==>
          && HasPositiveCount(cards)
          && t.nodes[c].probability == ProbabilityIn(cards, c)
          && ShrinkingShape(t.nodes[c], Drawn(cards, c), draws - 1)
      {
        ChildIn(cards, draws, pit, c);
        if c in cards {
          ShrinkingChildAt(cards, draws, pit, c);
          ShrinkingDrawnRoot(cards, draws, pit, c);
          ShrinkingDrawnShape(cards, draws, pit, c);
        }
      }
    }
  }

  /** The subtree the shrinking builder grows below card c has the shrinking shape. */
  ghost predicate DrawnShaped(cards: map<nat, nat>, draws: nat, pit: Probability, c: nat)
    requires draws > 0 && ShrinkingDefined(cards, draws) && c in cards
  {
    ShrinkingShape(ShrinkingTree(Drawn(cards, c), draws - 1, ProbabilitiesOf(cards)[c], pit), Drawn(cards, c), draws - 1)
  }

  lemma {:induction false} ShrinkingDrawnShape(cards: map<nat, nat>, draws: nat, pit: Probability, c: nat)
    requires draws > 0 && ShrinkingDefined(cards, draws) && c in cards
    ensures DrawnShaped(cards, draws, pit, c)
    decreases draws, 0
  {
    ShrinkingTreeShape(Drawn(cards, c), draws - 1, ProbabilitiesOf(cards)[c], pit);
  }

  /** The subtree below card c starts with the card's share of the deck. */
  lemma ShrinkingDrawnRoot(cards: map<nat, nat>, draws: nat, pit: Probability, c: nat)
    requires draws > 0 && ShrinkingDefined(cards, draws) && c in cards
    ensures HasPositiveCount(cards)
    ensures ShrinkingTree(Drawn(cards, c), draws - 1, ProbabilitiesOf(cards)[c], pit).probability
      == ProbabilityIn(cards, c)
  {
    ShrinkingRoot(Drawn(cards, c), draws - 1, ProbabilitiesOf(cards)[c], pit);
  }

  /** In a tree of the shrinking shape, `probability_of` a short enough sequence is its drawing probability. */
  lemma {:induction false} ShapeProbabilityOf(t: CardDrawTree, cards: map<nat, nat>, draws: nat, s: seq<nat>)
    requires ShrinkingShape(t, cards, draws) && |s| <= draws
    ensures ShrinkingDefined(cards, |s|)
    ensures ProbabilityOf(t, s) == DependentProbability(cards, s)
    decreases |s|
  {
    ShapeDefined(t, cards, draws);
    ShrinkingDefinedFewer(cards, draws, |s|);
    if s != [] {
      var d := Drawn(cards, s[0]);
      if s[0] in cards {
        ShapeProbabilityOf(t.nodes[s[0]], d, draws - 1, s[1..]);
        DependentStep(cards, s);
      }
    }
  }

  /**
   * In a shrinking tree of depth `draws`, `probability_of` any sequence of at most `draws`
   * cards is its probability of being drawn without replacement; a longer sequence has
   * probability zero.
   */
  lemma ShrinkingProbabilityOf(
    cards: map<nat, nat>, draws: nat, probability: Probability, parentProbability: Probability, s: seq<nat>)
    requires ShrinkingDefined(cards, draws)
    ensures |s| <= draws ==>
      ShrinkingDefined(cards, |s|) &&
      ProbabilityOf(ShrinkingTree(cards, draws, probability, parentProbability), s)
        == DependentProbability(cards, s)
    ensures |s| > draws ==>
      ProbabilityOf(ShrinkingTree(cards, draws, probability, parentProbability), s) == ZERO
  {
    var t := ShrinkingTree(cards, draws, probability, parentProbability);
    if |s| > draws {
      ShrinkingPaths(cards, draws, probability, parentProbability, s);
      OffPathZero(t, s);
    } else {
      ShrinkingTreeShape(cards, draws, probability, parentProbability);
      ShapeProbabilityOf(t, cards, draws, s);
    }
  }

  /** Drawing the first card of s: its share of the deck, times the rest from the deck without it. */
  lemma DependentStep(cards: map<nat, nat>, s: seq<nat>)
    requires s != [] && s[0] in cards && ShrinkingDefined(cards, |s|)
    ensures ShrinkingDefined(Drawn(cards, s[0]), |s| - 1)
    ensures DependentProbability(cards, s)
         == Mul(ProbabilityIn(cards, s[0]), DependentProbability(Drawn(cards, s[0]), s[1..]))
  {
  }
}
