/**
 * `paths` and `create_paths` of src/cards/card_draw_tree.rs: every root-to-leaf path of a
 * draw tree as a `CardDrawSequence`, with the leaf's probability in the tree, listed in
 * the trees' ascending card order.
 */
module CardDrawTreePaths {
  import opened Rationals
  import opened Probabilities
  import opened MapSums
  import opened CardDecks
  import Seqs = CardDrawSequences
  import opened CardDrawTrees
  import opened CardDrawTreeLaws

  type Path = Seqs.CardDrawSequence<nat>

  // ---------------------------------------------------------------------------
  // What `create_paths` returns

  /**
   * `create_paths(sequence)`: a leaf gives the single sequence reaching it; an inner node
   * gives the paths of its children in ascending card order, each below `sequence + [card]`.
   */
  function PathsFrom(t: CardDrawTree, sequence: seq<nat>): (r: seq<Path>)
    ensures |r| >= 1
    ensures forall i :: 0 <= i < |r| ==> Extends(r[i].cards, sequence)
    decreases t, 1
  {
    if IsEmpty(t) then [Seqs.New(sequence, t.probabilityInTree)]
    else
      KeysInNodes(t);
      ChildrenPaths(t, sequence, SortedKeys(t.nodes.Keys))
  }

  /** The paths below the children listed in ks, one child after the other. */
  function ChildrenPaths(t: CardDrawTree, sequence: seq<nat>, ks: seq<nat>): (r: seq<Path>)
    requires forall i :: 0 <= i < |ks| ==> ks[i] in t.nodes
    ensures |r| >= |ks|
    ensures forall i :: 0 <= i < |r| ==> Extends(r[i].cards, sequence) && |r[i].cards| > |sequence|
    decreases t, 0, |ks|
  {
    if ks == [] then []
    else
      var first := PathsFrom(t.nodes[ks[0]], sequence + [ks[0]]);
      ExtendsLonger(first, sequence, ks[0]);
      first + ChildrenPaths(t, sequence, ks[1..])
  }

  /** Paths that extend sequence + [card] extend sequence, and are longer than it. */
  lemma ExtendsLonger(ps: seq<Path>, sequence: seq<nat>, card: nat)
    requires forall i :: 0 <= i < |ps| ==> Extends(ps[i].cards, sequence + [card])
    ensures forall i :: 0 <= i < |ps| ==> Extends(ps[i].cards, sequence) && |ps[i].cards| > |sequence|
  {
    forall i | 0 <= i < |ps|
      ensures Extends(ps[i].cards, sequence) && |ps[i].cards| > |sequence|
    {
      assert ps[i].cards[..|sequence|] == ps[i].cards[..|sequence| + 1][..|sequence|];
    }
  }

  /** The card list s begins with prefix. */
  predicate Extends(s: seq<nat>, prefix: seq<nat>)
  {
    |prefix| <= |s| && s[..|prefix|] == prefix
  }

  /** `paths()`: the paths from the root. */
  function AllPaths(t: CardDrawTree): seq<Path>
  {
    PathsFrom(t, [])
  }

  // ---------------------------------------------------------------------------
  // The source's loops

  /**
   * `create_paths`: pushes the leaf's sequence, or extends the result with the paths of
   * each child in the `BTreeMap`'s ascending order.
   */
  method CreatePaths(t: CardDrawTree, sequence: seq<nat>) returns (result: seq<Path>)
    ensures result == PathsFrom(t, sequence)
    decreases t
  {
    result := [];
    if IsEmpty(t) {
      result := result + [Seqs.New(sequence, t.probabilityInTree)];
    } else {
      var keys := SortedKeys(t.nodes.Keys);
      KeysInNodes(t);
      ghost var all := ChildrenPaths(t, sequence, keys);
      var i := 0;
      while i < |keys|
        invariant 0 <= i <= |keys|
        invariant result + ChildrenPaths(t, sequence, keys[i..]) == all
      {
        var card := keys[i];
        var s := sequence + [card];
        var sub := CreatePaths(t.nodes[card], s);
        ChildrenPathsStep(t, sequence, keys, i);
        AppendAssociative(result, sub, ChildrenPaths(t, sequence, keys[i + 1..]));
        result := result + sub;
        i := i + 1;
      }
      assert keys[i..] == [];
    }
  }

  /** The paths below keys[i..] are those below keys[i], then those below keys[i + 1..]. */
  lemma ChildrenPathsStep(t: CardDrawTree, sequence: seq<nat>, keys: seq<nat>, i: nat)
    requires forall j :: 0 <= j < |keys| ==> keys[j] in t.nodes
    requires i < |keys|
    ensures ChildrenPaths(t, sequence, keys[i..])
         == PathsFrom(t.nodes[keys[i]], sequence + [keys[i]]) + ChildrenPaths(t, sequence, keys[i + 1..])
  {
    assert keys[i..][0] == keys[i] && keys[i..][1..] == keys[i + 1..];
  }

  lemma AppendAssociative<T>(a: seq<T>, b: seq<T>, c: seq<T>)
    ensures a + (b + c) == (a + b) + c
  {
  }

  /** `paths()`. */
  method Paths(t: CardDrawTree) returns (result: seq<Path>)
    ensures result == AllPaths(t)
  {
    result := CreatePaths(t, []);
  }

  // ---------------------------------------------------------------------------
  // Every path ends in a leaf, and every leaf has its path

  /** s leads from the root of t to a leaf whose probability in the tree is p. */
  ghost predicate LeafPath(t: CardDrawTree, s: seq<nat>, p: Probability)
  {
    IsPath(t, s) && IsEmpty(Subtree(t, s)) && Subtree(t, s).probabilityInTree == p
  }

  /** Each sequence `create_paths` returns extends `sequence` by a path to a leaf, with that leaf's probability. */
  lemma {:induction false} PathsSound(t: CardDrawTree, sequence: seq<nat>)
    ensures forall q :: q in PathsFrom(t, sequence) ==>
      sequence <= q.cards && LeafPath(t, q.cards[|sequence|..], q.probability)
    decreases t, 1
  {
    if IsEmpty(t) {
      forall q | q in PathsFrom(t, sequence)
        ensures sequence <= q.cards && LeafPath(t, q.cards[|sequence|..], q.probability)
      {
        assert q.cards[|sequence|..] == [];
      }
    } else {
      SortedKeysSpec(t.nodes.Keys);
      ChildrenPathsSound(t, sequence, SortedKeys(t.nodes.Keys));
    }
  }

  lemma {:induction false} ChildrenPathsSound(t: CardDrawTree, sequence: seq<nat>, ks: seq<nat>)
    requires forall i :: 0 <= i < |ks| ==> ks[i] in t.nodes
    ensures forall q :: q in ChildrenPaths(t, sequence, ks) ==>
      sequence <= q.cards && LeafPath(t, q.cards[|sequence|..], q.probability)
    decreases t, 0, |ks|
  {
    if ks != [] {
      var k := ks[0];
      var u := t.nodes[k];
      var longer := sequence + [k];
      PathsSound(u, longer);
      ChildrenPathsSound(t, sequence, ks[1..]);
      forall q | q in PathsFrom(u, longer)
        ensures sequence <= q.cards && LeafPath(t, q.cards[|sequence|..], q.probability)
      {
        ChildLeafPath(t, k, sequence, q.cards, q.probability);
      }
    }
  }

  /** A leaf path of child k, prefixed by k, is a leaf path of t. */
  lemma ChildLeafPath(t: CardDrawTree, k: nat, sequence: seq<nat>, cards: seq<nat>, p: Probability)
    requires k in t.nodes
    requires sequence + [k] <= cards && LeafPath(t.nodes[k], cards[|sequence| + 1..], p)
    ensures sequence <= cards && LeafPath(t, cards[|sequence|..], p)
  {
    var s := cards[|sequence|..];
    assert s[0] == k && s[1..] == cards[|sequence| + 1..];
  }

  /** Every leaf of t appears among the paths, below `sequence`, with its probability in the tree. */
  lemma {:induction false} PathsComplete(t: CardDrawTree, sequence: seq<nat>, s: seq<nat>)
    requires IsPath(t, s) && IsEmpty(Subtree(t, s))
    ensures Seqs.New(sequence + s, Subtree(t, s).probabilityInTree) in PathsFrom(t, sequence)
    decreases |s|
  {
    if s == [] {
      assert sequence + s == sequence;
    } else {
      var k := s[0];
      var u := t.nodes[k];
      PathsComplete(u, sequence + [k], s[1..]);
      assert (sequence + [k]) + s[1..] == sequence + s;
      SortedKeysSpec(t.nodes.Keys);
      ChildrenPathsInclude(t, sequence, SortedKeys(t.nodes.Keys), k);
    }
  }

  /** The paths below a listed child are among the children's paths. */
  lemma {:induction false} ChildrenPathsInclude(t: CardDrawTree, sequence: seq<nat>, ks: seq<nat>, k: nat)
    requires forall i :: 0 <= i < |ks| ==> ks[i] in t.nodes
    requires k in ks
    ensures k in t.nodes
    ensures forall q :: q in PathsFrom(t.nodes[k], sequence + [k]) ==> q in ChildrenPaths(t, sequence, ks)
    decreases |ks|
  {
    if ks[0] != k {
      ChildrenPathsInclude(t, sequence, ks[1..], k);
    }
  }

  /** `create_paths` of a leaf is the single sequence given, with the leaf's probability in the tree. */
  lemma LeafPaths(t: CardDrawTree, sequence: seq<nat>)
    requires IsEmpty(t)
    ensures PathsFrom(t, sequence) == [Seqs.CardDrawSequence(sequence, t.probabilityInTree)]
  {
  }

  // ---------------------------------------------------------------------------
  // Each leaf once, in ascending card order

  /** a comes before b: at the first position where they differ, a holds the smaller card. */
  ghost predicate Before(a: seq<nat>, b: seq<nat>)
  {
    exists i :: 0 <= i < |a| && i < |b| && a[..i] == b[..i] && a[i] < b[i]
  }

  /** Every path's cards come before those of every later path. */
  ghost predicate Ascending(ps: seq<Path>)
  {
    forall i, j :: 0 <= i < j < |ps| ==> Before(ps[i].cards, ps[j].cards)
  }

  /**
   * `create_paths` lists the leaves in ascending order of their card sequences, as the
   * `BTreeMap`s iterate; so no sequence of cards appears twice.
   */
  lemma {:induction false} PathsAscending(t: CardDrawTree, sequence: seq<nat>)
    ensures Ascending(PathsFrom(t, sequence))
    ensures forall i, j :: 0 <= i < j < |PathsFrom(t, sequence)| ==>
      PathsFrom(t, sequence)[i].cards != PathsFrom(t, sequence)[j].cards
    decreases t, 1
  {
    var ps := PathsFrom(t, sequence);
    if !IsEmpty(t) {
      SortedKeysSpec(t.nodes.Keys);
      ChildrenPathsAscending(t, sequence, SortedKeys(t.nodes.Keys));
    }
    forall i, j | 0 <= i < j < |ps| ensures ps[i].cards != ps[j].cards {
      BeforeDiffers(ps[i].cards, ps[j].cards);
    }
  }

  lemma BeforeDiffers(a: seq<nat>, b: seq<nat>)
    requires Before(a, b)
    ensures a != b
  {
    var i :| 0 <= i < |a| && i < |b| && a[..i] == b[..i] && a[i] < b[i];
  }

  /** The children's paths, for keys listed in ascending order, are in ascending order. */
  lemma {:induction false} ChildrenPathsAscending(t: CardDrawTree, sequence: seq<nat>, ks: seq<nat>)
    requires forall i :: 0 <= i < |ks| ==> ks[i] in t.nodes
    requires forall i, j :: 0 <= i < j < |ks| ==> ks[i] < ks[j]
    ensures Ascending(ChildrenPaths(t, sequence, ks))
    decreases t, 0, |ks|
  {
    if ks != [] {
      var k := ks[0];
      var u := t.nodes[k];
      var first := PathsFrom(u, sequence + [k]);
      var rest := ChildrenPaths(t, sequence, ks[1..]);
      PathsAscending(u, sequence + [k]);
      ChildrenPathsAscending(t, sequence, ks[1..]);
      PathsSound(u, sequence + [k]);
      ChildrenPathsBelow(t, sequence, ks[1..]);
      forall a, b | a in first && b in rest ensures Before(a.cards, b.cards) {
        var n := |sequence|;
        assert (sequence + [k])[n] == k;
        assert a.cards[..n] == sequence == b.cards[..n];
        assert a.cards[n] == k < b.cards[n];
      }
      AscendingAppend(first, rest);
    }
  }

  /** Every path below the children listed in ks extends `sequence` by one of those keys. */
  lemma {:induction false} ChildrenPathsBelow(t: CardDrawTree, sequence: seq<nat>, ks: seq<nat>)
    requires forall i :: 0 <= i < |ks| ==> ks[i] in t.nodes
    ensures forall q :: q in ChildrenPaths(t, sequence, ks) ==>
      |sequence| < |q.cards| && sequence <= q.cards && q.cards[|sequence|] in ks
    decreases |ks|
  {
    if ks != [] {
      var k := ks[0];
      PathsSound(t.nodes[k], sequence + [k]);
      ChildrenPathsBelow(t, sequence, ks[1..]);
      forall q | q in PathsFrom(t.nodes[k], sequence + [k])
        ensures |sequence| < |q.cards| && sequence <= q.cards && q.cards[|sequence|] in ks
      {
        assert (sequence + [k])[|sequence|] == k;
      }
    }
  }

  lemma AscendingAppend(a: seq<Path>, b: seq<Path>)
    requires Ascending(a) && Ascending(b)
    requires forall p, q :: p in a && q in b ==> Before(p.cards, q.cards)
    ensures Ascending(a + b)
  {
    var ab := a + b;
    forall i, j | 0 <= i < j < |ab| ensures Before(ab[i].cards, ab[j].cards) {
      if j < |a| {
        assert ab[i] == a[i] && ab[j] == a[j];
      } else if i < |a| {
        assert ab[i] in a && ab[j] in b;
      } else {
        assert ab[i] == b[i - |a|] && ab[j] == b[j - |a|];
      }
    }
  }

  /** b to the power e. */
  function Power(b: nat, e: nat): nat
  {
    if e == 0 then 1 else b * Power(b, e - 1)
  }

  /** Children with n paths each give |ks| × n paths together. */
  lemma {:induction false} ChildrenPathsCount(t: CardDrawTree, sequence: seq<nat>, ks: seq<nat>, n: nat)
    requires forall i :: 0 <= i < |ks| ==> ks[i] in t.nodes
    requires forall i :: 0 <= i < |ks| ==> |PathsFrom(t.nodes[ks[i]], sequence + [ks[i]])| == n
    ensures |ChildrenPaths(t, sequence, ks)| == |ks| * n
    decreases |ks|
  {
    if ks != [] {
      ChildrenPathsCount(t, sequence, ks[1..], n);
    }
  }

  /**
   * A without-shrinking tree of depth `draws` over a deck of m cards has m^draws paths,
   * one per sequence of `draws` cards; over an empty deck it has the root's single path.
   */
  lemma {:induction false} WithoutShrinkingPathCount(
    cards: map<nat, nat>, draws: nat, probability: Probability, parentProbability: Probability, sequence: seq<nat>)
    requires draws > 0 ==> ProbabilitiesDefined(cards)
    ensures |PathsFrom(WithoutShrinkingTree(cards, draws, probability, parentProbability), sequence)|
         == if cards == map[] then 1 else Power(|cards|, draws)
    decreases draws, 1
  {
    if draws > 0 {
      var pit := Mul(parentProbability, probability);
      var t := WithoutShrinkingTree(cards, draws, probability, parentProbability);
      WithoutShrinkingUnfold(cards, draws, probability, parentProbability);
      ChildrenKeys(cards, draws, pit);
      if cards != map[] {
        var n := Power(|cards|, draws - 1);
        forall c | c in t.nodes ensures |PathsFrom(t.nodes[c], sequence + [c])| == n {
          var u := WithoutShrinkingTree(cards, draws - 1, ProbabilitiesOf(cards)[c], pit);
          WithoutShrinkingChildAt(cards, draws, pit, c);
          WithoutShrinkingPathCount(cards, draws - 1, ProbabilitiesOf(cards)[c], pit, sequence + [c]);
          assert t.nodes[c] == u;
        }
        UniformCount(t, sequence, n);
        assert |t.nodes| == |t.nodes.Keys| == |cards.Keys| == |cards|;
      }
    }
  }

  /** A node whose children have n paths each has |children| × n paths. */
  lemma UniformCount(t: CardDrawTree, sequence: seq<nat>, n: nat)
    requires t.nodes != map[]
    requires forall c :: c in t.nodes ==> |PathsFrom(t.nodes[c], sequence + [c])| == n
    ensures |PathsFrom(t, sequence)| == |t.nodes| * n
  {
    var ks := SortedKeys(t.nodes.Keys);
    SortedKeysSpec(t.nodes.Keys);
    ChildrenPathsCount(t, sequence, ks, n);
  }

  /**
   * The paths of `without_shrinking(deck, draws)` over a non-empty deck: |deck|^draws of
   * them, in ascending order, no two with the same cards.
   */
  lemma WithoutShrinkingPathsCounted(cards: map<nat, nat>, draws: nat)
    requires ProbabilitiesDefined(cards) && cards != map[]
    ensures |AllPaths(WithoutShrinkingTree(cards, draws, ONE, ONE))| == Power(|cards|, draws)
    ensures Ascending(AllPaths(WithoutShrinkingTree(cards, draws, ONE, ONE)))
  {
    WithoutShrinkingPathCount(cards, draws, ONE, ONE, []);
    PathsAscending(WithoutShrinkingTree(cards, draws, ONE, ONE), []);
  }

  // ---------------------------------------------------------------------------
  // The paths' probabilities add up to the node's probability in the tree

  /** `iter().map(|x| x.probability().ratio()).sum()`: the sum of the paths' probabilities. */
  function TotalProbability(ps: seq<Path>): real
  {
    if ps == [] then 0.0 else Value(RatioOf(ps[0].probability)) + TotalProbability(ps[1..])
  }

  lemma {:induction false} TotalAppend(a: seq<Path>, b: seq<Path>)
    ensures TotalProbability(a + b) == TotalProbability(a) + TotalProbability(b)
    decreases |a|
  {
    if a == [] {
      assert a + b == b;
    } else {
      assert (a + b)[0] == a[0] && (a + b)[1..] == a[1..] + b;
      TotalAppend(a[1..], b);
    }
  }

  /** The values of the children's edge probabilities. */
  ghost function EdgeValues(t: CardDrawTree): (r: map<nat, real>)
    ensures r.Keys == t.nodes.Keys
  {
    map c | c in t.nodes :: Value(t.nodes[c].probability)
  }

  /** At every inner node the edge probabilities of the children add up to one. */
  ghost predicate Normalized(t: CardDrawTree)
    decreases t
  {
    && (t.nodes != map[] ==> SumReal(EdgeValues(t)) == 1.0)
    && forall c :: c in t.nodes ==> Normalized(t.nodes[c])
  }

  /** The children's probabilities in the tree, as reals. */
  ghost function TreeValues(t: CardDrawTree): (r: map<nat, real>)
    ensures r.Keys == t.nodes.Keys
  {
    map c | c in t.nodes :: Value(t.nodes[c].probabilityInTree)
  }

  /** At every inner node the children's probabilities in the tree add up to the node's own. */
  ghost predicate Conserving(t: CardDrawTree)
    decreases t
  {
    && (t.nodes != map[] ==> SumReal(TreeValues(t)) == Value(t.probabilityInTree))
    && forall c :: c in t.nodes ==> Conserving(t.nodes[c])
  }

  /** In a conserving tree the probabilities of the paths add up to the node's probability in the tree. */
  lemma {:induction false} PathsTotal(t: CardDrawTree, sequence: seq<nat>)
    requires Conserving(t)
    ensures TotalProbability(PathsFrom(t, sequence)) == Value(t.probabilityInTree)
    decreases t, 1
  {
    if IsEmpty(t) {
      assert TotalProbability(PathsFrom(t, sequence)) == Value(t.probabilityInTree) + TotalProbability([]);
    } else {
      var ks := SortedKeys(t.nodes.Keys);
      SortedKeysSpec(t.nodes.Keys);
      ChildrenPathsTotal(t, sequence, ks);
      SumAtKeys(TreeValues(t), ks);
    }
  }

  lemma {:induction false} ChildrenPathsTotal(t: CardDrawTree, sequence: seq<nat>, ks: seq<nat>)
    requires Conserving(t)
    requires forall i :: 0 <= i < |ks| ==> ks[i] in t.nodes
    ensures TotalProbability(ChildrenPaths(t, sequence, ks)) == SumAt(TreeValues(t), ks)
    decreases t, 0, |ks|
  {
    if ks != [] {
      var k := ks[0];
      var u := t.nodes[k];
      PathsTotal(u, sequence + [k]);
      ChildrenPathsTotal(t, sequence, ks[1..]);
      TotalAppend(PathsFrom(u, sequence + [k]), ChildrenPaths(t, sequence, ks[1..]));
    }
  }

  /**
   * A consistent tree whose edge probabilities add up to one below every inner node is
   * conserving: the probability of reaching a node splits among its children.
   */
  lemma {:induction false} ConsistentConserving(t: CardDrawTree)
    requires Consistent(t) && Normalized(t)
    ensures Conserving(t)
    decreases t
  {
    forall c | c in t.nodes ensures Conserving(t.nodes[c]) {
      ConsistentConserving(t.nodes[c]);
    }
    if t.nodes != map[] {
      NodeConserving(t);
    }
  }

  lemma NodeConserving(t: CardDrawTree)
    requires forall k :: k in t.nodes ==>
      t.nodes[k].probabilityInTree == Mul(t.probabilityInTree, t.nodes[k].probability)
    requires SumReal(EdgeValues(t)) == 1.0
    ensures SumReal(TreeValues(t)) == Value(t.probabilityInTree)
  {
    ChildValues(t);
    ScaledNodeTotal(t);
  }

  /** Each value of w is a times the value of e at the same key. */
  ghost predicate ScaledBy(e: map<nat, real>, a: real, w: map<nat, real>)
  {
    forall k :: k in e ==> k in w && w[k] == a * e[k]
  }

  lemma ScaledNodeTotal(t: CardDrawTree)
    requires ScaledBy(EdgeValues(t), Value(t.probabilityInTree), TreeValues(t))
    requires SumReal(EdgeValues(t)) == 1.0
    ensures SumReal(TreeValues(t)) == Value(t.probabilityInTree)
  {
    var ks := SortedKeys(t.nodes.Keys);
    SortedKeysSpec(t.nodes.Keys);
    ScaledTotal(EdgeValues(t), TreeValues(t), Value(t.probabilityInTree), ks);
    SumAtKeys(TreeValues(t), ks);
  }

  lemma ChildValues(t: CardDrawTree)
    requires forall k :: k in t.nodes ==>
      t.nodes[k].probabilityInTree == Mul(t.probabilityInTree, t.nodes[k].probability)
    ensures ScaledBy(EdgeValues(t), Value(t.probabilityInTree), TreeValues(t))
  {
    forall k | k in EdgeValues(t)
      ensures k in TreeValues(t) && TreeValues(t)[k] == Value(t.probabilityInTree) * EdgeValues(t)[k]
    {
      ChildValue(t, k);
    }
  }

  /** Values adding up to one, each scaled by a, add up to a along any enumeration of the keys. */
  lemma ScaledTotal(e: map<nat, real>, w: map<nat, real>, a: real, ks: seq<nat>)
    requires forall i, j :: 0 <= i < j < |ks| ==> ks[i] != ks[j]
    requires forall k :: k in e <==> k in ks
    requires SumReal(e) == 1.0
    requires ScaledBy(e, a, w)
    ensures SumAt(w, ks) == a
  {
    forall i | 0 <= i < |ks| ensures ks[i] in w && w[ks[i]] == a * e[ks[i]] {
      var k := ks[i];
      assert k in ks;
    }
    SumAtScaledOne(e, a, w, ks);
  }

  /** In a consistent tree a child's probability in the tree is its parent's times its edge's. */
  lemma ChildValue(t: CardDrawTree, k: nat)
    requires k in t.nodes && t.nodes[k].probabilityInTree == Mul(t.probabilityInTree, t.nodes[k].probability)
    ensures TreeValues(t)[k] == Value(t.probabilityInTree) * EdgeValues(t)[k]
  {
    MulValue(t.probabilityInTree, t.nodes[k].probability);
  }

  // ---------------------------------------------------------------------------
  // The builders' trees are normalized, so their paths add up to one

  /** Below an inner node of a built tree the edges carry `probabilities()`, which add up to one. */
  lemma DeckEdges(cards: map<nat, nat>, t: CardDrawTree)
    requires ProbabilitiesDefined(cards) && cards != map[]
    requires t.nodes.Keys == cards.Keys
    requires forall c :: c in t.nodes ==> t.nodes[c].probability == ProbabilitiesOf(cards)[c]
    ensures SumReal(EdgeValues(t)) == 1.0
  {
    MapsEqual(EdgeValues(t), Values(ProbabilitiesOf(cards)));
    ProbabilitiesSumToOne(cards);
  }

  lemma {:induction false} WithoutShrinkingNormalized(
    cards: map<nat, nat>, draws: nat, probability: Probability, parentProbability: Probability)
    requires draws > 0 ==> ProbabilitiesDefined(cards)
    ensures Normalized(WithoutShrinkingTree(cards, draws, probability, parentProbability))
    decreases draws, 1
  {
    if draws > 0 {
      var t := WithoutShrinkingTree(cards, draws, probability, parentProbability);
      var pit := Mul(parentProbability, probability);
      WithoutShrinkingUnfold(cards, draws, probability, parentProbability);
      ChildrenKeys(cards, draws, pit);
      forall c | c in t.nodes
        ensures t.nodes[c].probability == ProbabilitiesOf(cards)[c]
        ensures Normalized(t.nodes[c])
      {
        WithoutShrinkingChildAt(cards, draws, pit, c);
        WithoutShrinkingSubtreeNormalized(cards, draws, pit, c);
      }
      if cards != map[] {
        DeckEdges(cards, t);
      }
    }
  }

  lemma {:induction false} WithoutShrinkingSubtreeNormalized(cards: map<nat, nat>, draws: nat, pit: Probability, c: nat)
    requires draws > 0 && ProbabilitiesDefined(cards) && c in cards
    ensures var u := WithoutShrinkingTree(cards, draws - 1, ProbabilitiesOf(cards)[c], pit);
      u.probability == ProbabilitiesOf(cards)[c] && Normalized(u)
    decreases draws, 0
  {
    WithoutShrinkingRoot(cards, draws - 1, ProbabilitiesOf(cards)[c], pit);
    WithoutShrinkingNormalized(cards, draws - 1, ProbabilitiesOf(cards)[c], pit);
  }

  lemma {:induction false} ShrinkingNormalized(
    cards: map<nat, nat>, draws: nat, probability: Probability, parentProbability: Probability)
    requires ShrinkingDefined(cards, draws)
    ensures Normalized(ShrinkingTree(cards, draws, probability, parentProbability))
    decreases draws, 1
  {
    if draws > 0 {
      var t := ShrinkingTree(cards, draws, probability, parentProbability);
      var pit := Mul(parentProbability, probability);
      ShrinkingUnfold(cards, draws, probability, parentProbability);
      ChildrenKeys(cards, draws, pit);
      forall c | c in t.nodes
        ensures t.nodes[c].probability == ProbabilitiesOf(cards)[c]
        ensures Normalized(t.nodes[c])
      {
        ShrinkingChildAt(cards, draws, pit, c);
        ShrinkingDrawnNormalized(cards, draws, pit, c);
      }
      if cards != map[] {
        DeckEdges(cards, t);
      }
    }
  }

  lemma {:induction false} ShrinkingDrawnNormalized(cards: map<nat, nat>, draws: nat, pit: Probability, c: nat)
    requires draws > 0 && ShrinkingDefined(cards, draws) && c in cards
    ensures var u := ShrinkingTree(Drawn(cards, c), draws - 1, ProbabilitiesOf(cards)[c], pit);
      u.probability == ProbabilitiesOf(cards)[c] && Normalized(u)
    decreases draws, 0
  {
    ShrinkingRoot(Drawn(cards, c), draws - 1, ProbabilitiesOf(cards)[c], pit);
    ShrinkingNormalized(Drawn(cards, c), draws - 1, ProbabilitiesOf(cards)[c], pit);
  }

  /** Below a root reached with certainty, the paths of a conserving tree add up to one. */
  lemma RootedTotal(t: CardDrawTree)
    requires Conserving(t) && t.probabilityInTree == ONE
    ensures TotalProbability(AllPaths(t)) == 1.0
  {
    PathsTotal(t, []);
  }

  /** Tests `without_shrinking_sum_resolves_to_one`, for every deck and depth. */
  lemma WithoutShrinkingPathsSumToOne(cards: map<nat, nat>, draws: nat)
    requires draws > 0 ==> ProbabilitiesDefined(cards)
    ensures TotalProbability(AllPaths(WithoutShrinkingTree(cards, draws, ONE, ONE))) == 1.0
  {
    var t := WithoutShrinkingTree(cards, draws, ONE, ONE);
    WithoutShrinkingConsistent(cards, draws, ONE, ONE);
    WithoutShrinkingNormalized(cards, draws, ONE, ONE);
    ConsistentConserving(t);
    WithoutShrinkingRoot(cards, draws, ONE, ONE);
    MulUnits(ONE);
    RootedTotal(t);
  }

  /** Tests `shrinking_sum_resolves_to_one`, for every deck and depth. */
  lemma ShrinkingPathsSumToOne(cards: map<nat, nat>, draws: nat)
    requires ShrinkingDefined(cards, draws)
    ensures TotalProbability(AllPaths(ShrinkingTree(cards, draws, ONE, ONE))) == 1.0
  {
    var t := ShrinkingTree(cards, draws, ONE, ONE);
    ShrinkingConsistent(cards, draws, ONE, ONE);
    ShrinkingNormalized(cards, draws, ONE, ONE);
    ConsistentConserving(t);
    ShrinkingRoot(cards, draws, ONE, ONE);
    MulUnits(ONE);
    RootedTotal(t);
  }

  // ---------------------------------------------------------------------------
  // The paths of a without-shrinking tree

  /**
   * The paths of `without_shrinking(deck, draws)` over a non-empty deck are exactly the
   * sequences of `draws` cards of the deck, each with the product of its cards' probabilities.
   */
  lemma WithoutShrinkingPathsAre(cards: map<nat, nat>, draws: nat, q: Path)
    requires ProbabilitiesDefined(cards) && cards != map[]
    ensures q in AllPaths(WithoutShrinkingTree(cards, draws, ONE, ONE)) <==>
      |q.cards| == draws && AllIn(q.cards, cards) && q.probability == IndependentProbability(cards, q.cards)
  {
    var t := WithoutShrinkingTree(cards, draws, ONE, ONE);
    WithoutShrinkingConsistent(cards, draws, ONE, ONE);
    MulUnits(ONE);
    WithoutShrinkingPaths(cards, draws, ONE, ONE, q.cards);
    WithoutShrinkingProbabilityOf(cards, draws, ONE, ONE, q.cards);
    if q in AllPaths(t) {
      PathsSound(t, []);
      assert q.cards[0..] == q.cards;
      WithoutShrinkingLeaves(cards, draws, ONE, ONE, q.cards);
      RootedPathProbability(t, q.cards);
    } else if |q.cards| == draws && AllIn(q.cards, cards) {
      WithoutShrinkingLeaves(cards, draws, ONE, ONE, q.cards);
      RootedPathProbability(t, q.cards);
      PathsComplete(t, [], q.cards);
      assert [] + q.cards == q.cards;
    }
  }
}
