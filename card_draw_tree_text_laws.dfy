/**
 * What `to_graphviz` of src/cards/card_draw_tree.rs writes: below the header, for every
 * node of the tree, a declaration "card (probability in tree)" under a name made of the
 * card and a number, and an edge from its parent's name (or from the root) labelled with
 * the node's own probability; nothing else.  The numbers come from the counter threaded
 * through `to_graphviz_iter`; they are pairwise distinct, so no two nodes share a name.
 */
module CardDrawTreeTextLaws {
  import opened Probabilities
  import Text
  import opened CardDrawTrees
  import opened CardDrawTreeText

  // ---------------------------------------------------------------------------
  // The number, name and two statements of each node

  /** Every prefix of a path is a path. */
  lemma {:induction false} ParentIsPath(t: CardDrawTree, p: seq<nat>)
    requires |p| > 1 && IsPath(t, p)
    ensures IsPath(t, p[..|p| - 1])
    decreases |p|
  {
    var parent := p[..|p| - 1];
    assert parent[0] == p[0];
    if |p| > 2 {
      ParentIsPath(t.nodes[p[0]], p[1..]);
      assert parent[1..] == p[1..][..|p[1..]| - 1];
    } else {
      assert parent[1..] == [];
    }
  }

  lemma FromTail(x: nat, ks: seq<nat>)
    requires ks != [] && x in ks[1..]
    ensures x in ks
  {
    var i :| 0 <= i < |ks[1..]| && ks[1..][i] == x;
    assert ks[i + 1] == x;
  }

  lemma FirstNotInTail(ks: seq<nat>)
    requires ks != [] && forall i, j :: 0 <= i < j < |ks| ==> ks[i] < ks[j]
    ensures ks[0] !in ks[1..]
  {
    forall i | 0 <= i < |ks[1..]|
      ensures ks[1..][i] != ks[0]
    {
      assert ks[1..][i] == ks[i + 1];
    }
  }

  lemma InTail(x: nat, ks: seq<nat>)
    requires x in ks && x != ks[0]
    ensures x in ks[1..]
  {
    var i :| 0 <= i < |ks| && ks[i] == x;
    assert ks[1..][i - 1] == x;
  }

  /**
   * The number `to_graphviz_iter(_, base)` gives the node at path p below t when it
   * visits the children in ks, in that order: the first child gets base + 1 and its
   * descendants the numbers after it; each later child starts after the last number
   * its predecessor used.
   */
  ghost function NumberIn(t: CardDrawTree, base: nat, ks: seq<nat>, p: seq<nat>): nat
    requires forall i :: 0 <= i < |ks| ==> ks[i] in t.nodes
    requires p != [] && IsPath(t, p) && p[0] in ks
    decreases t, 0, |ks|
  {
    if p[0] == ks[0] then
      if |p| == 1 then base + 1 else Number(t.nodes[p[0]], base + 1, p[1..])
    else
      InTail(p[0], ks);
      NumberIn(t, base + 1 + |PreOrder(t.nodes[ks[0]])|, ks[1..], p)
  }

  /** The number of the node at path p, the children visited in ascending card order. */
  ghost function Number(t: CardDrawTree, base: nat, p: seq<nat>): nat
    requires p != [] && IsPath(t, p)
    decreases t, 1
  {
    KeysInNodes(t);
    SortedKeysSpec(t.nodes.Keys);
    NumberIn(t, base, SortedKeys(t.nodes.Keys), p)
  }

  ghost function NameIn(t: CardDrawTree, base: nat, ks: seq<nat>, p: seq<nat>): string
    requires forall i :: 0 <= i < |ks| ==> ks[i] in t.nodes
    requires p != [] && IsPath(t, p) && p[0] in ks
  {
    NodeName(CardText(p), NumberIn(t, base, ks, p))
  }

  /** Where the edge into p starts: root for a child of the root, else the name of p's parent. */
  ghost function SourceIn(t: CardDrawTree, root: string, base: nat, ks: seq<nat>, p: seq<nat>): string
    requires forall i :: 0 <= i < |ks| ==> ks[i] in t.nodes
    requires p != [] && IsPath(t, p) && p[0] in ks
  {
    if |p| == 1 then root
    else
      ParentIsPath(t, p);
      NameIn(t, base, ks, p[..|p| - 1])
  }

  /**
   * The declaration `to_graphviz_iter(_, base)` writes for the node at path p when it visits
   * the children in ks, followed down the calls that write it: the first child's own call
   * writes it for that child, the child's `to_graphviz_iter` for a node below it, and the
   * rest of the loop for a node below a later child.  DeclShape says what it is.
   */
  ghost function DeclIn(t: CardDrawTree, base: nat, ks: seq<nat>, p: seq<nat>): Statement
    requires forall i :: 0 <= i < |ks| ==> ks[i] in t.nodes
    requires p != [] && IsPath(t, p) && p[0] in ks
    decreases t, 0, |ks|
  {
    if p[0] == ks[0] then
      if |p| == 1 then Declaration(t.nodes[p[0]], Text.NatToString(p[0]), base + 1)
      else Decl(t.nodes[p[0]], base + 1, p[1..])
    else
      InTail(p[0], ks);
      DeclIn(t, base + 1 + |PreOrder(t.nodes[ks[0]])|, ks[1..], p)
  }

  /** The edge `to_graphviz_iter(root, base)` writes into the node at path p, followed down the same calls. */
  ghost function EdgeIn(t: CardDrawTree, root: string, base: nat, ks: seq<nat>, p: seq<nat>): Statement
    requires forall i :: 0 <= i < |ks| ==> ks[i] in t.nodes
    requires p != [] && IsPath(t, p) && p[0] in ks
    decreases t, 0, |ks|
  {
    if p[0] == ks[0] then
      if |p| == 1 then EdgeInto(t.nodes[p[0]], root, Text.NatToString(p[0]), base + 1)
      else EdgeTo(t.nodes[p[0]], NodeName(Text.NatToString(p[0]), base + 1), base + 1, p[1..])
    else
      InTail(p[0], ks);
      EdgeIn(t, root, base + 1 + |PreOrder(t.nodes[ks[0]])|, ks[1..], p)
  }

  /** Node p's declaration, the children visited in ascending card order. */
  ghost function Decl(t: CardDrawTree, base: nat, p: seq<nat>): Statement
    requires p != [] && IsPath(t, p)
    decreases t, 1
  {
    KeysInNodes(t);
    SortedKeysSpec(t.nodes.Keys);
    DeclIn(t, base, SortedKeys(t.nodes.Keys), p)
  }

  /** The edge into node p, the children visited in ascending card order. */
  ghost function EdgeTo(t: CardDrawTree, root: string, base: nat, p: seq<nat>): Statement
    requires p != [] && IsPath(t, p)
    decreases t, 1
  {
    KeysInNodes(t);
    SortedKeysSpec(t.nodes.Keys);
    EdgeIn(t, root, base, SortedKeys(t.nodes.Keys), p)
  }

  /** The declaration written for node p declares p's name, labelled with p's card and probability in the tree. */
  lemma {:induction false} DeclShape(t: CardDrawTree, base: nat, ks: seq<nat>, p: seq<nat>)
    requires forall i :: 0 <= i < |ks| ==> ks[i] in t.nodes
    requires p != [] && IsPath(t, p) && p[0] in ks
    ensures DeclIn(t, base, ks, p) == Declaration(Subtree(t, p), CardText(p), NumberIn(t, base, ks, p))
    decreases t, 0, |ks|, 1
  {
    if p[0] != ks[0] {
      DeclShapeLater(t, base, ks, p);
    } else if |p| == 1 {
      assert p[1..] == [];
    } else {
      DeclShapeBelow(t, base, ks, p);
    }
  }

  lemma {:induction false} DeclShapeBelow(t: CardDrawTree, base: nat, ks: seq<nat>, p: seq<nat>)
    requires ks != [] && (forall i :: 0 <= i < |ks| ==> ks[i] in t.nodes)
    requires |p| > 1 && IsPath(t, p) && p[0] == ks[0]
    ensures DeclIn(t, base, ks, p) == Declaration(Subtree(t, p), CardText(p), NumberIn(t, base, ks, p))
    decreases t, 0, |ks|, 0
  {
    var child := t.nodes[p[0]];
    KeysInNodes(child);
    SortedKeysSpec(child.nodes.Keys);
    DeclShape(child, base + 1, SortedKeys(child.nodes.Keys), p[1..]);
    BelowFirstName(t, base, ks, p);
  }

  lemma {:induction false} DeclShapeLater(t: CardDrawTree, base: nat, ks: seq<nat>, p: seq<nat>)
    requires ks != [] && (forall i :: 0 <= i < |ks| ==> ks[i] in t.nodes)
    requires p != [] && IsPath(t, p) && p[0] in ks && p[0] != ks[0]
    ensures DeclIn(t, base, ks, p) == Declaration(Subtree(t, p), CardText(p), NumberIn(t, base, ks, p))
    decreases t, 0, |ks|, 0
  {
    InTail(p[0], ks);
    DeclShape(t, base + 1 + |PreOrder(t.nodes[ks[0]])|, ks[1..], p);
  }

  /** The edge written into node p runs from p's source to p's name, labelled with p's own probability. */
  lemma {:induction false} EdgeShape(t: CardDrawTree, root: string, base: nat, ks: seq<nat>, p: seq<nat>)
    requires forall i :: 0 <= i < |ks| ==> ks[i] in t.nodes
    requires p != [] && IsPath(t, p) && p[0] in ks
    ensures EdgeIn(t, root, base, ks, p)
         == EdgeInto(Subtree(t, p), SourceIn(t, root, base, ks, p), CardText(p), NumberIn(t, base, ks, p))
    decreases t, 0, |ks|, 1
  {
    if p[0] != ks[0] {
      EdgeShapeLater(t, root, base, ks, p);
    } else if |p| == 1 {
      assert p[1..] == [];
    } else {
      EdgeShapeBelow(t, root, base, ks, p);
    }
  }

  lemma {:induction false} EdgeShapeBelow(t: CardDrawTree, root: string, base: nat, ks: seq<nat>, p: seq<nat>)
    requires ks != [] && (forall i :: 0 <= i < |ks| ==> ks[i] in t.nodes)
    requires |p| > 1 && IsPath(t, p) && p[0] == ks[0]
    ensures EdgeIn(t, root, base, ks, p)
         == EdgeInto(Subtree(t, p), SourceIn(t, root, base, ks, p), CardText(p), NumberIn(t, base, ks, p))
    decreases t, 0, |ks|, 0
  {
    var child := t.nodes[p[0]];
    KeysInNodes(child);
    SortedKeysSpec(child.nodes.Keys);
    EdgeShape(child, NodeName(Text.NatToString(p[0]), base + 1), base + 1, SortedKeys(child.nodes.Keys), p[1..]);
    BelowFirstName(t, base, ks, p);
    BelowFirstSource(t, root, base, ks, p);
  }

  lemma {:induction false} EdgeShapeLater(t: CardDrawTree, root: string, base: nat, ks: seq<nat>, p: seq<nat>)
    requires ks != [] && (forall i :: 0 <= i < |ks| ==> ks[i] in t.nodes)
    requires p != [] && IsPath(t, p) && p[0] in ks && p[0] != ks[0]
    ensures EdgeIn(t, root, base, ks, p)
         == EdgeInto(Subtree(t, p), SourceIn(t, root, base, ks, p), CardText(p), NumberIn(t, base, ks, p))
    decreases t, 0, |ks|, 0
  {
    InTail(p[0], ks);
    var next := base + 1 + |PreOrder(t.nodes[ks[0]])|;
    assert EdgeIn(t, root, base, ks, p) == EdgeIn(t, root, next, ks[1..], p);
    assert NumberIn(t, base, ks, p) == NumberIn(t, next, ks[1..], p);
    EdgeShape(t, root, next, ks[1..], p);
    LaterSource(t, root, base, ks, p);
  }

  // ---------------------------------------------------------------------------
  // The statements are exactly those of the nodes

  /** Every node through a card of ks has its declaration and its edge in sts. */
  ghost predicate Covers(t: CardDrawTree, root: string, base: nat, ks: seq<nat>, sts: seq<Statement>)
    requires forall i :: 0 <= i < |ks| ==> ks[i] in t.nodes
  {
    forall p {:trigger DeclIn(t, base, ks, p)} {:trigger EdgeIn(t, root, base, ks, p)} ::
      p != [] && IsPath(t, p) && p[0] in ks ==>
        DeclIn(t, base, ks, p) in sts && EdgeIn(t, root, base, ks, p) in sts
  }

  /** Every statement of sts is the declaration or the edge of a node through a card of ks. */
  ghost predicate OnlyNodes(t: CardDrawTree, root: string, base: nat, ks: seq<nat>, sts: seq<Statement>)
    requires forall i :: 0 <= i < |ks| ==> ks[i] in t.nodes
  {
    forall st :: st in sts ==> exists p :: Owns(t, root, base, ks, st, p)
  }

  /** st is the declaration or the edge of the node at path p, which goes through a card of ks. */
  ghost predicate Owns(t: CardDrawTree, root: string, base: nat, ks: seq<nat>, st: Statement, p: seq<nat>)
    requires forall i :: 0 <= i < |ks| ==> ks[i] in t.nodes
  {
    p != [] && IsPath(t, p) && p[0] in ks && (st == DeclIn(t, base, ks, p) || st == EdgeIn(t, root, base, ks, p))
  }

  /** `to_graphviz_iter(root, base)` writes the two statements of every node below t. */
  lemma {:induction false} IterCovers(t: CardDrawTree, root: string, base: nat)
    ensures forall i :: 0 <= i < |SortedKeys(t.nodes.Keys)| ==> SortedKeys(t.nodes.Keys)[i] in t.nodes
    ensures Covers(t, root, base, SortedKeys(t.nodes.Keys), IterStatements(t, root, base))
    decreases t, 1
  {
    KeysInNodes(t);
    ChildrenCovers(t, root, base, SortedKeys(t.nodes.Keys));
  }

  lemma {:induction false} ChildrenCovers(t: CardDrawTree, root: string, base: nat, ks: seq<nat>)
    requires forall i :: 0 <= i < |ks| ==> ks[i] in t.nodes
    ensures Covers(t, root, base, ks, ChildrenStatements(t, root, base, ks))
    decreases t, 0, |ks|, 3
  {
    if ks != [] {
      CoveredFromParts(t, root, base, ks);
    }
  }

  /** The children's export covers every node, from what the first child's and the later children's exports cover. */
  lemma {:induction false} CoveredFromParts(t: CardDrawTree, root: string, base: nat, ks: seq<nat>)
    requires ks != [] && (forall i :: 0 <= i < |ks| ==> ks[i] in t.nodes)
    ensures Covers(t, root, base, ks, ChildrenStatements(t, root, base, ks))
    decreases t, 0, |ks|, 2
  {
    forall p | p != [] && IsPath(t, p) && p[0] in ks
      ensures DeclIn(t, base, ks, p) in ChildrenStatements(t, root, base, ks)
      ensures EdgeIn(t, root, base, ks, p) in ChildrenStatements(t, root, base, ks)
    {
      CoveredAt(t, root, base, ks, p);
    }
  }

  /** One node through a card of ks, from what the first child's and the later children's exports cover. */
  lemma {:induction false} CoveredAt(t: CardDrawTree, root: string, base: nat, ks: seq<nat>, p: seq<nat>)
    requires ks != [] && (forall i :: 0 <= i < |ks| ==> ks[i] in t.nodes)
    requires p != [] && IsPath(t, p) && p[0] in ks
    ensures DeclIn(t, base, ks, p) in ChildrenStatements(t, root, base, ks)
    ensures EdgeIn(t, root, base, ks, p) in ChildrenStatements(t, root, base, ks)
    decreases t, 0, |ks|, 1
  {
    if p[0] != ks[0] {
      CoveredLater(t, root, base, ks, p);
      CoveredLaterEdge(t, root, base, ks, p);
    } else if |p| == 1 {
      CoveredFirst(t, root, base, ks, p);
    } else {
      CoveredBelow(t, root, base, ks, p);
    }
  }

  /** The first child itself is covered by the head its own call writes. */
  lemma {:induction false} CoveredFirst(t: CardDrawTree, root: string, base: nat, ks: seq<nat>, p: seq<nat>)
    requires ks != [] && (forall i :: 0 <= i < |ks| ==> ks[i] in t.nodes)
    requires p == [ks[0]]
    ensures IsPath(t, p)
    ensures DeclIn(t, base, ks, p) in ChildrenStatements(t, root, base, ks)
    ensures EdgeIn(t, root, base, ks, p) in ChildrenStatements(t, root, base, ks)
  {
    ChildrenSplit(t, root, base, ks, base + 1 + |PreOrder(t.nodes[ks[0]])|);
    FirstNode(t, root, base, ks);
  }

  /** A node below the first child is covered by the child's own export. */
  lemma {:induction false} CoveredBelow(t: CardDrawTree, root: string, base: nat, ks: seq<nat>, p: seq<nat>)
    requires ks != [] && (forall i :: 0 <= i < |ks| ==> ks[i] in t.nodes)
    requires |p| > 1 && IsPath(t, p) && p[0] == ks[0]
    ensures DeclIn(t, base, ks, p) in ChildrenStatements(t, root, base, ks)
    ensures EdgeIn(t, root, base, ks, p) in ChildrenStatements(t, root, base, ks)
    decreases t, 0, |ks|, 0
  {
    IterCovers(t.nodes[ks[0]], NodeName(Text.NatToString(ks[0]), base + 1), base + 1);
    ChildrenSplit(t, root, base, ks, base + 1 + |PreOrder(t.nodes[ks[0]])|);
    BelowFirstNode(t, root, base, ks, p);
  }

  /** A node below a later child is covered by the later children's export: its declaration ... */
  lemma {:induction false} CoveredLater(t: CardDrawTree, root: string, base: nat, ks: seq<nat>, p: seq<nat>)
    requires ks != [] && (forall i :: 0 <= i < |ks| ==> ks[i] in t.nodes)
    requires p != [] && IsPath(t, p) && p[0] in ks && p[0] != ks[0]
    ensures DeclIn(t, base, ks, p) in ChildrenStatements(t, root, base, ks)
    decreases t, 0, |ks|, 0
  {
    var next := base + 1 + |PreOrder(t.nodes[ks[0]])|;
    ChildrenCovers(t, root, next, ks[1..]);
    LaterNode(t, root, base, ks, p);
    assert DeclIn(t, next, ks[1..], p) in ChildrenStatements(t, root, next, ks[1..]);
    InLaterChildren(t, root, base, ks, DeclIn(t, base, ks, p));
  }

  /** ... and the edge into it. */
  lemma {:induction false} CoveredLaterEdge(t: CardDrawTree, root: string, base: nat, ks: seq<nat>, p: seq<nat>)
    requires ks != [] && (forall i :: 0 <= i < |ks| ==> ks[i] in t.nodes)
    requires p != [] && IsPath(t, p) && p[0] in ks && p[0] != ks[0]
    ensures EdgeIn(t, root, base, ks, p) in ChildrenStatements(t, root, base, ks)
    decreases t, 0, |ks|, 0
  {
    var next := base + 1 + |PreOrder(t.nodes[ks[0]])|;
    ChildrenCovers(t, root, next, ks[1..]);
    LaterNode(t, root, base, ks, p);
    assert EdgeIn(t, root, next, ks[1..], p) in ChildrenStatements(t, root, next, ks[1..]);
    InLaterChildren(t, root, base, ks, EdgeIn(t, root, base, ks, p));
  }

  /** A statement of the children's export is in the first child's head, its own export or the later children's. */
  lemma {:induction false} InSomeChild(t: CardDrawTree, root: string, base: nat, ks: seq<nat>, st: Statement)
    requires ks != [] && (forall i :: 0 <= i < |ks| ==> ks[i] in t.nodes)
    requires st in ChildrenStatements(t, root, base, ks)
    ensures || st in Head(t.nodes[ks[0]], root, Text.NatToString(ks[0]), base + 1)
            || st in IterStatements(t.nodes[ks[0]], NodeName(Text.NatToString(ks[0]), base + 1), base + 1)
            || st in ChildrenStatements(t, root, base + 1 + |PreOrder(t.nodes[ks[0]])|, ks[1..])
  {
    var k, child := ks[0], t.nodes[ks[0]];
    var next := base + 1 + |PreOrder(child)|;
    ChildrenSplit(t, root, base, ks, next);
    InParts(st, Head(child, root, Text.NatToString(k), base + 1),
            IterStatements(child, NodeName(Text.NatToString(k), base + 1), base + 1),
            ChildrenStatements(t, root, next, ks[1..]), ChildrenStatements(t, root, base, ks));
  }

  lemma InParts<T>(x: T, a: seq<T>, b: seq<T>, c: seq<T>, all: seq<T>)
    requires all == a + b + c && x in all
    ensures x in a || x in b || x in c
  {
  }

  /** What the later children's export holds, the children's export holds. */
  lemma {:induction false} InLaterChildren(t: CardDrawTree, root: string, base: nat, ks: seq<nat>, st: Statement)
    requires ks != [] && (forall i :: 0 <= i < |ks| ==> ks[i] in t.nodes)
    requires st in ChildrenStatements(t, root, base + 1 + |PreOrder(t.nodes[ks[0]])|, ks[1..])
    ensures st in ChildrenStatements(t, root, base, ks)
  {
    ChildrenSplit(t, root, base, ks, base + 1 + |PreOrder(t.nodes[ks[0]])|);
  }

  /** `to_graphviz_iter(root, base)` writes nothing but the statements of the nodes below t. */
  lemma {:induction false} IterOnly(t: CardDrawTree, root: string, base: nat)
    ensures forall i :: 0 <= i < |SortedKeys(t.nodes.Keys)| ==> SortedKeys(t.nodes.Keys)[i] in t.nodes
    ensures OnlyNodes(t, root, base, SortedKeys(t.nodes.Keys), IterStatements(t, root, base))
    decreases t, 1
  {
    KeysInNodes(t);
    SortedKeysSpec(t.nodes.Keys);
    ChildrenOnly(t, root, base, SortedKeys(t.nodes.Keys));
  }

  lemma {:induction false} ChildrenOnly(t: CardDrawTree, root: string, base: nat, ks: seq<nat>)
    requires forall i :: 0 <= i < |ks| ==> ks[i] in t.nodes
    requires forall i, j :: 0 <= i < j < |ks| ==> ks[i] < ks[j]
    ensures OnlyNodes(t, root, base, ks, ChildrenStatements(t, root, base, ks))
    decreases t, 0, |ks|
  {
    if ks != [] {
      var child := t.nodes[ks[0]];
      IterOnly(child, NodeName(Text.NatToString(ks[0]), base + 1), base + 1);
      ChildrenOnly(t, root, base + 1 + |PreOrder(child)|, ks[1..]);
      forall st | st in ChildrenStatements(t, root, base, ks)
        ensures exists p :: Owns(t, root, base, ks, st, p)
      {
        OnlyAt(t, root, base, ks, st);
      }
    }
  }

  /** One statement of the children's export, from what the first child's and the later children's exports hold. */
  lemma {:induction false} OnlyAt(t: CardDrawTree, root: string, base: nat, ks: seq<nat>, st: Statement)
    requires ks != [] && (forall i :: 0 <= i < |ks| ==> ks[i] in t.nodes)
    requires forall i, j :: 0 <= i < j < |ks| ==> ks[i] < ks[j]
    requires forall i :: 0 <= i < |SortedKeys(t.nodes[ks[0]].nodes.Keys)| ==>
      SortedKeys(t.nodes[ks[0]].nodes.Keys)[i] in t.nodes[ks[0]].nodes
    requires OnlyNodes(t.nodes[ks[0]], NodeName(Text.NatToString(ks[0]), base + 1), base + 1,
                       SortedKeys(t.nodes[ks[0]].nodes.Keys),
                       IterStatements(t.nodes[ks[0]], NodeName(Text.NatToString(ks[0]), base + 1), base + 1))
    requires OnlyNodes(t, root, base + 1 + |PreOrder(t.nodes[ks[0]])|, ks[1..],
                       ChildrenStatements(t, root, base + 1 + |PreOrder(t.nodes[ks[0]])|, ks[1..]))
    requires st in ChildrenStatements(t, root, base, ks)
    ensures exists p :: Owns(t, root, base, ks, st, p)
  {
    var child := t.nodes[ks[0]];
    var name := NodeName(Text.NatToString(ks[0]), base + 1);
    InSomeChild(t, root, base, ks, st);
    if st in Head(child, root, Text.NatToString(ks[0]), base + 1) {
      OnlyHead(t, root, base, ks, st);
    } else if st in IterStatements(child, name, base + 1) {
      OnlyBelow(t, root, base, ks, st);
    } else {
      FirstNotInTail(ks);
      OnlyLater(t, root, base, ks, st);
    }
  }

  /** A statement of the first child's head is that child's declaration or edge. */
  lemma {:induction false} OnlyHead(t: CardDrawTree, root: string, base: nat, ks: seq<nat>, st: Statement)
    requires ks != [] && (forall i :: 0 <= i < |ks| ==> ks[i] in t.nodes)
    requires st in Head(t.nodes[ks[0]], root, Text.NatToString(ks[0]), base + 1)
    ensures exists p :: Owns(t, root, base, ks, st, p)
  {
    FirstNode(t, root, base, ks);
    assert [ks[0]][0] in ks;
    assert Owns(t, root, base, ks, st, [ks[0]]);
  }

  /** A statement of the first child's own export belongs to a node below that child. */
  lemma {:induction false} OnlyBelow(t: CardDrawTree, root: string, base: nat, ks: seq<nat>, st: Statement)
    requires ks != [] && (forall i :: 0 <= i < |ks| ==> ks[i] in t.nodes)
    requires forall i :: 0 <= i < |SortedKeys(t.nodes[ks[0]].nodes.Keys)| ==>
      SortedKeys(t.nodes[ks[0]].nodes.Keys)[i] in t.nodes[ks[0]].nodes
    requires OnlyNodes(t.nodes[ks[0]], NodeName(Text.NatToString(ks[0]), base + 1), base + 1,
                       SortedKeys(t.nodes[ks[0]].nodes.Keys),
                       IterStatements(t.nodes[ks[0]], NodeName(Text.NatToString(ks[0]), base + 1), base + 1))
    requires st in IterStatements(t.nodes[ks[0]], NodeName(Text.NatToString(ks[0]), base + 1), base + 1)
    ensures exists p :: Owns(t, root, base, ks, st, p)
  {
    var k := ks[0];
    var child := t.nodes[k];
    var name := NodeName(Text.NatToString(k), base + 1);
    var cks := SortedKeys(child.nodes.Keys);
    var q :| Owns(child, name, base + 1, cks, st, q);
    OwnsBelow(t, root, base, ks, st, q);
  }

  /** A statement a node owns below the first child, seen from the child, it owns among all the children. */
  lemma {:induction false} OwnsBelow(t: CardDrawTree, root: string, base: nat, ks: seq<nat>, st: Statement, q: seq<nat>)
    requires ks != [] && (forall i :: 0 <= i < |ks| ==> ks[i] in t.nodes)
    requires forall i :: 0 <= i < |SortedKeys(t.nodes[ks[0]].nodes.Keys)| ==>
      SortedKeys(t.nodes[ks[0]].nodes.Keys)[i] in t.nodes[ks[0]].nodes
    requires Owns(t.nodes[ks[0]], NodeName(Text.NatToString(ks[0]), base + 1), base + 1,
                  SortedKeys(t.nodes[ks[0]].nodes.Keys), st, q)
    ensures Owns(t, root, base, ks, st, [ks[0]] + q)
  {
    var p := [ks[0]] + q;
    assert p[0] == ks[0] && p[1..] == q;
    BelowFirstNode(t, root, base, ks, p);
  }

  /** A statement of the later children's export belongs to a node below a later child. */
  lemma {:induction false} OnlyLater(t: CardDrawTree, root: string, base: nat, ks: seq<nat>, st: Statement)
    requires ks != [] && (forall i :: 0 <= i < |ks| ==> ks[i] in t.nodes)
    requires ks[0] !in ks[1..]
    requires OnlyNodes(t, root, base + 1 + |PreOrder(t.nodes[ks[0]])|, ks[1..],
                       ChildrenStatements(t, root, base + 1 + |PreOrder(t.nodes[ks[0]])|, ks[1..]))
    requires st in ChildrenStatements(t, root, base + 1 + |PreOrder(t.nodes[ks[0]])|, ks[1..])
    ensures exists p :: Owns(t, root, base, ks, st, p)
  {
    var next := base + 1 + |PreOrder(t.nodes[ks[0]])|;
    var p :| Owns(t, root, next, ks[1..], st, p);
    OwnsLater(t, root, base, ks, st, p);
  }

  /** A statement a node owns among the later children it owns among all the children. */
  lemma {:induction false} OwnsLater(t: CardDrawTree, root: string, base: nat, ks: seq<nat>, st: Statement, p: seq<nat>)
    requires ks != [] && (forall i :: 0 <= i < |ks| ==> ks[i] in t.nodes)
    requires ks[0] !in ks[1..]
    requires Owns(t, root, base + 1 + |PreOrder(t.nodes[ks[0]])|, ks[1..], st, p)
    ensures Owns(t, root, base, ks, st, p)
  {
    FromTail(p[0], ks);
    LaterNode(t, root, base, ks, p);
  }

  /** The first child itself: the two statements of `a`. */
  lemma {:induction false} FirstNode(t: CardDrawTree, root: string, base: nat, ks: seq<nat>)
    requires ks != [] && (forall i :: 0 <= i < |ks| ==> ks[i] in t.nodes)
    ensures IsPath(t, [ks[0]])
    ensures Head(t.nodes[ks[0]], root, Text.NatToString(ks[0]), base + 1)
         == [EdgeIn(t, root, base, ks, [ks[0]]), DeclIn(t, base, ks, [ks[0]])]
  {
  }

  /** A node below the first child: its statements are those the child's own export gives it. */
  lemma {:induction false} BelowFirstNode(t: CardDrawTree, root: string, base: nat, ks: seq<nat>, p: seq<nat>)
    requires ks != [] && (forall i :: 0 <= i < |ks| ==> ks[i] in t.nodes)
    requires |p| > 1 && IsPath(t, p) && p[0] == ks[0]
    ensures p[1..] != [] && IsPath(t.nodes[ks[0]], p[1..])
    ensures forall i :: 0 <= i < |SortedKeys(t.nodes[ks[0]].nodes.Keys)| ==>
      SortedKeys(t.nodes[ks[0]].nodes.Keys)[i] in t.nodes[ks[0]].nodes
    ensures p[1..][0] in SortedKeys(t.nodes[ks[0]].nodes.Keys)
    ensures DeclIn(t, base, ks, p) == DeclIn(t.nodes[ks[0]], base + 1, SortedKeys(t.nodes[ks[0]].nodes.Keys), p[1..])
    ensures EdgeIn(t, root, base, ks, p)
         == EdgeIn(t.nodes[ks[0]], NodeName(Text.NatToString(ks[0]), base + 1), base + 1,
                   SortedKeys(t.nodes[ks[0]].nodes.Keys), p[1..])
  {
    var child := t.nodes[ks[0]];
    KeysInNodes(child);
    SortedKeysSpec(child.nodes.Keys);
  }

  /** The name and labels of a node below the first child, seen from the child. */
  lemma {:induction false} BelowFirstName(t: CardDrawTree, base: nat, ks: seq<nat>, p: seq<nat>)
    requires ks != [] && (forall i :: 0 <= i < |ks| ==> ks[i] in t.nodes)
    requires |p| > 1 && IsPath(t, p) && p[0] == ks[0]
    ensures p[1..] != [] && IsPath(t.nodes[ks[0]], p[1..])
    ensures NameIn(t, base, ks, p) == NodeName(CardText(p[1..]), Number(t.nodes[ks[0]], base + 1, p[1..]))
    ensures CardText(p) == CardText(p[1..]) && Subtree(t, p) == Subtree(t.nodes[ks[0]], p[1..])
  {
  }

  /** The source of the edge into a node below the first child, seen from the child. */
  lemma {:induction false} BelowFirstSource(t: CardDrawTree, root: string, base: nat, ks: seq<nat>, p: seq<nat>)
    requires ks != [] && (forall i :: 0 <= i < |ks| ==> ks[i] in t.nodes)
    requires |p| > 1 && IsPath(t, p) && p[0] == ks[0]
    ensures p[1..] != [] && IsPath(t.nodes[ks[0]], p[1..])
    ensures forall i :: 0 <= i < |SortedKeys(t.nodes[ks[0]].nodes.Keys)| ==>
      SortedKeys(t.nodes[ks[0]].nodes.Keys)[i] in t.nodes[ks[0]].nodes
    ensures p[1..][0] in SortedKeys(t.nodes[ks[0]].nodes.Keys)
    ensures SourceIn(t, root, base, ks, p)
         == SourceIn(t.nodes[ks[0]], NodeName(Text.NatToString(ks[0]), base + 1), base + 1,
                     SortedKeys(t.nodes[ks[0]].nodes.Keys), p[1..])
  {
    var k := ks[0];
    var child := t.nodes[k];
    var q := p[1..];
    KeysInNodes(child);
    SortedKeysSpec(child.nodes.Keys);
    if |p| > 2 {
      ParentIsPath(t, p);
      var parent := p[..|p| - 1];
      assert parent[0] == k && parent[1..] == q[..|q| - 1];
      BelowFirstName(t, base, ks, parent);
    } else {
      assert p[..|p| - 1] == [k];
    }
  }

  /** A node below a later child: its statements are those the later children's export gives it. */
  lemma {:induction false} LaterNode(t: CardDrawTree, root: string, base: nat, ks: seq<nat>, p: seq<nat>)
    requires ks != [] && (forall i :: 0 <= i < |ks| ==> ks[i] in t.nodes)
    requires p != [] && IsPath(t, p) && p[0] in ks && p[0] != ks[0]
    ensures p[0] in ks[1..]
    ensures DeclIn(t, base, ks, p) == DeclIn(t, base + 1 + |PreOrder(t.nodes[ks[0]])|, ks[1..], p)
    ensures EdgeIn(t, root, base, ks, p) == EdgeIn(t, root, base + 1 + |PreOrder(t.nodes[ks[0]])|, ks[1..], p)
  {
    InTail(p[0], ks);
  }

  /** The source of the edge into a node below a later child, seen from the later children. */
  lemma {:induction false} LaterSource(t: CardDrawTree, root: string, base: nat, ks: seq<nat>, p: seq<nat>)
    requires ks != [] && (forall i :: 0 <= i < |ks| ==> ks[i] in t.nodes)
    requires p != [] && IsPath(t, p) && p[0] in ks && p[0] != ks[0]
    ensures p[0] in ks[1..]
    ensures SourceIn(t, root, base, ks, p) == SourceIn(t, root, base + 1 + |PreOrder(t.nodes[ks[0]])|, ks[1..], p)
  {
    InTail(p[0], ks);
    if |p| > 1 {
      ParentIsPath(t, p);
      var parent := p[..|p| - 1];
      assert parent[0] == p[0];
      LaterName(t, base, ks, parent);
    }
  }

  /** The name of a node below a later child, seen from the later children. */
  lemma {:induction false} LaterName(t: CardDrawTree, base: nat, ks: seq<nat>, p: seq<nat>)
    requires ks != [] && (forall i :: 0 <= i < |ks| ==> ks[i] in t.nodes)
    requires p != [] && IsPath(t, p) && p[0] in ks && p[0] != ks[0]
    ensures p[0] in ks[1..]
    ensures NameIn(t, base, ks, p) == NameIn(t, base + 1 + |PreOrder(t.nodes[ks[0]])|, ks[1..], p)
  {
    InTail(p[0], ks);
  }

  // ---------------------------------------------------------------------------
  // Two statements per node, and distinct numbers

  lemma {:induction false} IterCount(t: CardDrawTree, root: string, base: nat)
    ensures |IterStatements(t, root, base)| == 2 * |PreOrder(t)|
    decreases t, 1
  {
    KeysInNodes(t);
    ChildrenCount(t, root, base, SortedKeys(t.nodes.Keys));
  }

  lemma {:induction false} ChildrenCount(t: CardDrawTree, root: string, base: nat, ks: seq<nat>)
    requires forall i :: 0 <= i < |ks| ==> ks[i] in t.nodes
    ensures |ChildrenStatements(t, root, base, ks)| == 2 * |PreOrderChildren(t, ks)|
    decreases t, 0, |ks|
  {
    if ks != [] {
      var child := t.nodes[ks[0]];
      var next := base + 1 + |PreOrder(child)|;
      IterCount(child, NodeName(Text.NatToString(ks[0]), base + 1), base + 1);
      ChildrenCount(t, root, next, ks[1..]);
      ChildrenSplit(t, root, base, ks, next);
    }
  }

  /** The numbers used below t run from base + 1 to base + the number of nodes. */
  lemma {:induction false} NumberRange(t: CardDrawTree, base: nat, p: seq<nat>)
    requires p != [] && IsPath(t, p)
    ensures base < Number(t, base, p) <= base + |PreOrder(t)|
    decreases t, 1
  {
    KeysInNodes(t);
    SortedKeysSpec(t.nodes.Keys);
    NumberInRange(t, base, SortedKeys(t.nodes.Keys), p);
  }

  lemma {:induction false} NumberInRange(t: CardDrawTree, base: nat, ks: seq<nat>, p: seq<nat>)
    requires forall i :: 0 <= i < |ks| ==> ks[i] in t.nodes
    requires p != [] && IsPath(t, p) && p[0] in ks
    ensures base < NumberIn(t, base, ks, p) <= base + |PreOrderChildren(t, ks)|
    decreases t, 0, |ks|
  {
    var child := t.nodes[ks[0]];
    var n := |PreOrder(child)|;
    assert |PreOrderChildren(t, ks)| == 1 + n + |PreOrderChildren(t, ks[1..])|;
    if p[0] == ks[0] {
      if |p| > 1 {
        NumberRange(child, base + 1, p[1..]);
      }
    } else {
      InTail(p[0], ks);
      NumberInRange(t, base + 1 + n, ks[1..], p);
    }
  }

  /** Different nodes get different numbers. */
  lemma {:induction false} NumberInjective(t: CardDrawTree, base: nat, p1: seq<nat>, p2: seq<nat>)
    requires p1 != [] && IsPath(t, p1) && p2 != [] && IsPath(t, p2) && p1 != p2
    ensures Number(t, base, p1) != Number(t, base, p2)
    decreases t, 1
  {
    KeysInNodes(t);
    SortedKeysSpec(t.nodes.Keys);
    NumberInInjective(t, base, SortedKeys(t.nodes.Keys), p1, p2);
  }

  lemma {:induction false} NumberInInjective(t: CardDrawTree, base: nat, ks: seq<nat>, p1: seq<nat>, p2: seq<nat>)
    requires forall i :: 0 <= i < |ks| ==> ks[i] in t.nodes
    requires p1 != [] && IsPath(t, p1) && p1[0] in ks
    requires p2 != [] && IsPath(t, p2) && p2[0] in ks
    requires p1 != p2
    ensures NumberIn(t, base, ks, p1) != NumberIn(t, base, ks, p2)
    decreases t, 0, |ks|
  {
    var k := ks[0];
    var child := t.nodes[k];
    var next := base + 1 + |PreOrder(child)|;
    if p1[0] == k && p2[0] == k {
      if |p1| > 1 && |p2| > 1 {
        assert p1[1..] != p2[1..] by {
          assert p1 == [k] + p1[1..] && p2 == [k] + p2[1..];
        }
        NumberInjective(child, base + 1, p1[1..], p2[1..]);
      } else if |p1| > 1 {
        NumberRange(child, base + 1, p1[1..]);
      } else if |p2| > 1 {
        NumberRange(child, base + 1, p2[1..]);
      }
    } else if p1[0] == k {
      FirstBelowNext(t, base, ks, p1);
      InTail(p2[0], ks);
      NumberInRange(t, next, ks[1..], p2);
    } else if p2[0] == k {
      FirstBelowNext(t, base, ks, p2);
      InTail(p1[0], ks);
      NumberInRange(t, next, ks[1..], p1);
    } else {
      InTail(p1[0], ks);
      InTail(p2[0], ks);
      NumberInInjective(t, next, ks[1..], p1, p2);
    }
  }

  /** The first child and its descendants use numbers up to base + 1 + its number of descendants. */
  lemma {:induction false} FirstBelowNext(t: CardDrawTree, base: nat, ks: seq<nat>, p: seq<nat>)
    requires ks != [] && (forall i :: 0 <= i < |ks| ==> ks[i] in t.nodes)
    requires p != [] && IsPath(t, p) && p[0] == ks[0]
    ensures NumberIn(t, base, ks, p) <= base + 1 + |PreOrder(t.nodes[ks[0]])|
  {
    if |p| > 1 {
      NumberRange(t.nodes[ks[0]], base + 1, p[1..]);
    }
  }

  // ---------------------------------------------------------------------------
  // Names

  /** Node names cannot clash: a card's text is all digits, so the underscore marks where the number starts. */
  lemma {:induction false} NodeNameInjective(card1: string, id1: nat, card2: string, id2: nat)
    requires forall i :: 0 <= i < |card1| ==> '0' <= card1[i] <= '9'
    requires forall i :: 0 <= i < |card2| ==> '0' <= card2[i] <= '9'
    requires NodeName(card1, id1) == NodeName(card2, id2)
    ensures card1 == card2 && id1 == id2
  {
    var s := NodeName(card1, id1);
    UnderscoreAfterDigits(card1, Text.NatToString(id1));
    UnderscoreAfterDigits(card2, Text.NatToString(id2));
    assert card1 == s[..|card1|] == card2;
    assert Text.NatToString(id1) == s[|card1| + 1..] == Text.NatToString(id2);
    Text.NatToStringInjective(id1, id2);
  }

  /** Where the first underscore of s stands (|s| when there is none). */
  function UnderscoreIndex(s: string): nat
  {
    if s == [] || s[0] == '_' then 0 else 1 + UnderscoreIndex(s[1..])
  }

  lemma {:induction false} UnderscoreAfterDigits(card: string, rest: string)
    requires forall i :: 0 <= i < |card| ==> '0' <= card[i] <= '9'
    ensures UnderscoreIndex(card + "_" + rest) == |card|
  {
    if card != [] {
      assert (card + "_" + rest)[1..] == card[1..] + "_" + rest;
      UnderscoreAfterDigits(card[1..], rest);
    } else {
      assert card + "_" + rest == "_" + rest;
    }
  }

  // ---------------------------------------------------------------------------
  // to_graphviz

  /**
   * `to_graphviz` writes, between its header and "}", the statements below the node "root"
   * numbered from 2: two per node of the tree ...
   */
  lemma {:induction false} GraphvizCount(t: CardDrawTree)
    ensures |IterStatements(t, Root, 1)| == 2 * |PreOrder(t)|
  {
    IterCount(t, Root, 1);
  }

  /** ... among them the declaration of every node and the edge into it ... */
  lemma {:induction false} GraphvizCovers(t: CardDrawTree)
    ensures forall p :: p != [] && IsPath(t, p) ==>
      Decl(t, 1, p) in IterStatements(t, Root, 1) && EdgeTo(t, Root, 1, p) in IterStatements(t, Root, 1)
  {
    IterCovers(t, Root, 1);
    KeysInNodes(t);
    SortedKeysSpec(t.nodes.Keys);
  }

  /** ... and nothing else. */
  lemma {:induction false} GraphvizOnly(t: CardDrawTree)
    ensures forall st :: st in IterStatements(t, Root, 1) ==>
      exists p :: p != [] && IsPath(t, p) && (st == Decl(t, 1, p) || st == EdgeTo(t, Root, 1, p))
  {
    IterOnly(t, Root, 1);
    forall st | st in IterStatements(t, Root, 1)
      ensures exists p :: p != [] && IsPath(t, p) && (st == Decl(t, 1, p) || st == EdgeTo(t, Root, 1, p))
    {
      var p :| Owns(t, Root, 1, SortedKeys(t.nodes.Keys), st, p);
      OwnsAtRoot(t, st, p);
    }
    assert forall st :: st in IterStatements(t, Root, 1) ==>
      exists p :: p != [] && IsPath(t, p) && (st == Decl(t, 1, p) || st == EdgeTo(t, Root, 1, p));
  }

  lemma {:induction false} OwnsAtRoot(t: CardDrawTree, st: Statement, p: seq<nat>)
    requires forall i :: 0 <= i < |SortedKeys(t.nodes.Keys)| ==> SortedKeys(t.nodes.Keys)[i] in t.nodes
    requires Owns(t, Root, 1, SortedKeys(t.nodes.Keys), st, p)
    ensures p != [] && IsPath(t, p) && (st == Decl(t, 1, p) || st == EdgeTo(t, Root, 1, p))
  {
  }

  /** The declaration of node p names it after its card and its number, labelled with its probability in the tree. */
  lemma {:induction false} GraphvizDeclaration(t: CardDrawTree, p: seq<nat>)
    requires p != [] && IsPath(t, p)
    ensures Decl(t, 1, p) == Declaration(Subtree(t, p), CardText(p), Number(t, 1, p))
  {
    KeysInNodes(t);
    SortedKeysSpec(t.nodes.Keys);
    DeclShape(t, 1, SortedKeys(t.nodes.Keys), p);
  }

  /** The edge into a child of the root starts at the root and carries the child's probability. */
  lemma {:induction false} GraphvizEdgeFromRoot(t: CardDrawTree, p: seq<nat>)
    requires |p| == 1 && IsPath(t, p)
    ensures EdgeTo(t, Root, 1, p) == EdgeInto(Subtree(t, p), Root, CardText(p), Number(t, 1, p))
  {
    KeysInNodes(t);
    SortedKeysSpec(t.nodes.Keys);
    EdgeShape(t, Root, 1, SortedKeys(t.nodes.Keys), p);
  }

  /** The edge into any deeper node starts at its parent's name and carries the node's own probability. */
  lemma {:induction false} GraphvizEdgeFromParent(t: CardDrawTree, p: seq<nat>)
    requires |p| > 1 && IsPath(t, p)
    ensures IsPath(t, p[..|p| - 1])
    ensures EdgeTo(t, Root, 1, p)
         == EdgeInto(Subtree(t, p), NodeName(CardText(p[..|p| - 1]), Number(t, 1, p[..|p| - 1])),
                     CardText(p), Number(t, 1, p))
  {
    KeysInNodes(t);
    SortedKeysSpec(t.nodes.Keys);
    ParentIsPath(t, p);
    EdgeShape(t, Root, 1, SortedKeys(t.nodes.Keys), p);
  }

  /** Every node gets a number of its own, from 2 up to 1 + the number of nodes, so no two share a name. */
  lemma {:induction false} GraphvizNamesDistinct(t: CardDrawTree, p1: seq<nat>, p2: seq<nat>)
    requires p1 != [] && IsPath(t, p1) && p2 != [] && IsPath(t, p2)
    ensures 2 <= Number(t, 1, p1) <= 1 + |PreOrder(t)|
    ensures p1 != p2 ==> NodeName(CardText(p1), Number(t, 1, p1)) != NodeName(CardText(p2), Number(t, 1, p2))
  {
    NumberRange(t, 1, p1);
    if p1 != p2 {
      NumberInjective(t, 1, p1, p2);
      if NodeName(CardText(p1), Number(t, 1, p1)) == NodeName(CardText(p2), Number(t, 1, p2)) {
        NodeNameInjective(CardText(p1), Number(t, 1, p1), CardText(p2), Number(t, 1, p2));
      }
    }
  }

  /** The export holds nothing between the root and "}" exactly when the tree has no children. */
  lemma {:induction false} GraphvizChildless(t: CardDrawTree)
    ensures Graphviz(t) == Header + "}" <==> IsEmpty(t)
  {
    var sts := IterStatements(t, Root, 1);
    if IsEmpty(t) {
      assert t.nodes.Keys == {};
      assert SortedKeys(t.nodes.Keys) == [];
      assert sts == ChildrenStatements(t, Root, 1, []) == [];
      assert Header + RenderAll(sts) == Header;
    } else {
      var k :| k in t.nodes;
      PreOrderNodes(t);
      assert IsPath(t, [k]) by {
        assert [k][1..] == [];
      }
      IterCount(t, Root, 1);
      assert |sts| > 0;
      assert |Render(sts[0])| > 0;
      assert |Graphviz(t)| > |Header + "}"|;
    }
  }
}
