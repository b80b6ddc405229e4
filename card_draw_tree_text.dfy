/**
 * The Graphviz rendering of src/cards/card_draw_tree.rs: `to_graphviz` (with its helpers
 * `to_graphviz_sub` and `to_graphviz_iter`).  It walks the tree in pre-order, children in
 * ascending card order; `PreOrder` is that walk, stated once and shown to list every node
 * below the root exactly once.  `Display` walks the same order and is modelled in
 * CardDrawTreeDisplay.
 */
module CardDrawTreeText {
  import opened Rationals
  import opened Probabilities
  import Text
  import opened CardDrawTrees

  // ---------------------------------------------------------------------------
  // The nodes below the root, in pre-order

  /** The paths ps, each below the card k. */
  function Prefixed(k: nat, ps: seq<seq<nat>>): (r: seq<seq<nat>>)
    ensures |r| == |ps|
    ensures forall i :: 0 <= i < |ps| ==> r[i] == [k] + ps[i]
  {
    seq(|ps|, i requires 0 <= i < |ps| => [k] + ps[i])
  }

  /**
   * The paths of all nodes below t, each node before its children and the children in
   * ascending card order: the order in which both renderings visit the tree.
   */
  function PreOrder(t: CardDrawTree): seq<seq<nat>>
    decreases t, 1
  {
    KeysInNodes(t);
    PreOrderChildren(t, SortedKeys(t.nodes.Keys))
  }

  function PreOrderChildren(t: CardDrawTree, ks: seq<nat>): seq<seq<nat>>
    requires forall i :: 0 <= i < |ks| ==> ks[i] in t.nodes
    decreases t, 0, |ks|
  {
    if ks == [] then []
    else [[ks[0]]] + Prefixed(ks[0], PreOrder(t.nodes[ks[0]])) + PreOrderChildren(t, ks[1..])
  }

  /** No element occurs twice. */
  ghost predicate Distinct<T>(s: seq<T>)
  {
    forall i, j :: 0 <= i < j < |s| ==> s[i] != s[j]
  }

  /** PreOrder lists exactly the nodes below the root (the non-empty paths), each once. */
  lemma {:induction false} PreOrderNodes(t: CardDrawTree)
    ensures forall p :: p in PreOrder(t) <==> p != [] && IsPath(t, p)
    ensures Distinct(PreOrder(t))
    decreases t, 1
  {
    var ks := SortedKeys(t.nodes.Keys);
    SortedKeysSpec(t.nodes.Keys);
    KeysInNodes(t);
    PreOrderChildrenNodes(t, ks);
    forall p | p != [] && IsPath(t, p) ensures p[0] in ks {
    }
  }

  lemma {:induction false} PreOrderChildrenNodes(t: CardDrawTree, ks: seq<nat>)
    requires forall i :: 0 <= i < |ks| ==> ks[i] in t.nodes
    requires Distinct(ks)
    ensures forall p :: p in PreOrderChildren(t, ks) <==> p != [] && p[0] in ks && IsPath(t, p)
    ensures Distinct(PreOrderChildren(t, ks))
    decreases t, 0, |ks|
  {
    if ks != [] {
      var k := ks[0];
      var child := t.nodes[k];
      var below := Prefixed(k, PreOrder(child));
      var rest := PreOrderChildren(t, ks[1..]);
      PreOrderNodes(child);
      PreOrderChildrenNodes(t, ks[1..]);
      var all := PreOrderChildren(t, ks);
      assert all == [[k]] + below + rest;
      PrefixedNodes(t, k);
      forall p ensures p in all <==> p != [] && p[0] in ks && IsPath(t, p) {
        MemberAppend3(p, [[k]], below, rest);
        if p != [] && p[0] in ks && IsPath(t, p) {
          if p[0] != k {
            var i :| 0 <= i < |ks| && ks[i] == p[0];
            assert ks[1..][i - 1] == p[0];
            assert p in rest;
          } else if |p| == 1 {
            assert p == [k];
          } else {
            assert p in below;
          }
        }
        if p in rest {
          assert p[0] in ks[1..];
        }
      }
      forall p | p in rest ensures p !in [[k]] + below {
        var i :| 1 <= i < |ks| && ks[i] == p[0];
        MemberAppend3(p, [[k]], below, []);
      }
      DistinctPrefixed(k, PreOrder(child));
      DistinctAppend([[k]], below);
      DistinctAppend([[k]] + below, rest);
    }
  }

  /** The nodes below child k are the paths through k that go deeper than k. */
  lemma PrefixedNodes(t: CardDrawTree, k: nat)
    requires k in t.nodes
    requires forall q :: q in PreOrder(t.nodes[k]) <==> q != [] && IsPath(t.nodes[k], q)
    ensures forall p :: p in Prefixed(k, PreOrder(t.nodes[k])) <==> p != [] && p[0] == k && |p| > 1 && IsPath(t, p)
  {
    var child := t.nodes[k];
    var below := Prefixed(k, PreOrder(child));
    forall p | p in below ensures p != [] && p[0] == k && |p| > 1 && IsPath(t, p) {
      var i :| 0 <= i < |below| && below[i] == p;
      var q := PreOrder(child)[i];
      assert q in PreOrder(child);
      assert p == [k] + q && p[1..] == q;
    }
    forall p | p != [] && p[0] == k && |p| > 1 && IsPath(t, p) ensures p in below {
      var q := p[1..];
      assert q in PreOrder(child);
      var i :| 0 <= i < |PreOrder(child)| && PreOrder(child)[i] == q;
      assert below[i] == [k] + q == p;
    }
  }

  lemma MemberAppend3<T>(x: T, a: seq<T>, b: seq<T>, c: seq<T>)
    ensures x in a + b + c <==> x in a || x in b || x in c
  {
  }

  lemma DistinctPrefixed(k: nat, ps: seq<seq<nat>>)
    requires Distinct(ps)
    ensures Distinct(Prefixed(k, ps))
  {
    forall i, j | 0 <= i < j < |ps| ensures Prefixed(k, ps)[i] != Prefixed(k, ps)[j] {
      assert Prefixed(k, ps)[i][1..] == ps[i] && Prefixed(k, ps)[j][1..] == ps[j];
    }
  }

  lemma DistinctAppend<T>(a: seq<T>, b: seq<T>)
    requires Distinct(a) && Distinct(b)
    requires forall x :: x in a ==> x !in b
    ensures Distinct(a + b)
  {
    forall i, j | 0 <= i < j < |a + b| ensures (a + b)[i] != (a + b)[j] {
      if i < |a| && j >= |a| {
        assert (a + b)[i] in a && (a + b)[j] == b[j - |a|];
      }
    }
  }

  // ---------------------------------------------------------------------------
  // to_graphviz

  /** `GRAPHVIZ_PREFIX`, put in front of every node id. */
  const Prefix: string := "_"

  /** The two kinds of statement the export writes below its header. */
  datatype Statement =
    | Edge(source: string, target: string, caption: string)
    | NodeDecl(name: string, caption: string)

  /** One statement as one line of DOT text. */
  function Render(st: Statement): string
  {
    match st
    case Edge(source, target, caption) =>
      Prefix + source + "->" + Prefix + target + "[label=\"" + caption + "\"];\n"
    case NodeDecl(name, caption) =>
      Prefix + name + "[label=\"" + caption + "\"];\n"
  }

  function RenderAll(sts: seq<Statement>): string
  {
    if sts == [] then "" else Render(sts[0]) + RenderAll(sts[1..])
  }

  lemma {:induction false} RenderAppend(a: seq<Statement>, b: seq<Statement>)
    ensures RenderAll(a + b) == RenderAll(a) + RenderAll(b)
  {
    if a == [] {
      assert a + b == b;
    } else {
      assert (a + b)[0] == a[0] && (a + b)[1..] == a[1..] + b;
      RenderAppend(a[1..], b);
    }
  }

  /** The id of a node: its card's text, an underscore and its number. */
  function NodeName(card: string, id: nat): string
  {
    card + "_" + Text.NatToString(id)
  }

  /** The card text of the node a non-empty path leads to. */
  function CardText(p: seq<nat>): string
    requires p != []
  {
    Text.NatToString(p[|p| - 1])
  }

  /** The text before any statement: the digraph's opening and the synthetic root. */
  const Header: string := "digraph {\n" + Prefix + "root[label=\"\", shape=\"circle\"];\n"

  /**
   * The two lines `to_graphviz_sub(root, card, id)` writes for the node itself: the edge
   * from `root`, labelled with the node's own probability, and the node's declaration,
   * labelled "card (probability in tree)".
   */
  function Head(t: CardDrawTree, root: string, card: string, id: nat): seq<Statement>
  {
    [EdgeInto(t, root, card, id), Declaration(t, card, id)]
  }

  /** The edge into the node named after card and id: from `root`, labelled with the node's own probability. */
  function EdgeInto(t: CardDrawTree, root: string, card: string, id: nat): Statement
  {
    Edge(root, NodeName(card, id), ToString(t.probability))
  }

  /** The declaration of the node named after card and id, labelled "card (probability in tree)". */
  function Declaration(t: CardDrawTree, card: string, id: nat): Statement
  {
    NodeDecl(NodeName(card, id), card + " (" + ToString(t.probabilityInTree) + ")")
  }

  /** `to_graphviz_sub(root, card, id)`: the node's two lines, then its children numbered from id + 1. */
  function SubStatements(t: CardDrawTree, root: string, card: string, id: nat): seq<Statement>
    decreases t, 2
  {
    Head(t, root, card, id) + IterStatements(t, NodeName(card, id), id)
  }

  /**
   * `to_graphviz_iter(root, id)`: the children in ascending card order, the first numbered
   * id + 1, each next one numbered one past the last id its predecessor used.
   */
  function IterStatements(t: CardDrawTree, root: string, id: nat): seq<Statement>
    decreases t, 1
  {
    KeysInNodes(t);
    ChildrenStatements(t, root, id, SortedKeys(t.nodes.Keys))
  }

  function ChildrenStatements(t: CardDrawTree, root: string, id: nat, ks: seq<nat>): seq<Statement>
    requires forall i :: 0 <= i < |ks| ==> ks[i] in t.nodes
    decreases t, 0, |ks|
  {
    if ks == [] then []
    else
      var child := t.nodes[ks[0]];
      SubStatements(child, root, Text.NatToString(ks[0]), id + 1)
      + ChildrenStatements(t, root, id + 1 + |PreOrder(child)|, ks[1..])
  }

  /** The id of the synthetic root node, which the header declares. */
  const Root: string := "root"

  /** `to_graphviz()`: the header, the statements below the node "root" numbered from 2, "}". */
  function Graphviz(t: CardDrawTree): (s: string)
    ensures |Header| < |s| && s[..|Header|] == Header && s[|s| - 1] == '}'
  {
    Header + RenderAll(IterStatements(t, Root, 1)) + "}"
  }

  /** `to_graphviz_sub`, building its text with `write!` and `push_str`. */
  method ToGraphvizSub(t: CardDrawTree, root: string, card: string, id: nat)
    returns (result: string, newId: nat)
    ensures result == RenderAll(SubStatements(t, root, card, id))
    ensures newId == id + |PreOrder(t)|
    decreases t, 2
  {
    var newRoot := NodeName(card, id);
    result := RenderAll(Head(t, root, card, id));
    var subtree;
    subtree, newId := ToGraphvizIter(t, newRoot, id);
    result := result + subtree;
    RenderAppend(Head(t, root, card, id), IterStatements(t, newRoot, id));
  }

  /**
   * `to_graphviz_iter`: a loop over the children in ascending card order that threads the
   * counter `newId` and appends each child's text to `result`.
   */
  method ToGraphvizIter(t: CardDrawTree, root: string, id: nat) returns (result: string, newId: nat)
    ensures result == RenderAll(IterStatements(t, root, id))
    ensures newId == id + |PreOrder(t)|
    decreases t, 1
  {
    result := "";
    newId := id;
    var keys := SortedKeys(t.nodes.Keys);
    KeysInNodes(t);
    ghost var total := RenderAll(IterStatements(t, root, id));
    assert total == RenderAll(ChildrenStatements(t, root, id, keys));
    assert |PreOrder(t)| == |PreOrderChildren(t, keys)|;
    EmptyConcat(total);
    while keys != []
      invariant forall j :: 0 <= j < |keys| ==> keys[j] in t.nodes
      invariant result + RenderAll(ChildrenStatements(t, root, newId, keys)) == total
      invariant newId + |PreOrderChildren(t, keys)| == id + |PreOrder(t)|
      decreases |keys|
    {
      result, newId := ToGraphvizChild(t, root, newId, keys, result);
      keys := keys[1..];
    }
    assert ChildrenStatements(t, root, newId, keys) == [] && PreOrderChildren(t, keys) == [];
  }

  lemma EmptyConcat(a: string)
    ensures "" + a == a
  {
  }

  /**
   * One turn of `to_graphviz_iter`'s loop: `to_graphviz_sub` on the first child of keys,
   * numbered one past id, and its text appended to what is written.
   */
  method ToGraphvizChild(t: CardDrawTree, root: string, id: nat, keys: seq<nat>, done: string)
    returns (result: string, newId: nat)
    requires forall j :: 0 <= j < |keys| ==> keys[j] in t.nodes
    requires keys != []
    ensures result + RenderAll(ChildrenStatements(t, root, newId, keys[1..]))
         == done + RenderAll(ChildrenStatements(t, root, id, keys))
    ensures |PreOrderChildren(t, keys)| == newId - id + |PreOrderChildren(t, keys[1..])|
    decreases t, 0
  {
    var graphviz;
    graphviz, newId := ToGraphvizSub(t.nodes[keys[0]], root, Text.NatToString(keys[0]), id + 1);
    IterStep(t, root, id, keys, done, graphviz, newId, done + RenderAll(ChildrenStatements(t, root, id, keys)));
    result := done + graphviz;
  }

  /** Moving the next piece of text from what is left to write to what is written. */
  lemma ConcatShift(done: string, piece: string, rest: string, todo: string, total: string)
    requires done + todo == total && todo == piece + rest
    ensures (done + piece) + rest == total
  {
    assert done + (piece + rest) == (done + piece) + rest;
  }

  /**
   * One turn of `to_graphviz_iter`'s loop: the text of the first child is written, and the
   * ids of its nodes are used up.
   */
  lemma IterStep(t: CardDrawTree, root: string, id: nat, keys: seq<nat>,
                 done: string, text: string, lastId: nat, total: string)
    requires forall j :: 0 <= j < |keys| ==> keys[j] in t.nodes
    requires keys != []
    requires done + RenderAll(ChildrenStatements(t, root, id, keys)) == total
    requires text == RenderAll(SubStatements(t.nodes[keys[0]], root, Text.NatToString(keys[0]), id + 1))
    requires lastId == id + 1 + |PreOrder(t.nodes[keys[0]])|
    ensures (done + text) + RenderAll(ChildrenStatements(t, root, lastId, keys[1..])) == total
    ensures |PreOrderChildren(t, keys)| == lastId - id + |PreOrderChildren(t, keys[1..])|
  {
    var a := SubStatements(t.nodes[keys[0]], root, Text.NatToString(keys[0]), id + 1);
    var b := ChildrenStatements(t, root, lastId, keys[1..]);
    ChildrenSplit(t, root, id, keys, lastId);
    RenderSplit(ChildrenStatements(t, root, id, keys), a, b, text);
    ConcatShift(done, text, RenderAll(b), RenderAll(ChildrenStatements(t, root, id, keys)), total);
  }

  /** The statements of the children: those of the first child, then those of the others. */
  lemma ChildrenSplit(t: CardDrawTree, root: string, id: nat, keys: seq<nat>, lastId: nat)
    requires forall j :: 0 <= j < |keys| ==> keys[j] in t.nodes
    requires keys != []
    requires lastId == id + 1 + |PreOrder(t.nodes[keys[0]])|
    ensures ChildrenStatements(t, root, id, keys)
         == SubStatements(t.nodes[keys[0]], root, Text.NatToString(keys[0]), id + 1)
            + ChildrenStatements(t, root, lastId, keys[1..])
    ensures |PreOrderChildren(t, keys)| == lastId - id + |PreOrderChildren(t, keys[1..])|
  {
    PreOrderChildrenSplit(t, keys);
  }

  lemma PreOrderChildrenSplit(t: CardDrawTree, keys: seq<nat>)
    requires forall j :: 0 <= j < |keys| ==> keys[j] in t.nodes
    requires keys != []
    ensures |PreOrderChildren(t, keys)| == 1 + |PreOrder(t.nodes[keys[0]])| + |PreOrderChildren(t, keys[1..])|
  {
  }

  lemma RenderSplit(all: seq<Statement>, a: seq<Statement>, b: seq<Statement>, text: string)
    requires all == a + b && text == RenderAll(a)
    ensures RenderAll(all) == text + RenderAll(b)
  {
    RenderAppend(a, b);
  }

  /** `to_graphviz`. */
  method ToGraphviz(t: CardDrawTree) returns (result: string)
    ensures result == Graphviz(t)
  {
    result := Header;
    var subtree, _ := ToGraphvizIter(t, Root, 1);
    result := result + subtree;
    result := result + "}";
  }
}
