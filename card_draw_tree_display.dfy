/**
 * `Display for CardDrawTree` of src/cards/card_draw_tree.rs: one entry per child in
 * ascending card order, `* {card} ({probability_in_tree})` followed by the child's own
 * rendering with a tab before each of its lines, the entries joined by line feeds.
 *
 * As written, a child without children renders as the empty string, so its entry ends in
 * a line feed, and the join puts a second line feed after it: leaf siblings are separated
 * by blank lines.  `Display` models the code as written and `LeafSiblingsLeaveBlankLine`
 * exhibits the blank line; `CorrectedDisplay` renders one line per node, and
 * `CorrectedDisplayLines` proves that its lines are the nodes in pre-order, each indented
 * by its depth.
 */
module CardDrawTreeDisplay {
  import opened Probabilities
  import Text
  import opened CardDrawTrees
  import opened CardDrawTreeText

  /** The text of one entry's first line: `* {card} ({probability_in_tree})`. */
  function EntryHead(card: nat, child: CardDrawTree): (s: string)
    ensures |s| > 2 && s[..2] == "* " && s[|s| - 1] == ')'
    ensures forall i :: 0 <= i < |s| ==> s[i] != '\n'
  {
    "* " + Text.NatToString(card) + " (" + ToString(child.probabilityInTree) + ")"
  }

  /** A head line names its card and its probability in the tree: no two differ only elsewhere. */
  lemma EntryHeadInjective(card: nat, child: CardDrawTree, card2: nat, child2: CardDrawTree)
    requires EntryHead(card, child) == EntryHead(card2, child2)
    ensures card == card2 && child.probabilityInTree == child2.probabilityInTree
  {
    HeadParts(Text.NatToString(card), ToString(child.probabilityInTree),
              Text.NatToString(card2), ToString(child2.probabilityInTree));
    Text.NatToStringInjective(card, card2);
    ToStringInjective(child.probabilityInTree, child2.probabilityInTree);
  }

  /** The digits and the bracketed text of a head line can be read back from it. */
  lemma HeadParts(a: string, p: string, a2: string, p2: string)
    requires Text.AllDigits(a) && Text.AllDigits(a2)
    requires "* " + a + " (" + p + ")" == "* " + a2 + " (" + p2 + ")"
    ensures a == a2 && p == p2
  {
    var s, s2 := "* " + a + " (" + p + ")", "* " + a2 + " (" + p2 + ")";
    var b, b2 := "(" + p + ")", "(" + p2 + ")";
    assert s[2..] == a + [' '] + b;
    assert s2[2..] == a2 + [' '] + b2;
    Text.DigitsThen(a, b, a2, b2, ' ');
    assert p == b[1..|b| - 1];
    assert p2 == b2[1..|b2| - 1];
  }

  /** Each line with a tab before it. */
  function Indented(lines: seq<string>): (r: seq<string>)
    ensures |r| == |lines|
    ensures forall i :: 0 <= i < |lines| ==> r[i] == "\t" + lines[i]
  {
    seq(|lines|, i requires 0 <= i < |lines| => "\t" + lines[i])
  }

  // ---------------------------------------------------------------------------
  // `Display`, as written

  /** `to_string()` of a tree: it opens with the entry of the least card, if any. */
  function Display(t: CardDrawTree): (s: string)
    ensures t.nodes != map[] ==>
      Opens(s, EntryHead(Minimum(t.nodes.Keys), t.nodes[Minimum(t.nodes.Keys)]) + "\n")
    decreases t, 1
  {
    KeysInNodes(t);
    var es := Entries(t, SortedKeys(t.nodes.Keys));
    if es == [] then Text.Join(es, "\n")
    else
      JoinStartsWith(es, "\n");
      Text.Join(es, "\n")
  }

  /** The text s begins with prefix. */
  predicate Opens(s: string, prefix: string)
  {
    |prefix| <= |s| && s[..|prefix|] == prefix
  }

  /** The entries of the children ks, in order: entry i opens with the head line of child ks[i]. */
  function Entries(t: CardDrawTree, ks: seq<nat>): (r: seq<string>)
    requires forall i :: 0 <= i < |ks| ==> ks[i] in t.nodes
    ensures |r| == |ks|
    ensures forall i :: 0 <= i < |ks| ==> Opens(r[i], EntryHead(ks[i], t.nodes[ks[i]]) + "\n")
    decreases t, 0, |ks|
  {
    if ks == [] then []
    else
      var head := EntryHead(ks[0], t.nodes[ks[0]]) + "\n";
      var body := Text.Join(Indented(Text.Lines(Display(t.nodes[ks[0]]))), "\n");
      OpensConcat(head, body);
      [head + body] + Entries(t, ks[1..])
  }

  /** A text opens with its first part. */
  lemma OpensConcat(prefix: string, rest: string)
    ensures Opens(prefix + rest, prefix)
  {
    assert (prefix + rest)[..|prefix|] == prefix;
  }

  /** The rendering is empty exactly for a tree without children. */
  lemma DisplayEmpty(t: CardDrawTree)
    ensures Display(t) == "" <==> IsEmpty(t)
  {
    if IsEmpty(t) {
      assert SortedKeys(t.nodes.Keys) == [];
    }
  }

  /** A join begins with its first part. */
  lemma JoinStartsWith(parts: seq<string>, sep: string)
    requires |parts| > 0
    ensures |Text.Join(parts, sep)| >= |parts[0]|
    ensures Text.Join(parts, sep)[..|parts[0]|] == parts[0]
  {
  }

  /** Two children without children of their own, each drawn with probability 1/2. */
  function TwoLeaves(): (t: CardDrawTree)
    ensures t.nodes.Keys == {1, 2}
  {
    var leaf := Node(Probabilities.New(1, 2), Probabilities.New(1, 2), map[]);
    Node(ONE, ONE, map[1 := leaf, 2 := leaf])
  }

  /**
   * As written, leaf siblings are separated by an empty line and the text ends in a line
   * feed: the entry of a leaf ends in "\n" before the join adds another.
   */
  lemma LeafSiblingsLeaveBlankLine()
    ensures Display(TwoLeaves()) == "* 1 (1/2)" + "\n" + "\n" + "* 2 (1/2)" + "\n"
    ensures Text.Lines(Display(TwoLeaves())) == ["* 1 (1/2)", "", "* 2 (1/2)"]
  {
    DisplayTwoLeaves();
    HeadsHaveNoLineFeed();
    BlankLineSplit("* 1 (1/2)", "* 2 (1/2)");
  }

  lemma HeadsHaveNoLineFeed()
    ensures '\n' !in "* 1 (1/2)" && '\n' !in "* 2 (1/2)"
  {
  }

  lemma DisplayTwoLeaves()
    ensures Display(TwoLeaves()) == "* 1 (1/2)" + "\n" + "\n" + "* 2 (1/2)" + "\n"
  {
    var t := TwoLeaves();
    TwoKeys(t.nodes.Keys);
    assert Display(t) == Text.Join(Entries(t, [1, 2]), "\n");
    TwoLeafEntries();
    var es := ["* 1 (1/2)" + "\n", "* 2 (1/2)" + "\n"];
    assert es[1..] == ["* 2 (1/2)" + "\n"];
  }

  lemma TwoLeafEntries()
    ensures Entries(TwoLeaves(), [1, 2]) == ["* 1 (1/2)" + "\n", "* 2 (1/2)" + "\n"]
  {
    var t := TwoLeaves();
    LeafHeads(t);
    LeafEntries(t, [1, 2]);
    var es := Entries(t, [1, 2]);
    assert es[0] == "* 1 (1/2)" + "\n" && es[1] == "* 2 (1/2)" + "\n";
  }

  /**
   * `str::lines` on two lines with an empty line between them and a final line feed: the
   * empty line is kept, the final line feed starts no line.
   */
  lemma BlankLineSplit(a: string, b: string)
    requires a != "" && '\n' !in a && '\n' !in b
    ensures Text.Lines(a + "\n" + "\n" + b + "\n") == [a, "", b]
  {
    var rest := "\n\n" + b + "\n";
    assert a + "\n" + "\n" + b + "\n" == a + rest;
    SplitPiece(a, rest, "");
    assert "" + a == a;
    assert rest[1..] == "\n" + b + "\n";
    assert ("\n" + b + "\n")[1..] == b + "\n";
    SplitPiece(b, "\n", "");
    assert "" + b == b;
  }

  /** Characters other than line feeds only extend the current line. */
  lemma {:induction false} SplitPiece(a: string, rest: string, current: string)
    requires '\n' !in a
    ensures Text.SplitLines(a + rest, current) == Text.SplitLines(rest, current + a)
    decreases |a|
  {
    if a != "" {
      assert a[0] in a;
      assert (a + rest)[0] == a[0] && (a + rest)[1..] == a[1..] + rest;
      assert forall c :: c in a[1..] ==> c in a;
      SplitPiece(a[1..], rest, current + [a[0]]);
      assert current + [a[0]] + a[1..] == current + a;
    } else {
      assert a + rest == rest && current + a == current;
    }
  }

  /** The head lines of the two leaves. */
  lemma LeafHeads(t: CardDrawTree)
    requires t == TwoLeaves()
    ensures IsEmpty(t.nodes[1]) && IsEmpty(t.nodes[2])
    ensures EntryHead(1, t.nodes[1]) == "* 1 (1/2)" && EntryHead(2, t.nodes[2]) == "* 2 (1/2)"
  {
    Examples();
    assert ToString(t.nodes[1].probabilityInTree) == "1/2";
  }

  /** Children without children have entries that are their head line and a line feed. */
  lemma {:induction false} LeafEntries(t: CardDrawTree, ks: seq<nat>)
    requires forall i :: 0 <= i < |ks| ==> ks[i] in t.nodes && IsEmpty(t.nodes[ks[i]])
    ensures forall i :: 0 <= i < |ks| ==> Entries(t, ks)[i] == EntryHead(ks[i], t.nodes[ks[i]]) + "\n"
    decreases |ks|
  {
    if ks != [] {
      LeafDisplay(t.nodes[ks[0]]);
      LeafEntries(t, ks[1..]);
    }
  }

  /** A leaf renders as the empty string. */
  lemma LeafDisplay(t: CardDrawTree)
    requires IsEmpty(t)
    ensures Display(t) == ""
    ensures Text.Join(Indented(Text.Lines(Display(t))), "\n") == ""
  {
    DisplayEmpty(t);
  }

  lemma TwoKeys(s: set<nat>)
    requires s == {1, 2}
    ensures SortedKeys(s) == [1, 2]
  {
    SortedKeysSpec(s);
    var ks := SortedKeys(s);
    assert ks[0] in s && ks[1] in s;
  }

  // ---------------------------------------------------------------------------
  // The rendering as evidently intended: one line per node

  /** The lines: each child's head line, then the child's lines indented by a tab. */
  function DisplayLines(t: CardDrawTree): seq<string>
    decreases t, 1
  {
    KeysInNodes(t);
    ChildrenLines(t, SortedKeys(t.nodes.Keys))
  }

  function ChildrenLines(t: CardDrawTree, ks: seq<nat>): seq<string>
    requires forall i :: 0 <= i < |ks| ==> ks[i] in t.nodes
    decreases t, 0, |ks|
  {
    if ks == [] then []
    else
      var child := t.nodes[ks[0]];
      [EntryHead(ks[0], child)] + Indented(DisplayLines(child)) + ChildrenLines(t, ks[1..])
  }

  /** The corrected `Display`: the lines joined by line feeds, with no blank line between them. */
  function CorrectedDisplay(t: CardDrawTree): string
  {
    Text.Join(DisplayLines(t), "\n")
  }

  /** A run of n tabs. */
  function Tabs(n: nat): (s: string)
    ensures |s| == n
  {
    if n == 0 then "" else "\t" + Tabs(n - 1)
  }

  /** The line of the node a non-empty path leads to: its depth in tabs, then its head. */
  function NodeLine(t: CardDrawTree, p: seq<nat>): string
    requires p != [] && IsPath(t, p)
  {
    Tabs(|p| - 1) + EntryHead(p[|p| - 1], Subtree(t, p))
  }

  /** The corrected rendering has one line per node below the root, in pre-order. */
  lemma {:induction false} CorrectedDisplayLines(t: CardDrawTree)
    ensures |DisplayLines(t)| == |PreOrder(t)|
    ensures forall i :: 0 <= i < |PreOrder(t)| ==>
      PreOrder(t)[i] != [] && IsPath(t, PreOrder(t)[i]) && DisplayLines(t)[i] == NodeLine(t, PreOrder(t)[i])
    decreases t, 1
  {
    KeysInNodes(t);
    ChildrenLinesShape(t, SortedKeys(t.nodes.Keys));
  }

  lemma {:induction false} ChildrenLinesShape(t: CardDrawTree, ks: seq<nat>)
    requires forall i :: 0 <= i < |ks| ==> ks[i] in t.nodes
    ensures |ChildrenLines(t, ks)| == |PreOrderChildren(t, ks)|
    ensures forall i :: 0 <= i < |PreOrderChildren(t, ks)| ==>
      PreOrderChildren(t, ks)[i] != [] && IsPath(t, PreOrderChildren(t, ks)[i])
      && ChildrenLines(t, ks)[i] == NodeLine(t, PreOrderChildren(t, ks)[i])
    decreases t, 0, |ks|
  {
    if ks != [] {
      var k := ks[0];
      var child := t.nodes[k];
      CorrectedDisplayLines(child);
      ChildrenLinesShape(t, ks[1..]);
      var below := Prefixed(k, PreOrder(child));
      var lines := Indented(DisplayLines(child));
      HeadLine(t, k);
      LinesBelow(t, k);
      SplitThree(ChildrenLines(t, ks), [EntryHead(k, child)], lines, ChildrenLines(t, ks[1..]),
                 PreOrderChildren(t, ks), [[k]], below, PreOrderChildren(t, ks[1..]), t);
    }
  }

  /** The child k's own line is its head, without a tab. */
  lemma HeadLine(t: CardDrawTree, k: nat)
    requires k in t.nodes
    ensures IsPath(t, [k]) && NodeLine(t, [k]) == EntryHead(k, t.nodes[k])
  {
    assert [k][1..] == [];
    assert Subtree(t, [k]) == Subtree(t.nodes[k], []) == t.nodes[k];
    assert Tabs(0) == "";
  }

  /** The child k's indented lines are the lines of the nodes below it, in pre-order. */
  lemma LinesBelow(t: CardDrawTree, k: nat)
    requires k in t.nodes
    requires |DisplayLines(t.nodes[k])| == |PreOrder(t.nodes[k])|
    requires forall i :: 0 <= i < |PreOrder(t.nodes[k])| ==>
      PreOrder(t.nodes[k])[i] != [] && IsPath(t.nodes[k], PreOrder(t.nodes[k])[i])
      && DisplayLines(t.nodes[k])[i] == NodeLine(t.nodes[k], PreOrder(t.nodes[k])[i])
    ensures forall j :: 0 <= j < |PreOrder(t.nodes[k])| ==>
      Prefixed(k, PreOrder(t.nodes[k]))[j] != [] && IsPath(t, Prefixed(k, PreOrder(t.nodes[k]))[j])
      && Indented(DisplayLines(t.nodes[k]))[j] == NodeLine(t, Prefixed(k, PreOrder(t.nodes[k]))[j])
  {
    var child := t.nodes[k];
    var below := Prefixed(k, PreOrder(child));
    var lines := Indented(DisplayLines(child));
    forall j | 0 <= j < |PreOrder(child)|
      ensures below[j] != [] && IsPath(t, below[j]) && lines[j] == NodeLine(t, below[j])
    {
      LineBelow(t, k, PreOrder(child)[j]);
    }
  }

  /** A node below the child k has the child's line for it, one tab deeper. */
  lemma LineBelow(t: CardDrawTree, k: nat, q: seq<nat>)
    requires k in t.nodes && q != [] && IsPath(t.nodes[k], q)
    ensures IsPath(t, [k] + q)
    ensures NodeLine(t, [k] + q) == "\t" + NodeLine(t.nodes[k], q)
  {
    var p := [k] + q;
    assert p[1..] == q;
    assert p[|p| - 1] == q[|q| - 1];
  }

  /** Three corresponding parts make corresponding wholes. */
  lemma SplitThree(lines: seq<string>, a: seq<string>, b: seq<string>, c: seq<string>,
                   paths: seq<seq<nat>>, pa: seq<seq<nat>>, pb: seq<seq<nat>>, pc: seq<seq<nat>>,
                   t: CardDrawTree)
    requires lines == a + b + c && paths == pa + pb + pc
    requires |a| == |pa| && |b| == |pb| && |c| == |pc|
    requires forall i :: 0 <= i < |pa| ==> pa[i] != [] && IsPath(t, pa[i]) && a[i] == NodeLine(t, pa[i])
    requires forall i :: 0 <= i < |pb| ==> pb[i] != [] && IsPath(t, pb[i]) && b[i] == NodeLine(t, pb[i])
    requires forall i :: 0 <= i < |pc| ==> pc[i] != [] && IsPath(t, pc[i]) && c[i] == NodeLine(t, pc[i])
    ensures |lines| == |paths|
    ensures forall i :: 0 <= i < |paths| ==> paths[i] != [] && IsPath(t, paths[i]) && lines[i] == NodeLine(t, paths[i])
  {
    forall i | 0 <= i < |paths|
      ensures paths[i] != [] && IsPath(t, paths[i]) && lines[i] == NodeLine(t, paths[i])
    {
      if i < |pa| {
        assert paths[i] == pa[i] && lines[i] == a[i];
      } else if i < |pa| + |pb| {
        assert paths[i] == pb[i - |pa|] && lines[i] == b[i - |pa|];
      } else {
        assert paths[i] == pc[i - |pa| - |pb|] && lines[i] == c[i - |pa| - |pb|];
      }
    }
  }

  /** On the two leaves the corrected rendering has no blank line and no final line feed. */
  lemma CorrectedTwoLeaves()
    ensures CorrectedDisplay(TwoLeaves()) == "* 1 (1/2)" + "\n" + "* 2 (1/2)"
  {
    TwoLeafLines();
    var ls := ["* 1 (1/2)", "* 2 (1/2)"];
    assert ls[1..] == ["* 2 (1/2)"];
  }

  lemma TwoLeafLines()
    ensures DisplayLines(TwoLeaves()) == ["* 1 (1/2)", "* 2 (1/2)"]
  {
    var t := TwoLeaves();
    TwoKeys(t.nodes.Keys);
    LeafHeads(t);
    EmptyLines(t.nodes[1]);
    EmptyLines(t.nodes[2]);
    assert [1, 2][1..] == [2] && [2][1..] == [];
    assert ChildrenLines(t, [2]) == ["* 2 (1/2)"];
  }

  /** A node without children renders no lines. */
  lemma EmptyLines(t: CardDrawTree)
    requires IsEmpty(t)
    ensures DisplayLines(t) == []
  {
    SortedKeysSpec(t.nodes.Keys);
  }
}
