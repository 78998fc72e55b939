/** The scene-tree logger: a node, its component names and its children are
    rendered as an indented text tree, one line per node.  The stream the
    renderer appends to is modelled as the sequence of lines it writes; each
    line is followed by a newline in the file. */
module Logger {
  import opened Common

  /** What the renderer sees of a node: its name, the names of its
      components in the order the node lists them, and its children. */
  datatype Tree = Tree(name: string, components: seq<string>, children: seq<Tree>)

  /** The nodes of a subtree in preorder: the node first, then each child's subtree in order. */
  function Preorder(t: Tree): (r: seq<Tree>)
    ensures |r| >= 1 && r[0] == t
    decreases t, 1
  {
    [t] + PreorderAll(t.children)
  }

  function PreorderAll(ts: seq<Tree>): (r: seq<Tree>)
    decreases ts, 0
  {
    if |ts| == 0 then [] else Preorder(ts[0]) + PreorderAll(ts[1..])
  }

  predicate StartsWith(line: string, p: string)
  {
    |p| <= |line| && line[..|p|] == p
  }

  predicate EndsWith(line: string, s: string)
  {
    |s| <= |line| && line[|line| - |s|..] == s
  }

  function Sum(ns: seq<string>): nat
  {
    if |ns| == 0 then 0 else Sum(ns[..|ns| - 1]) + |ns[|ns| - 1]|
  }

  /** Component names separated by `", "`. */
  function Joined(ns: seq<string>): (r: string)
    ensures |ns| > 0 ==> |r| == Sum(ns) + 2 * (|ns| - 1)
    ensures |ns| > 0 ==> StartsWith(r, ns[0]) && EndsWith(r, ns[|ns| - 1])
  {
    if |ns| == 0 then ""
    else if |ns| == 1 then ns[0]
    else Joined(ns[..|ns| - 1]) + ", " + ns[|ns| - 1]
  }

  /** The name, then the component list in brackets when there is one. */
  function Label(t: Tree): (r: string)
    ensures StartsWith(r, t.name)
    ensures |t.components| == 0 <==> r == t.name
  {
    t.name + (if |t.components| == 0 then "" else " [" + Joined(t.components) + "]")
  }

  function Connector(isLast: bool): string
  {
    if isLast then "└─ " else "├─ "
  }

  function ChildPrefix(prefix: string, isLast: bool, isRoot: bool): string
  {
    if isRoot then "" else prefix + (if isLast then "    " else "│   ")
  }

  /** `writeNode`: the lines written for a subtree. */
  function WriteNode(t: Tree, prefix: string, isLast: bool, isRoot: bool): (r: seq<string>)
    ensures |r| >= 1
    decreases t, 1
  {
    [(if isRoot then "" else prefix + Connector(isLast)) + Label(t)]
      + WriteChildren(t.children, ChildPrefix(prefix, isLast, isRoot))
  }

  /** The loop over the children: only the final child is written as last. */
  function WriteChildren(ts: seq<Tree>, prefix: string): (r: seq<string>)
    decreases ts, 0
  {
    if |ts| == 0 then []
    else WriteNode(ts[0], prefix, |ts| == 1, false) + WriteChildren(ts[1..], prefix)
  }

  /** The file contents for a sequence of lines. */
  function Text(lines: seq<string>): string
  {
    if |lines| == 0 then "" else lines[0] + "\n" + Text(lines[1..])
  }

  /** `logNode`: nothing is written (and no file opened) for a null node;
      otherwise the whole tree, the node as root. */
  function LogNode(node: Option<Tree>): (r: Option<string>)
    ensures r.None? <==> node.None?
    ensures r.Some? ==> StartsWith(r.value, Label(node.value) + "\n")
  {
    match node
    case None => None
    case Some(t) =>
      TextStarts(WriteNode(t, "", true, true));
      Some(Text(WriteNode(t, "", true, true)))
  }

  lemma TextStarts(lines: seq<string>)
    requires |lines| >= 1
    ensures StartsWith(Text(lines), lines[0] + "\n")
  {
    assert Text(lines) == (lines[0] + "\n") + Text(lines[1..]);
  }

  lemma EndsWithAppend(p: string, s: string)
    ensures EndsWith(p + s, s)
  {
    assert (p + s)[|p + s| - |s|..] == s;
  }

  lemma StartsWithAppend(p: string, s: string, q: string)
    requires StartsWith(s, p)
    ensures StartsWith(s + q, p)
  {
    assert (s + q)[..|p|] == s[..|p|];
  }

  lemma StartsWithTrans(s: string, q: string, p: string)
    requires StartsWith(s, q) && StartsWith(q, p)
    ensures StartsWith(s, p)
  {
    assert s[..|p|] == s[..|q|][..|p|];
  }

  /** A first line put in front of the lines that follow. */
  lemma ConsLines(head: string, rest: seq<string>, t: Tree, ts: seq<Tree>, prefix: string, starts: bool)
    requires |rest| == |ts| && EndsWith(head, Label(t))
    requires forall i :: 0 <= i < |rest| ==> EndsWith(rest[i], Label(ts[i]))
    requires starts ==> StartsWith(head, prefix) && forall i :: 0 <= i < |rest| ==> StartsWith(rest[i], prefix)
    ensures |[head] + rest| == |[t] + ts|
    ensures forall i :: 0 <= i < |[head] + rest| ==> EndsWith(([head] + rest)[i], Label(([t] + ts)[i]))
    ensures starts ==> forall i :: 0 <= i < |[head] + rest| ==> StartsWith(([head] + rest)[i], prefix)
  {
  }

  /** One line per node, in preorder, each ending with that node's label;
      below a non-root call every line starts with the given prefix. */
  lemma {:induction false} LinesFollowPreorder(t: Tree, prefix: string, isLast: bool, isRoot: bool)
    ensures var r := WriteNode(t, prefix, isLast, isRoot);
            && |r| == |Preorder(t)|
            && (forall i :: 0 <= i < |r| ==> EndsWith(r[i], Label(Preorder(t)[i])))
            && (!isRoot ==> forall i :: 0 <= i < |r| ==> StartsWith(r[i], prefix))
    decreases t, 1
  {
    var cp := ChildPrefix(prefix, isLast, isRoot);
    var lead := if isRoot then "" else prefix + Connector(isLast);
    var rest := WriteChildren(t.children, cp);
    ChildrenFollowPreorder(t.children, cp);
    EndsWithAppend(lead, Label(t));
    if !isRoot {
      assert StartsWith(lead, prefix);
      StartsWithAppend(prefix, lead, Label(t));
      assert StartsWith(cp, prefix);
      forall i | 0 <= i < |rest|
        ensures StartsWith(rest[i], prefix)
      {
        StartsWithTrans(rest[i], cp, prefix);
      }
    }
    ConsLines(lead + Label(t), rest, t, PreorderAll(t.children), prefix, !isRoot);
  }

  lemma {:induction false} ChildrenFollowPreorder(ts: seq<Tree>, prefix: string)
    ensures var r := WriteChildren(ts, prefix);
            && |r| == |PreorderAll(ts)|
            && (forall i :: 0 <= i < |r| ==> EndsWith(r[i], Label(PreorderAll(ts)[i])))
            && (forall i :: 0 <= i < |r| ==> StartsWith(r[i], prefix))
    decreases ts, 0
  {
    if |ts| > 0 {
      LinesFollowPreorder(ts[0], prefix, |ts| == 1, false);
      ChildrenFollowPreorder(ts[1..], prefix);
      var a := WriteNode(ts[0], prefix, |ts| == 1, false);
      var b := WriteChildren(ts[1..], prefix);
      assert WriteChildren(ts, prefix) == a + b;
      assert PreorderAll(ts) == Preorder(ts[0]) + PreorderAll(ts[1..]);
    }
  }

  /** The component list of one line, written name by name with a separator
      after every name but the last. */
  method WriteComponents(names: seq<string>) returns (s: string)
    ensures s == Joined(names)
  {
    s := "";
    for i := 0 to |names|
      invariant s == Joined(names[..i]) + (if 0 < i < |names| then ", " else "")
    {
      assert names[..i + 1][..i] == names[..i];
      s := s + names[i];
      if i + 1 < |names| {
        s := s + ", ";
      }
    }
    assert names[..|names|] == names;
  }

  lemma LabelOne(t: Tree)
    requires |t.components| == 1
    ensures Label(t) == t.name + " [" + t.components[0] + "]"
  {
    assert Joined(t.components) == t.components[0];
  }

  /** A leaf below the root is one line: connector, then label. */
  lemma LeafLine(t: Tree, isLast: bool)
    requires t.children == []
    ensures WriteNode(t, "", isLast, false) == [Connector(isLast) + Label(t)]
  {
    assert "" + Connector(isLast) == Connector(isLast);
  }

  lemma ThreeLines(a: string, b: string, c: string)
    ensures Text([a, b, c]) == (a + "\n") + (b + "\n") + (c + "\n")
  {
    assert [a, b, c][1..] == [b, c];
    assert [b, c][1..] == [c];
    assert Text([c]) == c + "\n";
  }

  lemma TwoLeavesLines(root: Tree, left: Tree, right: Tree)
    requires left.children == [] && right.children == [] && root.children == [left, right]
    ensures WriteNode(root, "", true, true)
         == [Label(root), Connector(false) + Label(left), Connector(true) + Label(right)]
  {
    LeafLine(left, false);
    LeafLine(right, true);
    assert [left, right][1..] == [right];
    assert WriteChildren([right], "") == WriteNode(right, "", true, false);
    assert WriteChildren([left, right], "") == WriteNode(left, "", false, false) + WriteChildren([right], "");
    assert ChildPrefix("", true, true) == "";
    assert "" + Label(root) == Label(root);
  }

  /** A root with two leaf children, every node carrying one component. */
  lemma TwoLeaves(root: Tree, left: Tree, right: Tree)
    requires left.children == [] && right.children == [] && root.children == [left, right]
    requires |root.components| == 1 && |left.components| == 1 && |right.components| == 1
    ensures Text(WriteNode(root, "", true, true))
         == (root.name + " [" + root.components[0] + "]\n")
          + ("├─ " + left.name + " [" + left.components[0] + "]\n")
          + ("└─ " + right.name + " [" + right.components[0] + "]\n")
  {
    TwoLeavesLines(root, left, right);
    LabelOne(root);
    LabelOne(left);
    LabelOne(right);
    ThreeLines(Label(root), Connector(false) + Label(left), Connector(true) + Label(right));
  }

  // The three expected lines, piece by piece.
  lemma RootText()
    ensures "LoggerTestRoot" + " [" + "Transform" + "]\n" == "LoggerTestRoot [Transform]\n"
  {
  }

  lemma LeftText()
    ensures "├─ " + "LeftChild" + " [" + "Transform" + "]\n" == "├─ LeftChild [Transform]\n"
  {
  }

  lemma RightText()
    ensures "└─ " + "RightChild" + " [" + "Transform" + "]\n" == "└─ RightChild [Transform]\n"
  {
  }

  /** The logger's smoke test: a root with two leaf children, each node
      carrying only its transform. */
  lemma SmokeTest()
    ensures LogNode(Some(Tree("LoggerTestRoot", ["Transform"],
                              [Tree("LeftChild", ["Transform"], []), Tree("RightChild", ["Transform"], [])])))
            == Some("LoggerTestRoot [Transform]\n"
                    + "├─ LeftChild [Transform]\n"
                    + "└─ RightChild [Transform]\n")
  {
    var left := Tree("LeftChild", ["Transform"], []);
    var right := Tree("RightChild", ["Transform"], []);
    TwoLeaves(Tree("LoggerTestRoot", ["Transform"], [left, right]), left, right);
    RootText();
    LeftText();
    RightText();
  }
}
