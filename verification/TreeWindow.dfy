/** The cursor loops over parent and sibling pointers, and the window that keeps the current and
    the top node with their display lines (cmds/tui.c), proved against TreeCursor. */
module TreeWindow {
  import opened TreeCursor
  import opened TreeCursorProofs
  import opened Wrappers

  /** graph_next_node; the depth counter is right afterwards if it was before. */
  method GraphNextNode(t: Node, node: Path, depth: int) returns (next: Option<Path>, depth': int)
    requires Valid(t, node)
    ensures next == Next(t, node)
    ensures next.Some? ==> Valid(t, next.value)
    ensures next.Some? && depth == Depth(t, node) ==> depth' == Depth(t, next.value)
  {
    depth' := depth;
    var n := NodeAt(t, node);
    if n.kids != [] && (node == [] || !n.folded) {
      ValidSnoc(t, node, 0);
      DepthSnoc(t, node, 0);
      if |n.kids| != 1 {
        depth' := depth' + 1;
      }
      return Some(node + [0]), depth';
    }
    var at: Path := node;
    while at != []
      invariant Valid(t, at) && After(t, at) == Next(t, node)
      invariant depth == Depth(t, node) ==> depth' == Depth(t, at)
      decreases |at|
    {
      FrontValid(t, at);
      var parent, i := at[..|at| - 1], at[|at| - 1];
      assert parent + [i] == at;
      AfterSnoc(t, parent, i);
      DepthSnoc(t, parent, i);
      if i + 1 < |NodeAt(t, parent).kids| {
        ValidSnoc(t, parent, i + 1);
        DepthSnoc(t, parent, i + 1);
        return Some(parent + [i + 1]), depth';
      }
      at := parent;
      if |NodeAt(t, at).kids| != 1 && depth' > 0 {
        depth' := depth' - 1;
      }
    }
    next := None;
  }

  lemma LastStep(n: Node)
    ensures LastIn(n) == if n.kids != [] && !n.folded then [|n.kids| - 1] + LastIn(n.kids[|n.kids| - 1]) else []
  {
  }

  /** The descent of graph_prev_node to the last visible node under `from`. */
  method DescendToLast(t: Node, from: Path, depth: int) returns (at: Path, depth': int)
    requires Valid(t, from)
    ensures at == from + LastIn(NodeAt(t, from)) && Valid(t, at)
    ensures depth == Depth(t, from) ==> depth' == Depth(t, at)
  {
    hide Valid, NodeAt, Depth, LastIn;
    at, depth' := from, depth;
    var n := NodeAt(t, at);
    while n.kids != [] && !n.folded
      invariant Valid(t, at) && n == NodeAt(t, at) && at + LastIn(n) == from + LastIn(NodeAt(t, from))
      invariant depth == Depth(t, from) ==> depth' == Depth(t, at)
      decreases n
    {
      var last := |n.kids| - 1;
      ValidSnoc(t, at, last);
      DepthSnoc(t, at, last);
      if |n.kids| != 1 {
        depth' := depth' + 1;
      }
      LastStep(n);
      assert at + ([last] + LastIn(n.kids[last])) == (at + [last]) + LastIn(n.kids[last]);
      at := at + [last];
      n := n.kids[last];
    }
    LastStep(n);
    assert at + [] == at;
  }

  lemma PrevRoot(t: Node)
    ensures Prev(t, []) == None
  {
  }

  /** graph_prev_node. */
  method GraphPrevNode(t: Node, node: Path, depth: int) returns (prev: Option<Path>, depth': int)
    requires Valid(t, node)
    ensures prev == Prev(t, node)
    ensures prev.Some? ==> Valid(t, prev.value)
    ensures prev.Some? && depth == Depth(t, node) ==> depth' == Depth(t, prev.value)
    ensures prev.None? ==> depth' == 0
  {
    hide *;
    depth' := depth;
    if node == [] {
      PrevRoot(t);
      return None, 0;
    }
    FrontValid(t, node);
    var parent, i := node[..|node| - 1], node[|node| - 1];
    assert parent + [i] == node;
    PrevSnoc(t, parent, i);
    DepthSnoc(t, parent, i);
    if i == 0 {
      if |NodeAt(t, parent).kids| != 1 && depth' > 0 {
        depth' := depth' - 1;
      }
      return Some(parent), depth';
    }
    var at: Path := parent + [i - 1];
    ValidSnoc(t, parent, i - 1);
    DepthSnoc(t, parent, i - 1);
    at, depth' := DescendToLast(t, at, depth');
    prev := Some(at);
  }

  /** graph_next_node on the k-th visible node. */
  method NextShown(t: Node, node: Path, depth: int, ghost k: nat) returns (next: Option<Path>, depth': int)
    requires k < |Visible(t, true)| && node == Visible(t, true)[k] && Valid(t, node)
    ensures next == Following(Visible(t, true), k)
    ensures next.Some? ==> Valid(t, next.value) && (depth == Depth(t, node) ==> depth' == Depth(t, next.value))
  {
    NextIsPreorder(t, k);
    next, depth' := GraphNextNode(t, node, depth);
  }

  /** graph_prev_node on the k-th visible node. */
  method PrevShown(t: Node, node: Path, depth: int, ghost k: nat) returns (prev: Option<Path>, depth': int)
    requires k < |Visible(t, true)| && node == Visible(t, true)[k] && Valid(t, node)
    ensures prev == if k == 0 then None else Some(Visible(t, true)[k - 1])
    ensures prev.Some? ==> Valid(t, prev.value) && (depth == Depth(t, node) ==> depth' == Depth(t, prev.value))
    ensures prev.None? ==> depth' == Depth(t, node)
  {
    PrevIsPreorder(t, k);
    prev, depth' := GraphPrevNode(t, node, depth);
  }

  lemma {:induction false} ToggleKeepsDepth(t: Node, p: Path, q: Path)
    requires Valid(t, p) && Valid(t, q)
    ensures Valid(Toggle(t, p), q) && Depth(Toggle(t, p), q) == Depth(t, q)
    decreases |q|
  {
    if p != [] && q != [] && p[0] == q[0] {
      ToggleKeepsDepth(t.kids[p[0]], p[1..], q[1..]);
    }
  }

  lemma RootFirst(t: Node)
    ensures Visible(t, true) != [] && Visible(t, true)[0] == []
  {
  }

  class TreeWindow {
    var tree: Node
    var curr: Path
    var currIndex: int
    var top: Path
    var topIndex: int
    var topDepth: int
    var lastIndex: int
    const lines: nat

    /** Where the two nodes are in the list of visible nodes. */
    ghost var currAt: nat
    ghost var topAt: nat

    ghost function Shown(): seq<Path>
      reads this`tree
    {
      Visible(tree, true)
    }

    ghost predicate CurrOk()
      reads this
    {
      && currAt < |Shown()| && curr == Shown()[currAt] && TreeCursor.Valid(tree, curr)
      && currIndex == LineOf(Shown(), currAt)
    }

    ghost predicate TopOk()
      reads this
    {
      && topAt < |Shown()| && top == Shown()[topAt] && TreeCursor.Valid(tree, top) && topIndex == LineOf(Shown(), topAt)
      && topDepth == Depth(tree, top)
    }

    /** The indices are the display lines, and the current line is on the screen. */
    ghost predicate Ok()
      reads this
    {
      lines >= 3 && topAt <= currAt && CurrOk() && TopOk() && currIndex - topIndex < lines - 2
    }

    constructor (tree: Node, lines: nat)
      requires lines >= 3
      ensures Ok() && this.tree == tree && this.lines == lines && currAt == 0
      ensures lastIndex == LineOf(Visible(tree, true), |Visible(tree, true)| - 1)
    {
      this.tree, this.lines := tree, lines;
      curr, top, currIndex, topIndex, topDepth, currAt, topAt := [], [], 0, 0, 0, 0, 0;
      lastIndex := 0;
      new;
      lastIndex := LastIndex();
    }

    /** tui_last_index. */
    method LastIndex() returns (count: int)
      requires Ok()
      ensures count == LineOf(Shown(), |Shown()| - 1)
    {
      hide Visible, TreeCursor.Valid, Depth;
      count := currIndex;
      var prev := curr;
      ghost var k := currAt;
      while true
        invariant currAt <= k < |Shown()| && prev == Shown()[k] && TreeCursor.Valid(tree, prev)
        invariant count == LineOf(Shown(), k)
        decreases |Shown()| - k
      {
        var next, _ := NextShown(tree, prev, 0, k);
        if next.None? {
          return;
        }
        count := count + 1;
        if NeedsBlank(prev, next.value) {
          count := count + 1;
        }
        prev := next.value;
        k := k + 1;
      }
    }

    /** tui_window_move_up. */
    method MoveUp()
      requires Ok()
      modifies this`curr, this`currIndex, this`currAt, this`top, this`topIndex, this`topDepth, this`topAt
      ensures Ok() && currAt == if old(currAt) > 0 then old(currAt) - 1 else 0
      ensures topAt == if currAt < old(topAt) then currAt else old(topAt)
    {
      hide Visible, TreeCursor.Valid, Depth, LineOf, NeedsBlank;
      var node, _ := PrevShown(tree, curr, 0, currAt);
      if node.None? {
        return;
      }
      LineStep(Shown(), currAt - 1);
      currIndex := currIndex - 1;
      if NeedsBlank(node.value, curr) {
        currIndex := currIndex - 1;
      }
      if topAt < currAt {
        LinesGrow(Shown(), topAt, currAt - 1);
      }
      if currIndex < topIndex {
        assert topAt == currAt;
        var above, depth := PrevShown(tree, top, topDepth, topAt);
        topDepth := depth;
        top := above.value;
        topIndex := currIndex;
        topAt := currAt - 1;
      }
      curr := node.value;
      currAt := currAt - 1;
    }

    /** The loop that moves the top down until the current line is on the screen: no further
        than needed. */
    method ScrollDown()
      requires lines >= 3 && topAt <= currAt && CurrOk() && TopOk()
      modifies this`top, this`topIndex, this`topDepth, this`topAt
      ensures Ok() && old(topAt) <= topAt
      ensures topAt > old(topAt) ==> currIndex - LineOf(Shown(), topAt - 1) >= lines - 2
    {
      hide Visible, TreeCursor.Valid, Depth, LineOf, NeedsBlank;
      while currIndex - topIndex >= lines - 2
        invariant old(topAt) <= topAt <= currAt && CurrOk() && TopOk()
        invariant topAt > old(topAt) ==> currIndex - LineOf(Shown(), topAt - 1) >= lines - 2
        decreases currAt - topAt
      {
        var node, depth := NextShown(tree, top, topDepth, topAt);
        topDepth := depth;
        LineStep(Shown(), topAt);
        topIndex := topIndex + 1;
        if NeedsBlank(top, node.value) {
          topIndex := topIndex + 1;
        }
        top := node.value;
        topAt := topAt + 1;
      }
    }

    /** tui_window_move_down. */
    method MoveDown()
      requires Ok()
      modifies this`curr, this`currIndex, this`currAt, this`top, this`topIndex, this`topDepth, this`topAt
      ensures Ok() && currAt == if old(currAt) + 1 < |Shown()| then old(currAt) + 1 else old(currAt)
      ensures old(topAt) <= topAt
      ensures topAt > old(topAt) ==> currIndex - LineOf(Shown(), topAt - 1) >= lines - 2
    {
      hide Visible, TreeCursor.Valid, Depth;
      var node, _ := NextShown(tree, curr, 0, currAt);
      if node.None? {
        return;
      }
      currIndex := currIndex + 1;
      if NeedsBlank(curr, node.value) {
        currIndex := currIndex + 1;
      }
      curr := node.value;
      currAt := currAt + 1;
      ScrollDown();
    }

    /** tui_window_page_up: to the top of the screen, or from there about a screen up. */
    method PageUp()
      requires Ok()
      modifies this`curr, this`currIndex, this`currAt, this`top, this`topIndex, this`topDepth, this`topAt
      ensures Ok() && currAt == topAt <= old(topAt)
      ensures old(curr) != old(top) ==> topAt == old(topAt)
      ensures old(curr) == old(top) ==>
                && (topAt == 0 || old(topIndex) - topIndex >= lines - 2)
                && (topAt < old(topAt) ==> old(topIndex) - LineOf(Shown(), topAt + 1) < lines - 2)
    {
      hide Visible, TreeCursor.Valid, Depth, LineOf, NeedsBlank;
      if curr != top {
        curr, currIndex, currAt := top, topIndex, topAt;
        return;
      }
      SameNode();
      while topIndex - currIndex < lines - 2
        invariant topAt <= old(topAt) && topIndex == old(topIndex)
        invariant top == Shown()[topAt] && TreeCursor.Valid(tree, top)
        invariant currIndex == LineOf(Shown(), topAt) && topDepth == Depth(tree, top)
        invariant topAt < old(topAt) ==> old(topIndex) - LineOf(Shown(), topAt + 1) < lines - 2
        decreases topAt
      {
        var node, depth := PrevShown(tree, top, topDepth, topAt);
        topDepth := depth;
        if node.None? {
          break;
        }
        LineStep(Shown(), topAt - 1);
        currIndex := currIndex - 1;
        if NeedsBlank(node.value, top) {
          currIndex := currIndex - 1;
        }
        top := node.value;
        topAt := topAt - 1;
      }
      curr, currAt := top, topAt;
      topIndex := currIndex;
    }

    /** A node is at one place only. */
    lemma SameNode()
      requires Ok() && curr == top
      ensures currAt == topAt
    {
      if topAt < currAt {
        VisibleOnce(tree, true, topAt, currAt);
      }
    }

    /** tui_window_move_home. */
    method MoveHome()
      requires Ok()
      modifies this`curr, this`currIndex, this`currAt, this`top, this`topIndex, this`topDepth, this`topAt
      ensures Ok() && currAt == topAt == 0
    {
      curr, top, currIndex, topIndex, topDepth, currAt, topAt := [], [], 0, 0, 0, 0, 0;
    }

    /** tui_window_move_end. */
    method MoveEnd()
      requires Ok()
      modifies this`curr, this`currIndex, this`currAt, this`top, this`topIndex, this`topDepth, this`topAt
      ensures Ok() && currAt == |Shown()| - 1 && old(topAt) <= topAt
      ensures topAt > old(topAt) ==> currIndex - LineOf(Shown(), topAt - 1) >= lines - 2
    {
      hide Visible, TreeCursor.Valid, Depth;
      while true
        invariant topAt <= currAt && CurrOk() && TopOk()
        invariant topAt == old(topAt)
        decreases |Shown()| - currAt
      {
        var node, _ := NextShown(tree, curr, 0, currAt);
        if node.None? {
          break;
        }
        currIndex := currIndex + 1;
        if NeedsBlank(curr, node.value) {
          currIndex := currIndex + 1;
        }
        curr := node.value;
        currAt := currAt + 1;
      }
      ScrollDown();
    }

    lemma NotRoot()
      requires Ok() && curr != []
      ensures currAt > 0
    {
      hide Visible, LineOf, Depth, TreeCursor.Valid;
      RootFirst(tree);
    }

    /** Flipping the fold of the current node. */
    method Flip()
      requires Ok() && currAt > 0
      modifies this`tree
      ensures Ok() && tree == Toggle(old(tree), curr)
    {
      hide Visible, TreeCursor.Valid, Depth, NodeAt, Toggle;
      FoldKeepsLines(tree, currAt, currAt);
      FoldKeepsLines(tree, currAt, topAt);
      ToggleKeepsDepth(tree, curr, top);
      ToggleKeepsDepth(tree, curr, curr);
      tree := Toggle(tree, curr);
    }

    /** win_enter_graph: fold or unfold the current node. */
    method Enter() returns (changed: bool)
      requires Ok()
      modifies this`tree, this`lastIndex
      ensures Ok() && changed == (curr != [] && NodeAt(old(tree), curr).kids != [])
      ensures tree == if changed then Toggle(old(tree), curr) else old(tree)
      ensures changed ==> lastIndex == LineOf(Shown(), |Shown()| - 1)
    {
      if curr == [] || NodeAt(tree, curr).kids == [] {
        return false;
      }
      hide *;
      NotRoot();
      Flip();
      lastIndex := LastIndex();
      changed := true;
    }
  }
}
