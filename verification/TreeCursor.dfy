/** Walking a folding tree by parent and sibling pointers: graph_next_node and graph_prev_node
    (cmds/tui.c), against the list of visible nodes in preorder. A pointer to a node is the path
    of child numbers that leads to it; there are no special nodes. */
module TreeCursor {
  import opened Wrappers

  datatype Node = Node(folded: bool, kids: seq<Node>)
  type Path = seq<nat>

  // ----- nodes -----

  predicate Valid(t: Node, p: Path) {
    p == [] || (p[0] < |t.kids| && Valid(t.kids[p[0]], p[1..]))
  }

  function NodeAt(t: Node, p: Path): Node
    requires Valid(t, p)
  {
    if p == [] then t else NodeAt(t.kids[p[0]], p[1..])
  }

  /** The root shows its children whatever its flag says. */
  predicate Opens(t: Node, root: bool) {
    t.kids != [] && (root || !t.folded)
  }

  // ----- the visible nodes -----

  function Under(i: nat, ps: seq<Path>): (r: seq<Path>)
    ensures |r| == |ps| && forall k :: 0 <= k < |ps| ==> r[k] == [i] + ps[k]
  {
    seq(|ps|, k requires 0 <= k < |ps| => [i] + ps[k])
  }

  function Visible(t: Node, root: bool): (r: seq<Path>)
    ensures r != [] && r[0] == []
    decreases t, |t.kids| + 1
  {
    [[]] + if Opens(t, root) then VisibleKids(t, 0) else []
  }

  function VisibleKids(t: Node, i: nat): (r: seq<Path>)
    requires i <= |t.kids|
    ensures i < |t.kids| <==> r != []
    ensures r != [] ==> r[0] == [i]
    decreases t, |t.kids| - i
  {
    if i == |t.kids| then [] else Under(i, Visible(t.kids[i], false)) + VisibleKids(t, i + 1)
  }

  // ----- specification of next and previous -----

  /** The node after the whole subtree of `p`. */
  function After(t: Node, p: Path): Option<Path>
    requires Valid(t, p)
  {
    if p == [] then None
    else
      match After(t.kids[p[0]], p[1..])
      case Some(q) => Some([p[0]] + q)
      case None => if p[0] + 1 < |t.kids| then Some([p[0] + 1]) else None
  }

  function Next(t: Node, p: Path): Option<Path>
    requires Valid(t, p)
  {
    if Opens(NodeAt(t, p), p == []) then Some(p + [0]) else After(t, p)
  }

  /** The last visible node of a subtree. */
  function LastIn(t: Node): (p: Path)
    ensures Valid(t, p)
  {
    if Opens(t, false) then [|t.kids| - 1] + LastIn(t.kids[|t.kids| - 1]) else []
  }

  function Prev(t: Node, p: Path): Option<Path>
    requires Valid(t, p)
  {
    if p == [] then None
    else
      match Prev(t.kids[p[0]], p[1..])
      case Some(q) => Some([p[0]] + q)
      case None => if p[0] == 0 then Some([]) else Some([p[0] - 1] + LastIn(t.kids[p[0] - 1]))
  }

  /** How many proper ancestors have several children. */
  function Depth(t: Node, p: Path): nat
    requires Valid(t, p)
  {
    if p == [] then 0 else (if |t.kids| > 1 then 1 else 0) + Depth(t.kids[p[0]], p[1..])
  }
}
