/** Next and previous walk the visible nodes in preorder, and folding keeps what is above. */
module TreeCursorProofs {
  import opened TreeCursor
  import opened Wrappers

  // ----- paths grown at the far end -----

  lemma {:induction false} ValidSnoc(t: Node, p: Path, i: nat)
    requires Valid(t, p)
    ensures Valid(t, p + [i]) <==> i < |NodeAt(t, p).kids|
    ensures i < |NodeAt(t, p).kids| ==> NodeAt(t, p + [i]) == NodeAt(t, p).kids[i]
    decreases |p|
  {
    if p == [] {
      assert [i][1..] == [];
    } else {
      assert (p + [i])[1..] == p[1..] + [i];
      ValidSnoc(t.kids[p[0]], p[1..], i);
    }
  }

  lemma {:induction false} FrontValid(t: Node, p: Path)
    requires Valid(t, p) && p != []
    ensures Valid(t, p[..|p| - 1]) && p[|p| - 1] < |NodeAt(t, p[..|p| - 1]).kids|
    ensures NodeAt(t, p) == NodeAt(t, p[..|p| - 1]).kids[p[|p| - 1]]
    decreases |p|
  {
    var front := p[..|p| - 1];
    if |p| > 1 {
      assert p[1..][..|p| - 2] == front[1..];
      FrontValid(t.kids[p[0]], p[1..]);
    } else {
      assert p[1..] == [];
    }
  }

  lemma {:induction false} AfterSnoc(t: Node, p: Path, i: nat)
    requires Valid(t, p) && Valid(t, p + [i])
    ensures After(t, p + [i]) == if i + 1 < |NodeAt(t, p).kids| then Some(p + [i + 1]) else After(t, p)
    decreases |p|
  {
    if p == [] {
      assert p + [i] == [i] && [i][1..] == [] && p + [i + 1] == [i + 1];
    } else {
      assert (p + [i])[1..] == p[1..] + [i];
      AfterSnoc(t.kids[p[0]], p[1..], i);
      assert [p[0]] + (p[1..] + [i + 1]) == p + [i + 1];
    }
  }

  lemma Regroup(p: Path, q: Path, r: Path)
    requires p != []
    ensures [p[0]] + (p[1..] + q + r) == p + q + r && [p[0]] + p[1..] == p
  {
  }

  lemma {:induction false} PrevSnoc(t: Node, p: Path, i: nat)
    requires Valid(t, p) && Valid(t, p + [i])
    ensures i < |NodeAt(t, p).kids|
    ensures Prev(t, p + [i]) == Some(if i == 0 then p else p + [i - 1] + LastIn(NodeAt(t, p).kids[i - 1]))
    decreases |p|
  {
    if p == [] {
      assert p + [i] == [i] && [i][1..] == [];
      assert i > 0 ==> p + [i - 1] == [i - 1];
    } else {
      assert (p + [i])[1..] == p[1..] + [i];
      PrevSnoc(t.kids[p[0]], p[1..], i);
      hide LastIn, Valid;
      Regroup(p, [i], []);
      if i > 0 {
        Regroup(p, [i - 1], LastIn(NodeAt(t, p).kids[i - 1]));
      }
    }
  }

  lemma {:induction false} DepthSnoc(t: Node, p: Path, i: nat)
    requires Valid(t, p) && Valid(t, p + [i])
    ensures Depth(t, p + [i]) == Depth(t, p) + if |NodeAt(t, p).kids| > 1 then 1 else 0
    decreases |p|
  {
    if p == [] {
      assert [i][1..] == [];
    } else {
      assert (p + [i])[1..] == p[1..] + [i];
      DepthSnoc(t.kids[p[0]], p[1..], i);
    }
  }

  // ----- next and previous against the list of visible nodes -----

  function NextAs(t: Node, p: Path, root: bool): Option<Path>
    requires Valid(t, p)
  {
    if Opens(NodeAt(t, p), root && p == []) then Some(p + [0]) else After(t, p)
  }

  function Following(ps: seq<Path>, k: nat): Option<Path> {
    if k + 1 < |ps| then Some(ps[k + 1]) else None
  }

  lemma {:induction false} VisibleValid(t: Node, root: bool, k: nat)
    requires k < |Visible(t, root)|
    ensures Valid(t, Visible(t, root)[k])
    decreases t, |t.kids| + 1
  {
    if k > 0 {
      KidsValid(t, 0, k - 1);
    }
  }

  lemma {:induction false} KidsValid(t: Node, i: nat, k: nat)
    requires i <= |t.kids| && k < |VisibleKids(t, i)|
    ensures Valid(t, VisibleKids(t, i)[k]) && VisibleKids(t, i)[k] != [] && VisibleKids(t, i)[k][0] >= i
    decreases t, |t.kids| - i
  {
    var here := Visible(t.kids[i], false);
    if k < |here| {
      VisibleValid(t.kids[i], false, k);
      assert ([i] + here[k])[1..] == here[k];
    } else {
      KidsValid(t, i + 1, k - |here|);
    }
  }

  lemma Below(t: Node, i: nat, q: Path)
    requires i < |t.kids| && Valid(t.kids[i], q)
    ensures Valid(t, [i] + q) && NodeAt(t, [i] + q) == NodeAt(t.kids[i], q)
    ensures After(t, [i] + q) ==
            match After(t.kids[i], q)
            case Some(r) => Some([i] + r)
            case None => if i + 1 < |t.kids| then Some([i + 1]) else None
  {
    assert ([i] + q)[1..] == q;
  }

  lemma NextUnder(t: Node, i: nat, q: Path, root: bool)
    requires i < |t.kids| && Valid(t.kids[i], q)
    ensures Valid(t, [i] + q)
    ensures NextAs(t, [i] + q, root) ==
            (match NextAs(t.kids[i], q, false)
             case Some(r) => Some([i] + r)
             case None => if i + 1 < |t.kids| then Some([i + 1]) else None)
  {
    Below(t, i, q);
    Regroup([i], q, [0]);
    hide Valid, NodeAt, After;
    assert [i][1..] == [] && [] + q == q;
  }

  lemma {:induction false} NextVisible(t: Node, root: bool, k: nat)
    requires k < |Visible(t, root)|
    ensures Valid(t, Visible(t, root)[k])
    ensures NextAs(t, Visible(t, root)[k], root) == Following(Visible(t, root), k)
    decreases t, |t.kids| + 1
  {
    VisibleValid(t, root, k);
    if k == 0 {
      assert [] + [0] == [0];
    } else {
      KidsNext(t, 0, k - 1, root);
    }
  }

  lemma {:induction false} KidsNext(t: Node, i: nat, k: nat, root: bool)
    requires i <= |t.kids| && k < |VisibleKids(t, i)|
    ensures Valid(t, VisibleKids(t, i)[k])
    ensures NextAs(t, VisibleKids(t, i)[k], root) == Following(VisibleKids(t, i), k)
    decreases t, |t.kids| - i
  {
    hide NextAs;
    var here := Visible(t.kids[i], false);
    if k < |here| {
      NextVisible(t.kids[i], false, k);
      NextUnder(t, i, here[k], root);
      assert VisibleKids(t, i)[k] == [i] + here[k];
    } else {
      KidsNext(t, i + 1, k - |here|, root);
    }
  }

  /** MAIN RESULT (next). From the k-th visible node, next goes to the (k+1)-th, and from the last
      one nowhere: started at the root it visits every visible node once, in preorder. */
  lemma NextIsPreorder(t: Node, k: nat)
    requires k < |Visible(t, true)|
    ensures Valid(t, Visible(t, true)[k])
    ensures Next(t, Visible(t, true)[k]) == Following(Visible(t, true), k)
  {
    NextVisible(t, true, k);
  }

  lemma {:induction false} LastVisible(t: Node)
    ensures var v := Visible(t, false); v[|v| - 1] == LastIn(t)
    decreases t, |t.kids| + 1
  {
    if Opens(t, false) {
      LastOfKids(t, 0);
    }
  }

  lemma {:induction false} LastOfKids(t: Node, i: nat)
    requires i < |t.kids|
    ensures var v := VisibleKids(t, i); v[|v| - 1] == [|t.kids| - 1] + LastIn(t.kids[|t.kids| - 1])
    decreases t, |t.kids| - i
  {
    if i + 1 == |t.kids| {
      LastVisible(t.kids[i]);
      assert VisibleKids(t, i) == Under(i, Visible(t.kids[i], false));
    } else {
      LastOfKids(t, i + 1);
    }
  }

  lemma {:induction false} PrevVisible(t: Node, root: bool, k: nat)
    requires k < |Visible(t, root)|
    ensures Valid(t, Visible(t, root)[k])
    ensures Prev(t, Visible(t, root)[k]) == if k == 0 then None else Some(Visible(t, root)[k - 1])
    decreases t, |t.kids| + 1
  {
    VisibleValid(t, root, k);
    if k > 0 {
      KidsPrev(t, 0, k - 1);
    }
  }

  lemma PrevUnder(t: Node, i: nat, q: Path)
    requires i < |t.kids| && Valid(t.kids[i], q)
    ensures Valid(t, [i] + q)
    ensures Prev(t, [i] + q) ==
            Some(match Prev(t.kids[i], q)
                 case Some(r) => [i] + r
                 case None => if i == 0 then [] else [i - 1] + LastIn(t.kids[i - 1]))
  {
    hide LastIn;
    assert ([i] + q)[1..] == q;
  }

  /** The list of a child, put before that of its later siblings. */
  lemma KidSplit(t: Node, i: nat, k: nat)
    requires i <= |t.kids| && k < |VisibleKids(t, i)|
    ensures i < |t.kids|
    ensures var here := Visible(t.kids[i], false);
            && |VisibleKids(t, i)| == |here| + |VisibleKids(t, i + 1)|
            && VisibleKids(t, i)[k] == if k < |here| then [i] + here[k] else VisibleKids(t, i + 1)[k - |here|]
  {
    var here, rest := Under(i, Visible(t.kids[i], false)), VisibleKids(t, i + 1);
    assert VisibleKids(t, i) == here + rest;
    hide *;
    if k < |here| {
      assert (here + rest)[k] == here[k];
    } else {
      assert (here + rest)[k] == rest[k - |here|];
    }
  }

  /** Within the children from i on; before the first of them comes whatever ends child i-1. */
  lemma {:induction false} KidsPrev(t: Node, i: nat, k: nat)
    requires i <= |t.kids| && k < |VisibleKids(t, i)|
    ensures Valid(t, VisibleKids(t, i)[k])
    ensures Prev(t, VisibleKids(t, i)[k]) ==
            Some(if k > 0 then VisibleKids(t, i)[k - 1]
                 else if i == 0 then [] else [i - 1] + LastIn(t.kids[i - 1]))
    decreases t, |t.kids| - i
  {
    hide LastIn, Visible, VisibleKids, Prev, Valid;
    KidSplit(t, i, k);
    var here := Visible(t.kids[i], false);
    if k > 0 {
      KidSplit(t, i, k - 1);
    }
    if k < |here| {
      PrevVisible(t.kids[i], false, k);
      PrevUnder(t, i, here[k]);
    } else {
      KidsPrev(t, i + 1, k - |here|);
      LastVisible(t.kids[i]);
    }
  }

  /** MAIN RESULT (previous). From the k-th visible node, previous goes to the (k-1)-th, and from
      the root nowhere; so each of next and previous undoes the other. */
  lemma PrevIsPreorder(t: Node, k: nat)
    requires k < |Visible(t, true)|
    ensures Valid(t, Visible(t, true)[k])
    ensures Prev(t, Visible(t, true)[k]) == if k == 0 then None else Some(Visible(t, true)[k - 1])
  {
    PrevVisible(t, true, k);
  }

  /** No node is listed twice. */
  lemma {:induction false} VisibleOnce(t: Node, root: bool, j: nat, k: nat)
    requires j < k < |Visible(t, root)|
    ensures Visible(t, root)[j] != Visible(t, root)[k]
    decreases t, |t.kids| + 1
  {
    hide VisibleKids, Valid;
    KidsValid(t, 0, k - 1);
    if j > 0 {
      KidsOnce(t, 0, j - 1, k - 1);
    }
  }

  lemma {:induction false} KidsOnce(t: Node, i: nat, j: nat, k: nat)
    requires i <= |t.kids| && j < k < |VisibleKids(t, i)|
    ensures VisibleKids(t, i)[j] != VisibleKids(t, i)[k]
    decreases t, |t.kids| - i
  {
    hide Visible, VisibleKids, Valid;
    KidSplit(t, i, j);
    KidSplit(t, i, k);
    var here := Visible(t.kids[i], false);
    if k < |here| {
      VisibleOnce(t.kids[i], false, j, k);
      assert ([i] + here[j])[1..] == here[j] && ([i] + here[k])[1..] == here[k];
    } else if j < |here| {
      KidsValid(t, i + 1, k - |here|);
      assert ([i] + here[j])[0] == i;
    } else {
      KidsOnce(t, i + 1, j - |here|, k - |here|);
    }
  }

  // ----- the lines of the display -----

  /** A blank line goes before a node that is not the first child of the one above it. */
  predicate NeedsBlank(prev: Path, next: Path) {
    next != prev + [0]
  }

  /** The display line of the k-th visible node. */
  function LineOf(ps: seq<Path>, k: nat): (n: nat)
    requires k < |ps|
  {
    if k == 0 then 0 else LineOf(ps, k - 1) + 1 + if NeedsBlank(ps[k - 1], ps[k]) then 1 else 0
  }

  lemma LineStep(ps: seq<Path>, k: nat)
    requires k + 1 < |ps|
    ensures LineOf(ps, k + 1) == LineOf(ps, k) + 1 + if NeedsBlank(ps[k], ps[k + 1]) then 1 else 0
  {
  }

  lemma {:induction false} LinesGrow(ps: seq<Path>, j: nat, k: nat)
    requires j <= k < |ps|
    ensures LineOf(ps, j) + (k - j) <= LineOf(ps, k)
    decreases k
  {
    if j < k {
      LinesGrow(ps, j, k - 1);
    }
  }

  lemma {:induction false} LinesOfPrefix(ps: seq<Path>, qs: seq<Path>, k: nat)
    requires k < |ps| && k < |qs| && ps[..k + 1] == qs[..k + 1]
    ensures LineOf(ps, k) == LineOf(qs, k)
  {
    assert ps[k] == ps[..k + 1][k] == qs[..k + 1][k];
    if k > 0 {
      assert ps[..k] == ps[..k + 1][..k] && qs[..k] == qs[..k + 1][..k];
      assert ps[k - 1] == ps[..k + 1][k - 1];
      LinesOfPrefix(ps, qs, k - 1);
    }
  }

  // ----- folding -----

  function Toggle(t: Node, p: Path): Node
    requires Valid(t, p)
  {
    if p == [] then t.(folded := !t.folded)
    else t.(kids := t.kids[p[0] := Toggle(t.kids[p[0]], p[1..])])
  }

  /** Folding or unfolding a visible node changes nothing up to that node. */
  lemma {:induction false} ToggleVisible(t: Node, root: bool, k: nat)
    requires k < |Visible(t, root)| && Valid(t, Visible(t, root)[k])
    requires root ==> k > 0
    ensures var t' := Toggle(t, Visible(t, root)[k]);
            k < |Visible(t', root)| && Visible(t', root)[..k + 1] == Visible(t, root)[..k + 1]
    decreases t, |t.kids| + 1
  {
    hide VisibleKids;
    var t' := Toggle(t, Visible(t, root)[k]);
    if k > 0 {
      KidsValid(t, 0, k - 1);
      ToggleKids(t, 0, k - 1);
      assert t'.folded == t.folded && |t'.kids| == |t.kids|;
      var v, v' := VisibleKids(t, 0), VisibleKids(t', 0);
      assert Visible(t, root)[..k + 1] == [[]] + v[..k];
      assert Visible(t', root)[..k + 1] == [[]] + v'[..k];
    }
  }

  lemma UnderPrefix(i: nat, ps: seq<Path>, qs: seq<Path>, k: nat)
    requires k < |ps| && k < |qs| && ps[..k + 1] == qs[..k + 1]
    ensures Under(i, ps)[..k + 1] == Under(i, qs)[..k + 1]
  {
    forall j | 0 <= j <= k ensures Under(i, ps)[j] == Under(i, qs)[j] {
      assert ps[j] == ps[..k + 1][j] == qs[..k + 1][j];
    }
  }

  lemma ToggleUnder(t: Node, i: nat, q: Path, p: Path)
    requires Valid(t, p) && p == [i] + q
    ensures i < |t.kids| && Valid(t.kids[i], q)
    ensures Toggle(t, p) == t.(kids := t.kids[i := Toggle(t.kids[i], q)])
  {
    assert p[1..] == q;
  }

  lemma ToggleBeside(t: Node, p: Path, i: nat)
    requires Valid(t, p) && p != [] && p[0] > i
    ensures var t' := Toggle(t, p); |t'.kids| == |t.kids| > i && t'.kids[i] == t.kids[i]
  {
  }

  lemma KidsHere(t: Node, i: nat, k: nat)
    requires i < |t.kids| && k < |Visible(t.kids[i], false)|
    ensures k < |VisibleKids(t, i)|
    ensures VisibleKids(t, i)[..k + 1] == Under(i, Visible(t.kids[i], false))[..k + 1]
  {
    hide Visible, Under;
  }

  lemma KidsBeyond(t: Node, i: nat, m: nat)
    requires i < |t.kids| && m < |VisibleKids(t, i + 1)|
    ensures var here := Visible(t.kids[i], false);
            && |here| + m < |VisibleKids(t, i)|
            && VisibleKids(t, i)[..|here| + m + 1] == Under(i, here) + VisibleKids(t, i + 1)[..m + 1]
  {
    hide Visible, Under;
    var here, rest := Under(i, Visible(t.kids[i], false)), VisibleKids(t, i + 1);
    assert VisibleKids(t, i) == here + rest;
    assert (here + rest)[..|here| + m + 1] == here + rest[..m + 1];
  }

  lemma {:induction false} ToggleKids(t: Node, i: nat, k: nat)
    requires i <= |t.kids| && k < |VisibleKids(t, i)| && Valid(t, VisibleKids(t, i)[k])
    ensures var p := VisibleKids(t, i)[k]; p != [] && i <= p[0]
    ensures var t' := Toggle(t, VisibleKids(t, i)[k]);
            && |t'.kids| == |t.kids|
            && k < |VisibleKids(t', i)| && VisibleKids(t', i)[..k + 1] == VisibleKids(t, i)[..k + 1]
    decreases t, |t.kids| - i
  {
    hide Visible, VisibleKids, Valid, Toggle;
    KidsValid(t, i, k);
    KidSplit(t, i, k);
    var p := VisibleKids(t, i)[k];
    var t' := Toggle(t, p);
    var here := Visible(t.kids[i], false);
    if k < |here| {
      ToggleUnder(t, i, here[k], p);
      ToggleVisible(t.kids[i], false, k);
      UnderPrefix(i, here, Visible(t'.kids[i], false), k);
      KidsHere(t, i, k);
      KidsHere(t', i, k);
    } else {
      var m := k - |here|;
      ToggleKids(t, i + 1, m);
      ToggleBeside(t, p, i);
      KidsBeyond(t, i, m);
      KidsBeyond(t', i, m);
    }
  }

  /** MAIN RESULT (folding). Folding or unfolding a visible node other than the root leaves every
      node up to it visible, in the same place and on the same display line. */
  lemma FoldKeepsLines(t: Node, k: nat, j: nat)
    requires j <= k < |Visible(t, true)| && k > 0 && Valid(t, Visible(t, true)[k])
    ensures var t' := Toggle(t, Visible(t, true)[k]);
            && j < |Visible(t', true)| && Visible(t', true)[j] == Visible(t, true)[j]
            && LineOf(Visible(t', true), j) == LineOf(Visible(t, true), j)
  {
    ToggleVisible(t, true, k);
    var v, v' := Visible(t, true), Visible(Toggle(t, Visible(t, true)[k]), true);
    assert v[..j + 1] == v[..k + 1][..j + 1] && v'[..j + 1] == v'[..k + 1][..j + 1];
    assert v[j] == v[..j + 1][j] && v'[j] == v'[..j + 1][j];
    LinesOfPrefix(v, v', j);
  }
}
