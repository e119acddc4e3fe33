/** Which nodes are on the screen list, told from the folded flags alone, and which of them
    appear or disappear when a node is folded or unfolded. */
module TreeFolding {
  import opened TreeCursor
  import opened TreeCursorProofs

  /** The ancestor of `q` at level i is there and unfolded. */
  predicate OpenAt(t: Node, q: Path, i: nat) {
    i <= |q| && Valid(t, q[..i]) && !NodeAt(t, q[..i]).folded
  }

  /** All proper ancestors but the root are unfolded. */
  predicate Shows(t: Node, q: Path) {
    Valid(t, q) && forall i :: 0 < i < |q| ==> OpenAt(t, q, i)
  }

  lemma OpenUnder(t: Node, q: Path, i: nat)
    requires q != [] && q[0] < |t.kids| && 0 < i <= |q|
    ensures OpenAt(t, q, i) <==> OpenAt(t.kids[q[0]], q[1..], i - 1)
  {
    assert q[..i][1..] == q[1..][..i - 1];
  }

  lemma ShowsUnder(t: Node, q: Path)
    requires q != [] && q[0] < |t.kids|
    ensures Shows(t, q) <==> Shows(t.kids[q[0]], q[1..]) && (|q| > 1 ==> !t.kids[q[0]].folded)
  {
    var kid, rest := t.kids[q[0]], q[1..];
    assert |q| > 1 ==> rest[..0] == [] && (OpenAt(kid, rest, 0) <==> !kid.folded);
    hide OpenAt;
    forall i | 0 < i <= |q| ensures OpenAt(t, q, i) <==> OpenAt(kid, rest, i - 1) {
      OpenUnder(t, q, i);
    }
    if Shows(t, q) {
      forall i | 0 < i < |rest| ensures OpenAt(kid, rest, i) {
        assert OpenAt(t, q, i + 1);
      }
      assert |q| > 1 ==> OpenAt(t, q, 1);
    }
  }

  lemma {:induction false} ValidPrefix(t: Node, q: Path, i: nat)
    requires Valid(t, q) && i <= |q|
    ensures Valid(t, q[..i])
    decreases |q|
  {
    if i > 0 {
      ValidPrefix(t.kids[q[0]], q[1..], i - 1);
      assert q[..i][1..] == q[1..][..i - 1];
    }
  }

  lemma UnderHas(i: nat, ps: seq<Path>, q: Path)
    ensures q in Under(i, ps) <==> q != [] && q[0] == i && q[1..] in ps
  {
    if q in Under(i, ps) {
      var k :| 0 <= k < |ps| && Under(i, ps)[k] == q;
      assert q[1..] == ps[k];
    }
    if q != [] && q[0] == i && q[1..] in ps {
      var k :| 0 <= k < |ps| && ps[k] == q[1..];
      assert Under(i, ps)[k] == q;
    }
  }

  lemma {:induction false} KidsHave(t: Node, i: nat, q: Path)
    requires i <= |t.kids|
    ensures q in VisibleKids(t, i) <==> q != [] && i <= q[0] < |t.kids| && q[1..] in Visible(t.kids[q[0]], false)
    decreases |t.kids| - i
  {
    hide Visible;
    if i < |t.kids| {
      UnderHas(i, Visible(t.kids[i], false), q);
      KidsHave(t, i + 1, q);
    }
  }

  lemma {:induction false} ListedIff(t: Node, root: bool, q: Path)
    ensures q in Visible(t, root) <==> Shows(t, q) && (q != [] ==> root || !t.folded)
    decreases |q|
  {
    if q == [] {
      assert Visible(t, root)[0] == [];
    } else {
      KidsHave(t, 0, q);
      if q[0] < |t.kids| {
        ListedIff(t.kids[q[0]], false, q[1..]);
        ShowsUnder(t, q);
      }
    }
  }

  /** MAIN RESULT (the screen list). It lists exactly the nodes whose ancestors, the root aside,
      are all unfolded. */
  lemma VisibleIff(t: Node, q: Path)
    ensures q in Visible(t, true) <==> Shows(t, q)
  {
    ListedIff(t, true, q);
  }

  /** Preorder: an ancestor first, then by the smaller child number. */
  predicate Before(p: Path, q: Path) {
    q != [] && (p == [] || p[0] < q[0] || (p[0] == q[0] && Before(p[1..], q[1..])))
  }

  lemma {:induction false} KidsInOrder(t: Node, i: nat, j: nat, k: nat)
    requires i <= |t.kids| && j < k < |VisibleKids(t, i)|
    ensures Before(VisibleKids(t, i)[j], VisibleKids(t, i)[k])
    decreases t, |t.kids| - i
  {
    var here, rest := Visible(t.kids[i], false), VisibleKids(t, i + 1);
    assert VisibleKids(t, i) == Under(i, here) + rest;
    if k < |here| {
      InOrder(t.kids[i], false, j, k);
      assert Under(i, here)[j][1..] == here[j] && Under(i, here)[k][1..] == here[k];
    } else if j >= |here| {
      KidsInOrder(t, i + 1, j - |here|, k - |here|);
    } else {
      assert rest[k - |here|] in rest;
      KidsHave(t, i + 1, rest[k - |here|]);
      assert Under(i, here)[j][0] == i;
    }
  }

  lemma {:induction false} InOrder(t: Node, root: bool, j: nat, k: nat)
    requires j < k < |Visible(t, root)|
    ensures Before(Visible(t, root)[j], Visible(t, root)[k])
    decreases t, |t.kids| + 1
  {
    var kids := VisibleKids(t, 0);
    assert Visible(t, root) == [[]] + kids;
    hide Visible, VisibleKids;
    if j > 0 {
      KidsInOrder(t, 0, j - 1, k - 1);
    } else {
      assert kids[k - 1] in kids;
      KidsHave(t, 0, kids[k - 1]);
    }
  }

  /** MAIN RESULT (the order of the list). It is preorder. */
  lemma ListedInOrder(t: Node, j: nat, k: nat)
    requires j < k < |Visible(t, true)|
    ensures Before(Visible(t, true)[j], Visible(t, true)[k])
  {
    InOrder(t, true, j, k);
  }

  /** Toggling flips one flag and nothing else. */
  lemma {:induction false} ToggleFlips(t: Node, p: Path, q: Path)
    requires Valid(t, p)
    ensures Valid(Toggle(t, p), q) <==> Valid(t, q)
    ensures Valid(t, q) ==>
              NodeAt(Toggle(t, p), q).folded == (if p == q then !NodeAt(t, q).folded else NodeAt(t, q).folded)
    decreases |p|
  {
    if p != [] && q != [] && q[0] == p[0] {
      ToggleFlips(t.kids[p[0]], p[1..], q[1..]);
      assert p == [p[0]] + p[1..] && q == [q[0]] + q[1..];
    }
  }

  lemma OpenToggled(t: Node, p: Path, q: Path, i: nat)
    requires Valid(t, p) && i <= |q|
    ensures OpenAt(Toggle(t, p), q, i) <==> if q[..i] == p then NodeAt(t, p).folded else OpenAt(t, q, i)
  {
    ToggleFlips(t, p, q[..i]);
  }

  lemma ElsewhereAsBefore(t: Node, p: Path, q: Path)
    requires Valid(t, p) && !(p < q)
    ensures Shows(Toggle(t, p), q) <==> Shows(t, q)
  {
    ToggleFlips(t, p, q);
    hide OpenAt;
    forall i | 0 < i < |q| ensures OpenAt(Toggle(t, p), q, i) <==> OpenAt(t, q, i) {
      OpenToggled(t, p, q, i);
      assert q[..i] < q;
    }
  }

  /** A node below `p` shows iff `p` does and `p` and everything between the two is unfolded. */
  lemma ShowsThrough(t: Node, p: Path, q: Path)
    requires Valid(t, q) && p != [] && p < q
    ensures Shows(t, q) <==> Shows(t, p) && OpenAt(t, q, |p|) && forall i :: |p| < i < |q| ==> OpenAt(t, q, i)
  {
    ValidPrefix(t, q, |p|);
    assert q[..|p|] == p;
    forall i | 0 < i < |p| ensures OpenAt(t, p, i) <==> OpenAt(t, q, i) {
      assert p[..i] == q[..i];
    }
    hide OpenAt;
  }

  /** MAIN RESULT (what folding shows and hides). Toggling a node other than the root: a node that
      is not below it is listed as before; a node below it is listed in at most one of the two
      trees, the one where the toggled node is unfolded, and there iff the toggled node is listed
      and everything between the two is unfolded. */
  lemma FoldShows(t: Node, p: Path, q: Path)
    requires Valid(t, p) && p != []
    ensures !(p < q) ==> (q in Visible(Toggle(t, p), true) <==> q in Visible(t, true))
    ensures p < q && Valid(t, q) ==>
              var listed := p in Visible(t, true) && forall i :: |p| < i < |q| ==> OpenAt(t, q, i);
              && (q in Visible(t, true) <==> listed && !NodeAt(t, p).folded)
              && (q in Visible(Toggle(t, p), true) <==> listed && NodeAt(t, p).folded)
  {
    hide Visible, Toggle, Shows;
    var t' := Toggle(t, p);
    VisibleIff(t, q);
    VisibleIff(t', q);
    VisibleIff(t, p);
    ElsewhereAsBefore(t, p, p);
    if p < q && Valid(t, q) {
      ToggleFlips(t, p, q);
      ShowsThrough(t, p, q);
      ShowsThrough(t', p, q);
      assert q[..|p|] == p;
      forall i | |p| <= i < |q|
        ensures OpenAt(t', q, i) <==> if i == |p| then NodeAt(t, p).folded else OpenAt(t, q, i)
      {
        OpenToggled(t, p, q, i);
      }
    } else if !(p < q) {
      ElsewhereAsBefore(t, p, q);
    }
  }

  /** The depth that is drawn: nothing at the root, and one more below a node with several children. */
  lemma {:induction false} DepthIs(t: Node, p: Path, i: nat)
    requires Valid(t, p) && i < |NodeAt(t, p).kids|
    ensures Depth(t, []) == 0
    ensures Valid(t, p + [i])
    ensures Depth(t, p + [i]) == Depth(t, p) + if |NodeAt(t, p).kids| > 1 then 1 else 0
    decreases |p|
  {
    if p == [] {
      assert ([] + [i])[1..] == [];
    } else {
      DepthIs(t.kids[p[0]], p[1..], i);
      assert (p + [i])[1..] == p[1..] + [i];
    }
  }
}
