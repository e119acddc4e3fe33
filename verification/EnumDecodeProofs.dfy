/** Showing a number as constants loses nothing, and finds exactly the flags of a union. */
module EnumDecodeProofs {
  import opened EnumDef
  import opened EnumDecode
  import opened Wrappers

  lemma {:induction false} GreedySums(vals: seq<Val>, v: int)
    ensures Sum(Greedy(vals, v).0) + Greedy(vals, v).1 == v
  {
    if vals != [] {
      var rest := if vals[0].val <= v then v - vals[0].val else v;
      GreedySums(vals[1..], rest);
      var more := if rest == 0 then [] else Greedy(vals[1..], rest).0;
      assert ([vals[0]] + more)[1..] == more;
    }
  }

  lemma {:induction false} ExactIs(vals: seq<Val>, v: int)
    ensures Exact(vals, v).Some? <==> exists e :: e in vals && e.val == v
    ensures Exact(vals, v).Some? ==> Exact(vals, v).value in vals && Exact(vals, v).value.val == v
  {
    if vals != [] {
      ExactIs(vals[1..], v);
      assert vals == [vals[0]] + vals[1..];
      assert vals[0] in vals;
    }
  }

  lemma EmptySum()
    ensures Sum([]) == 0
  {
  }

  lemma {:induction false} NonePicked(vals: seq<Val>, mask: seq<bool>)
    requires |mask| == |vals| && forall i :: 0 <= i < |mask| ==> !mask[i]
    ensures Pick(vals, mask) == []
  {
    if vals != [] {
      NonePicked(vals[1..], mask[1..]);
    }
  }

  /** The constants taken are those of some mask, and with values that are not negative nothing
      that was left out fits into the residue. */
  lemma {:induction false} GreedyMaximal(vals: seq<Val>, v: int) returns (mask: seq<bool>)
    requires forall i :: 0 <= i < |vals| ==> vals[i].val >= 0
    ensures |mask| == |vals| && Greedy(vals, v).0 == Pick(vals, mask)
    ensures Greedy(vals, v).1 == 0 || forall i :: 0 <= i < |vals| && !mask[i] ==> vals[i].val > Greedy(vals, v).1
    ensures Greedy(vals, v).1 <= v && (v >= 0 ==> Greedy(vals, v).1 >= 0)
  {
    if vals == [] {
      mask := [];
    } else {
      var take := vals[0].val <= v;
      var rest := if take then v - vals[0].val else v;
      var more: seq<bool>;
      if rest == 0 {
        more := seq(|vals| - 1, _ => false);
        NonePicked(vals[1..], more);
      } else {
        more := GreedyMaximal(vals[1..], rest);
      }
      mask := [take] + more;
      assert mask[1..] == more;
      forall i | 0 <= i < |vals| && !mask[i] && Greedy(vals, v).1 != 0 ensures vals[i].val > Greedy(vals, v).1 {
        assert i > 0 ==> !more[i - 1] && vals[1..][i - 1] == vals[i];
      }
    }
  }

  /** MAIN RESULT (nothing lost). For every list and value: a name is shown iff it is a constant
      of exactly that value; otherwise the values of the shown names and the shown number or
      residue add up to the value. */
  lemma ShowSums(vals: seq<Val>, v: int)
    ensures Show(vals, v).Name? <==> exists e :: e in vals && e.val == v
    ensures Show(vals, v).Name? ==> exists e :: e in vals && e.val == v && Show(vals, v).name == e.name
    ensures Show(vals, v).Number? ==> Show(vals, v).value == v
    ensures Show(vals, v).Flags? ==>
              Show(vals, v).text == JoinNames(Greedy(vals, v).0) &&
              Sum(Greedy(vals, v).0) + Show(vals, v).residue == v
  {
    hide Exact, Greedy, Sum;
    ExactIs(vals, v);
    GreedySums(vals, v);
    assert Sum([]) == 0 by { EmptySum(); }
  }

  // ----- flags -----

  lemma {:induction false} PowersApart(p: int, q: int)
    requires PowerOfTwo(p) && PowerOfTwo(q) && q < p
    ensures 2 * q <= p
    decreases p
  {
    if q > 1 {
      PowersApart(p / 2, q / 2);
    }
  }

  lemma FlagTail(vals: seq<Val>)
    requires FlagList(vals) && vals != []
    ensures FlagList(vals[1..])
    ensures forall i :: 0 <= i < |vals[1..]| ==> vals[1..][i].val < vals[0].val
  {
  }

  lemma SumPick(vals: seq<Val>, mask: seq<bool>)
    requires vals != [] && |mask| == |vals|
    ensures Sum(Pick(vals, mask)) == (if mask[0] then vals[0].val else 0) + Sum(Pick(vals[1..], mask[1..]))
  {
    var more := Pick(vals[1..], mask[1..]);
    if mask[0] {
      assert ([vals[0]] + more)[1..] == more;
    } else {
      assert [] + more == more;
    }
  }

  /** Smaller powers of two add up to less than a power of two. */
  lemma {:induction false} SumBelow(vals: seq<Val>, mask: seq<bool>, p: int)
    requires FlagList(vals) && |mask| == |vals| && PowerOfTwo(p)
    requires vals != [] ==> vals[0].val < p
    ensures 0 <= Sum(Pick(vals, mask)) < p
    decreases |vals|
  {
    if vals != [] {
      FlagTail(vals);
      PowersApart(p, vals[0].val);
      SumBelow(vals[1..], mask[1..], vals[0].val);
      SumPick(vals, mask);
    }
  }

  lemma {:induction false} NothingPicked(vals: seq<Val>, mask: seq<bool>)
    requires FlagList(vals) && |mask| == |vals| && Sum(Pick(vals, mask)) == 0
    ensures Pick(vals, mask) == []
    decreases |vals|
  {
    if vals != [] {
      FlagTail(vals);
      SumPick(vals, mask);
      SumBelow(vals[1..], mask[1..], vals[0].val);
      NothingPicked(vals[1..], mask[1..]);
    }
  }

  lemma HeadPositive(vals: seq<Val>)
    requires FlagList(vals) && vals != []
    ensures PowerOfTwo(vals[0].val) && vals[0].val >= 1
  {
  }

  lemma GreedyStep(vals: seq<Val>, take: bool, rest: int, more: seq<Val>)
    requires vals != [] && 0 <= rest < vals[0].val
    requires rest == 0 ==> more == []
    requires Greedy(vals[1..], rest) == (more, 0)
    ensures Greedy(vals, if take then vals[0].val + rest else rest) == (if take then [vals[0]] + more else more, 0)
  {
  }

  /** The greedy loop finds exactly the flags a union is made of. */
  lemma {:induction false} GreedyPicks(vals: seq<Val>, mask: seq<bool>)
    requires FlagList(vals) && |mask| == |vals|
    ensures Greedy(vals, Sum(Pick(vals, mask))) == (Pick(vals, mask), 0)
    decreases |vals|
  {
    if vals != [] {
      HeadPositive(vals);
      FlagTail(vals);
      SumPick(vals, mask);
      SumBelow(vals[1..], mask[1..], vals[0].val);
      hide FlagList, Greedy, Sum, PowerOfTwo;
      var more := Pick(vals[1..], mask[1..]);
      if Sum(more) == 0 {
        NothingPicked(vals[1..], mask[1..]);
      }
      GreedyPicks(vals[1..], mask[1..]);
      assert [] + more == more;
      GreedyStep(vals, mask[0], Sum(more), more);
    }
  }

  lemma {:induction false} PickOne(vals: seq<Val>, mask: seq<bool>, e: Val)
    requires FlagList(vals) && |mask| == |vals| && e in vals && e.val == Sum(Pick(vals, mask))
    ensures Pick(vals, mask) == [e]
    decreases |vals|
  {
    FlagTail(vals);
    SumPick(vals, mask);
    SumBelow(vals[1..], mask[1..], vals[0].val);
    if e == vals[0] {
      if mask[0] {
        NothingPicked(vals[1..], mask[1..]);
      }
    } else {
      assert e in vals[1..];
      PickOne(vals[1..], mask[1..], e);
    }
  }

  lemma {:induction false} PickIn(vals: seq<Val>, mask: seq<bool>)
    requires |mask| == |vals|
    ensures forall e :: e in Pick(vals, mask) ==> e in vals
  {
    if vals != [] {
      PickIn(vals[1..], mask[1..]);
      assert forall e :: e in vals[1..] ==> e in vals;
    }
  }

  lemma OneSum(flags: seq<Val>)
    ensures flags == [] ==> Sum(flags) == 0
    ensures |flags| == 1 ==> flags[0] in flags && Sum(flags) == flags[0].val
  {
  }

  /** MAIN RESULT (flags). When the constants are distinct powers of two, in the order the parser
      keeps them, a union of any of them is shown as exactly those, with no residue: one by its
      name, several joined in descending order, none as the number 0. */
  lemma FlagsShown(vals: seq<Val>, mask: seq<bool>)
    requires FlagList(vals) && |mask| == |vals|
    ensures var flags := Pick(vals, mask);
            Show(vals, Sum(flags)) ==
            if flags == [] then Number(0) else if |flags| == 1 then Name(flags[0].name) else Flags(JoinNames(flags), 0)
  {
    hide Greedy, Exact, Pick, FlagList;
    var flags := Pick(vals, mask);
    GreedyPicks(vals, mask);
    ExactIs(vals, Sum(flags));
    PickIn(vals, mask);
    OneSum(flags);
    if Exact(vals, Sum(flags)).Some? {
      PickOne(vals, mask, Exact(vals, Sum(flags)).value);
    }
  }

  /** The order matters: with the flags 1, 2, 4 in ascending order, 6 is shown as A|B+3. */
  lemma AscendingLoses()
    ensures Show([Val("A", 1), Val("B", 2), Val("C", 4)], 6) == Flags("A|B", 3)
  {
    var a, b, c := Val("A", 1), Val("B", 2), Val("C", 4);
    assert [a, b, c][1..] == [b, c] && [b, c][1..] == [c] && [c][1..] == [];
    assert Greedy([c], 3) == ([], 3);
    assert [b] + [] == [b] && [a] + [b] == [a, b];
    assert Greedy([b, c], 5) == ([b], 3);
    assert Greedy([a, b, c], 6) == ([a, b], 3);
    assert Exact([], 6) == None;
    assert Exact([c], 6) == None;
    assert Exact([b, c], 6) == None;
    assert [a, b][..1] == [a];
    assert JoinNames([a, b]) == "A|B";
  }
}
