/** Every parsed list is in descending order, and saving then loading a definition rebuilds it exactly
    when the printer's int counter does not wrap onto one of its values. */
module EnumDefProofs {
  import opened EnumText
  import opened EnumDef
  import opened Wrappers

  // ----- the parser keeps the list sorted -----

  lemma ConsParts(vals: seq<Val>)
    requires vals != []
    ensures multiset(vals) == multiset(vals[1..]) + multiset{vals[0]}
    ensures forall v :: v in vals ==> v == vals[0] || v in vals[1..]
  {
    assert vals == [vals[0]] + vals[1..];
  }

  lemma TailSorted(vals: seq<Val>)
    requires Sorted(vals) && vals != []
    ensures Sorted(vals[1..]) && forall v :: v in vals[1..] ==> v.val <= vals[0].val
  {
  }

  lemma ConsSorted(e: Val, vals: seq<Val>)
    requires Sorted(vals) && forall v :: v in vals ==> v.val <= e.val
    ensures Sorted([e] + vals)
    ensures multiset([e] + vals) == multiset(vals) + multiset{e}
  {
    forall i, j | 0 <= i < j < |vals| + 1 ensures ([e] + vals)[j].val <= ([e] + vals)[i].val {
      assert vals[j - 1] in vals;
    }
  }

  lemma InsertFirst(vals: seq<Val>, e: Val)
    requires vals == [] || vals[0].val <= e.val
    ensures Insert(vals, e) == [e] + vals
  {
  }

  lemma {:induction false} InsertSorted(vals: seq<Val>, e: Val)
    requires Sorted(vals)
    ensures Sorted(Insert(vals, e))
    ensures multiset(Insert(vals, e)) == multiset(vals) + multiset{e}
    ensures forall v :: v in Insert(vals, e) ==> v in vals || v == e
  {
    if vals != [] && vals[0].val > e.val {
      var r := Insert(vals[1..], e);
      assert Insert(vals, e) == [vals[0]] + r;
      TailSorted(vals);
      InsertSorted(vals[1..], e);
      hide *;
      ConsSorted(vals[0], r);
      ConsParts(vals);
    } else {
      InsertFirst(vals, e);
      if vals != [] {
        TailSorted(vals);
        ConsParts(vals);
      }
      hide *;
      ConsSorted(e, vals);
    }
  }

  lemma {:induction false} ItemsSorted(kind: Kind, lx: Lexer, val: int, vals: seq<Val>)
    requires Sorted(vals)
    ensures ParseItems(kind, lx, val, vals).Some? ==> Sorted(ParseItems(kind, lx, val, vals).value.1)
    decreases Left(lx)
  {
    hide Sorted, NextToken, Assigned, Insert;
    if kind != Null && lx.token != "}" {
      var (kind1, lx1) := NextToken(lx);
      if kind1 == Sign {
        var found := if lx1.token == "=" then Assigned(lx1) else Some((val, lx1));
        if found.Some? {
          var (v, lx2) := found.value;
          var (kind3, lx3) := if lx2.token == "," then NextToken(lx2) else (Sign, lx2);
          InsertSorted(vals, Val(lx.token, v));
          ItemsSorted(kind3, lx3, Wrap64(v + 1), Insert(vals, Val(lx.token, v)));
        }
      }
    }
  }

  lemma DefSorted(piece: string)
    ensures ParseDef(piece).Def? ==> Sorted(ParseDef(piece).vals)
  {
    hide NextToken, ParseItems;
    var (_, lx0) := NextToken(Lexer(Some(piece), ""));
    var (_, lx1) := NextToken(lx0);
    var (_, lx2) := NextToken(lx1);
    var (kind3, lx3) := NextToken(lx2);
    ItemsSorted(kind3, lx3, 0, []);
  }

  /** MAIN RESULT (sorted lists). Whatever text is parsed, every definition in the tree lists its
      constants in descending order. */
  lemma {:induction false} PiecesSorted(pieces: seq<string>, root: Root)
    requires forall n :: n in root ==> Sorted(root[n])
    ensures forall n :: n in ParsePieces(pieces, root).1 ==> Sorted(ParsePieces(pieces, root).1[n])
    decreases |pieces|
  {
    if pieces != [] {
      hide Sorted, ParseItems, NextToken;
      var d := ParseDef(pieces[0]);
      if d.Def? {
        DefSorted(pieces[0]);
        PiecesSorted(pieces[1..], if d.name in root then root else root[d.name := d.vals]);
      } else if d.Skip? {
        PiecesSorted(pieces[1..], root);
      }
    }
  }

  // ----- reading back what was printed -----

  /** The printed text after the name of the first constant. */
  function AfterName(asc: seq<Val>, last: int): (r: string)
    requires asc != []
    ensures r != "" && IsStop(r[0])
    decreases |asc|, 1
  {
    (if Implicit(asc[0], last) then "" else "=" + PrintLong(asc[0].val)) + NextItem(asc)
  }

  function NextItem(asc: seq<Val>): (r: string)
    requires asc != []
    ensures r != "" && r[0] == if |asc| == 1 then '}' else ','
    decreases |asc|, 0
  {
    if |asc| == 1 then "}" else "," + (asc[1].name + AfterName(asc[1..], Wrap32(asc[0].val)))
  }

  lemma Associate(a: string, b: string, c: string)
    ensures a + (b + c) == a + b + c
  {
  }

  lemma ItemBefore(e: Val, last: int, x: string)
    ensures Item(e, last) + x == e.name + ((if Implicit(e, last) then "" else "=" + PrintLong(e.val)) + x)
  {
    hide Implicit, PrintLong;
    if Implicit(e, last) {
      assert "" + x == x;
    } else {
      Associate(e.name + "=", PrintLong(e.val), x);
      Associate(e.name, "=", PrintLong(e.val));
      Associate(e.name, "=" + PrintLong(e.val), x);
    }
  }

  lemma Bracket(item: string, rest: string)
    ensures (item + "," + rest) + "}" == item + ("," + (rest + "}"))
  {
    Associate(item + ",", rest, "}");
    Associate(item, ",", rest + "}");
  }

  lemma {:induction false} JoinedIs(asc: seq<Val>, last: int)
    requires asc != []
    ensures Joined(asc, last) + "}" == asc[0].name + AfterName(asc, last)
    decreases |asc|
  {
    ItemBefore(asc[0], last, NextItem(asc));
    hide Item, Implicit, PrintLong, Wrap32;
    if |asc| > 1 {
      JoinedIs(asc[1..], Wrap32(asc[0].val));
      Bracket(Item(asc[0], last), Joined(asc[1..], Wrap32(asc[0].val)));
    }
  }

  /** The list the parser builds from the printed text, with the values it computes itself. */
  function Reread(asc: seq<Val>, last: int, val: int, acc: seq<Val>): seq<Val> {
    if asc == [] then acc
    else
      var v := if Implicit(asc[0], last) then val else asc[0].val;
      Reread(asc[1..], Wrap32(asc[0].val), Wrap64(v + 1), Insert(acc, Val(asc[0].name, v)))
  }

  ghost predicate ValidVals(asc: seq<Val>) {
    forall i :: 0 <= i < |asc| ==> ValidName(asc[i].name) && IsLong(asc[i].val)
  }

  /** The sign that follows the first constant, read with its value. */
  lemma ReadsItem(asc: seq<Val>, last: int, val: int)
    requires asc != [] && ValidVals(asc)
    ensures var (kind1, lx1) := NextToken(Lexer(Some(AfterName(asc, last)), asc[0].name));
            && kind1 == Sign
            && (if lx1.token == "=" then Assigned(lx1) else Some((val, lx1))) ==
               Some((if Implicit(asc[0], last) then val else asc[0].val,
                     Lexer(Some(NextItem(asc)[1..]), [NextItem(asc)[0]])))
  {
    hide NextToken, Strtol, SkipSpace, ValidName, PrintLong;
    var next := NextItem(asc);
    assert next == [next[0]] + next[1..];
    if Implicit(asc[0], last) {
      assert AfterName(asc, last) == [next[0]] + next[1..];
      SignToken(next[0], next[1..], asc[0].name);
    } else {
      var number := PrintLong(asc[0].val) + next;
      assert AfterName(asc, last) == ['='] + number;
      SignToken('=', number, asc[0].name);
      StrtolReadsPrintLong(asc[0].val, next);
      SignToken(next[0], next[1..], "=");
    }
  }

  lemma ReadsNext(asc: seq<Val>)
    requires |asc| > 1 && ValidVals(asc)
    ensures NextItem(asc)[0] == ','
    ensures NextToken(Lexer(Some(NextItem(asc)[1..]), ",")) ==
            (Str, Lexer(Some(AfterName(asc[1..], Wrap32(asc[0].val))), asc[1].name))
  {
    hide NextToken;
    var rest := AfterName(asc[1..], Wrap32(asc[0].val));
    assert NextItem(asc)[1..] == asc[1].name + rest;
    NameToken(asc[1].name, rest, ",");
  }

  lemma {:induction false} ReadsItems(asc: seq<Val>, last: int, val: int, acc: seq<Val>)
    requires asc != [] && ValidVals(asc)
    ensures ParseItems(Str, Lexer(Some(AfterName(asc, last)), asc[0].name), val, acc) ==
            Some((Lexer(Some(""), "}"), Reread(asc, last, val, acc)))
    decreases |asc|
  {
    hide NextToken, Assigned, AfterName, Insert, Wrap64;
    var lx := Lexer(Some(AfterName(asc, last)), asc[0].name);
    var v := if Implicit(asc[0], last) then val else asc[0].val;
    var acc' := Insert(acc, Val(asc[0].name, v));
    assert lx.token != "}" by { assert !IsStop(lx.token[0]); }
    ReadsItem(asc, last, val);
    var lx2 := Lexer(Some(NextItem(asc)[1..]), [NextItem(asc)[0]]);
    if |asc| == 1 {
      assert ParseItems(Sign, lx2, Wrap64(v + 1), acc') == Some((lx2, acc'));
      assert Reread(asc[1..], Wrap32(asc[0].val), Wrap64(v + 1), acc') == acc';
    } else {
      ReadsNext(asc);
      ReadsItems(asc[1..], Wrap32(asc[0].val), Wrap64(v + 1), acc');
    }
  }

  lemma Prefixes(name: string, braced: string)
    requires ValidName(name)
    ensures NextToken(Lexer(Some("enum" + (" " + name + (" " + "{" + braced))), "")) ==
            (Str, Lexer(Some(" " + name + (" " + "{" + braced)), "enum"))
    ensures NextToken(Lexer(Some(" " + name + (" " + "{" + braced)), "enum")) ==
            (Str, Lexer(Some(" " + "{" + braced), name))
    ensures NextToken(Lexer(Some(" " + "{" + braced), name)) == (Sign, Lexer(Some(braced), "{"))
  {
    hide NextToken;
    NameToken("enum", " " + name + (" " + "{" + braced), "");
    NameToken(name, " " + "{" + braced, "enum");
    SignToken('{', braced, name);
  }

  /** The printed text of a non-empty definition is read as the list Reread computes. */
  lemma ReadsDef(name: string, vals: seq<Val>)
    requires ValidDef(name, vals) && vals != []
    ensures ParseDef(SavedLine(name, vals)) == Def(name, Reread(Reverse(vals), -1, 0, []))
  {
    hide NextToken, ParseItems, AfterName, NextItem, Reread, Joined, IsStop, IsPunct;
    var asc := Reverse(vals);
    var items := AfterName(asc, -1);
    JoinedIs(asc, -1);
    var braced := asc[0].name + items;
    var line := SavedLine(name, vals);
    assert line == "enum" + (" " + name + (" " + "{" + braced)) by {
      assert line == "enum " + name + " {" + Joined(asc, -1) + "}";
      assert "enum " == "enum" + " ";
      assert " {" == " " + "{";
      assert Joined(asc, -1) + "}" == braced;
    }
    Prefixes(name, braced);
    NameToken(asc[0].name, items, "{");
    ReadsItems(asc, -1, 0, []);
  }

  lemma NullIsName()
    ensures ValidName("null)")
    ensures IsStop("}"[0])
  {
  }

  /** An empty list is printed as "(null)", which does not parse. */
  lemma EmptyFails(name: string)
    requires ValidName(name)
    ensures ParseDef(SavedLine(name, [])) == Fail
  {
    hide NextToken, IsStop, IsPunct;
    var line := SavedLine(name, []);
    assert line == "enum" + (" " + name + (" " + "{" + "(null)}")) by {
      assert line == "enum " + name + " {" + "(null)" + "}";
      assert "enum " == "enum" + " ";
      assert " {" == " " + "{";
    }
    Prefixes(name, "(null)}");
    SignToken('(', "null)}", "{");
    assert "(null)}" == "(" + "null)}";
    NullIsName();
    NameToken("null)", "}", "(");
    assert "null)}" == "null)" + "}";
  }

  // ----- when what is read is what was printed -----

  lemma InsertKeeps(vals: seq<Val>, e: Val, v: Val)
    requires v in vals || v == e
    ensures v in Insert(vals, e)
  {
    if !(vals == [] || vals[0].val <= e.val) && v != vals[0] {
      assert vals == [vals[0]] + vals[1..];
      InsertKeeps(vals[1..], e, v);
    }
  }

  lemma {:induction false} RereadKeeps(asc: seq<Val>, last: int, val: int, acc: seq<Val>, v: Val)
    requires v in acc
    ensures v in Reread(asc, last, val, acc)
    decreases |asc|
  {
    hide Insert, Implicit, Wrap32, Wrap64;
    if asc != [] {
      var w := if Implicit(asc[0], last) then val else asc[0].val;
      InsertKeeps(acc, Val(asc[0].name, w), v);
      RereadKeeps(asc[1..], Wrap32(asc[0].val), Wrap64(w + 1), Insert(acc, Val(asc[0].name, w)), v);
    }
  }

  /** In ascending order: constant i is printed by name alone although it is not its predecessor
      plus one. */
  ghost predicate Misprinted(asc: seq<Val>, i: int) {
    0 < i < |asc| && Implicit(asc[i], Wrap32(asc[i - 1].val)) && asc[i].val != asc[i - 1].val + 1
  }

  ghost predicate Ascending(asc: seq<Val>) {
    forall i, j :: 0 <= i < j < |asc| ==> asc[i].val <= asc[j].val
  }

  function LastBefore(asc: seq<Val>, k: nat): int
    requires k <= |asc|
  {
    if k == 0 then -1 else Wrap32(asc[k - 1].val)
  }

  function NextVal(asc: seq<Val>, k: nat): int
    requires k <= |asc|
  {
    if k == 0 then 0 else Wrap64(asc[k - 1].val + 1)
  }

  /** One constant of the printed list. */
  lemma RereadFirst(asc: seq<Val>, last: int, val: int, acc: seq<Val>)
    requires asc != []
    ensures var e := asc[0]; var v := if Implicit(e, last) then val else e.val;
            Reread(asc, last, val, acc) == Reread(asc[1..], Wrap32(e.val), Wrap64(v + 1), Insert(acc, Val(e.name, v)))
  {
    hide Implicit, Wrap32, Wrap64, Insert;
  }

  lemma ValueRight(asc: seq<Val>, k: nat)
    requires ValidVals(asc) && k < |asc| && !Misprinted(asc, k)
    ensures Implicit(asc[k], LastBefore(asc, k)) ==> NextVal(asc, k) == asc[k].val
  {
    hide ValidName;
    assert IsLong(asc[k].val);
  }

  lemma Counters(asc: seq<Val>, k: nat)
    requires k < |asc|
    ensures LastBefore(asc, k + 1) == Wrap32(asc[k].val) && NextVal(asc, k + 1) == Wrap64(asc[k].val + 1)
  {
    hide Wrap32, Wrap64;
  }

  lemma ReverseSnoc(asc: seq<Val>, k: nat)
    requires k < |asc| && Ascending(asc)
    ensures Reverse(asc[..k + 1]) == [asc[k]] + Reverse(asc[..k])
    ensures k > 0 ==> Reverse(asc[..k])[0].val <= asc[k].val
  {
    assert asc[..k + 1][..k] == asc[..k];
  }

  /** As long as nothing is misprinted the parser has rebuilt what has been printed so far. */
  lemma RereadStep(asc: seq<Val>, k: nat)
    requires Ascending(asc) && ValidVals(asc) && k < |asc| && !Misprinted(asc, k)
    ensures Reread(asc[k..], LastBefore(asc, k), NextVal(asc, k), Reverse(asc[..k])) ==
            Reread(asc[k + 1..], LastBefore(asc, k + 1), NextVal(asc, k + 1), Reverse(asc[..k + 1]))
  {
    hide *;
    var e, rest := asc[k], asc[k..];
    assert rest[0] == e && rest[1..] == asc[k + 1..];
    ValueRight(asc, k);
    Counters(asc, k);
    ReverseSnoc(asc, k);
    assert |Reverse(asc[..k])| == k;
    InsertFirst(Reverse(asc[..k]), e);
    RereadFirst(rest, LastBefore(asc, k), NextVal(asc, k), Reverse(asc[..k]));
    assert Val(e.name, e.val) == e;
  }

  lemma {:induction false} RereadIs(asc: seq<Val>, k: nat)
    requires Ascending(asc) && ValidVals(asc) && k <= |asc|
    requires forall i :: k <= i < |asc| ==> !Misprinted(asc, i)
    ensures Reread(asc[k..], LastBefore(asc, k), NextVal(asc, k), Reverse(asc[..k])) == Reverse(asc)
    decreases |asc| - k
  {
    if k < |asc| {
      RereadStep(asc, k);
      RereadIs(asc, k + 1);
    } else {
      assert asc[..k] == asc;
    }
  }

  /** If a counter of type int wraps onto a value that is not smaller, it skips values. */
  lemma StepBelow(a: int, b: int)
    requires a <= b && IsLong(a) && IsLong(b) && b == Wrap32(Wrap32(a) + 1) && b != a + 1
    ensures Wrap64(a + 1) == a + 1 < b
  {
  }

  lemma Neighbours(asc: seq<Val>, i: nat)
    requires Ascending(asc) && 0 < i < |asc|
    ensures asc[i - 1].val <= asc[i].val
  {
  }

  lemma MisprintedParts(asc: seq<Val>, i: nat)
    requires Ascending(asc) && ValidVals(asc) && Misprinted(asc, i)
    ensures 0 < i < |asc| && Implicit(asc[i], LastBefore(asc, i))
    ensures asc[i - 1].val < NextVal(asc, i) < asc[i].val
  {
    Neighbours(asc, i);
    assert IsLong(asc[i].val) && IsLong(asc[i - 1].val);
    hide ValidName, Ascending, Wrap32, Wrap64, ValidVals, IsLong;
    StepBelow(asc[i - 1].val, asc[i].val);
  }

  lemma ValueMissing(asc: seq<Val>, i: nat, v: Val)
    requires Ascending(asc) && 0 < i < |asc| && asc[i - 1].val < v.val < asc[i].val
    ensures v !in Reverse(asc)
  {
    forall j | 0 <= j < |asc| ensures asc[j].val != v.val {
      assert j < i - 1 ==> asc[j].val <= asc[i - 1].val;
      assert j > i ==> asc[i].val <= asc[j].val;
    }
  }

  lemma MisreadAt(asc: seq<Val>, i: nat) returns (v: Val)
    requires Ascending(asc) && ValidVals(asc) && Misprinted(asc, i)
    ensures v in Reread(asc[i..], LastBefore(asc, i), NextVal(asc, i), Reverse(asc[..i]))
    ensures v !in Reverse(asc)
  {
    hide *;
    MisprintedParts(asc, i);
    v := Val(asc[i].name, NextVal(asc, i));
    var acc, rest := Reverse(asc[..i]), asc[i..];
    assert rest[0] == asc[i];
    InsertKeeps(acc, v, v);
    RereadFirst(rest, LastBefore(asc, i), v.val, acc);
    RereadKeeps(rest[1..], Wrap32(asc[i].val), Wrap64(v.val + 1), Insert(acc, v), v);
    ValueMissing(asc, i, v);
  }

  /** At the first misprinted constant the parser inserts a value the list does not have. */
  lemma {:induction false} RereadDiffers(asc: seq<Val>, k: nat, i: nat)
    requires Ascending(asc) && ValidVals(asc) && k <= i && Misprinted(asc, i)
    requires forall j :: k <= j < i ==> !Misprinted(asc, j)
    ensures Reread(asc[k..], LastBefore(asc, k), NextVal(asc, k), Reverse(asc[..k])) != Reverse(asc)
    decreases i - k
  {
    hide Reread, Implicit;
    if k < i {
      RereadStep(asc, k);
      RereadDiffers(asc, k + 1, i);
    } else {
      var v := MisreadAt(asc, i);
    }
  }

  function FirstMisprinted(asc: seq<Val>, k: nat): (i: nat)
    requires k <= |asc|
    ensures k <= i <= |asc| && (i < |asc| ==> Misprinted(asc, i))
    ensures forall j :: k <= j < i ==> !Misprinted(asc, j)
    decreases |asc| - k
  {
    if k == |asc| || (k > 0 && Implicit(asc[k], Wrap32(asc[k - 1].val)) && asc[k].val != asc[k - 1].val + 1) then k
    else FirstMisprinted(asc, k + 1)
  }

  lemma MisprintedIs(vals: seq<Val>, i: int)
    requires 0 < i < |vals|
    ensures Misprinted(Reverse(vals), i) <==>
            Implicit(vals[|vals| - i - 1], Wrap32(vals[|vals| - i].val)) &&
            vals[|vals| - i - 1].val != vals[|vals| - i].val + 1
  {
    hide Wrap32;
  }

  lemma ReverseOf(vals: seq<Val>)
    requires Sorted(vals) && ValidVals(vals)
    ensures Ascending(Reverse(vals)) && ValidVals(Reverse(vals)) && Reverse(Reverse(vals)) == vals
  {
    hide Reverse;
    assert forall i :: 0 <= i < |vals| ==> Reverse(vals)[i] == vals[|vals| - 1 - i];
  }

  lemma StartsRight(asc: seq<Val>, i: int)
    requires Misprinted(asc, i)
    ensures 0 < i < |asc|
  {
  }

  lemma RereadIff(vals: seq<Val>)
    requires Sorted(vals) && ValidVals(vals)
    ensures Reread(Reverse(vals), -1, 0, []) == vals <==> NoWrappedStep(vals)
  {
    hide Reread, Wrap32, Implicit, Misprinted, Ascending, ValidVals, Sorted;
    var asc := Reverse(vals);
    ReverseOf(vals);
    assert asc[0..] == asc && Reverse(asc[..0]) == [];
    var i := FirstMisprinted(asc, 0);
    if i < |asc| {
      RereadDiffers(asc, 0, i);
      StartsRight(asc, i);
      MisprintedIs(vals, i);
      assert 0 < |vals| - i < |vals|;
    } else {
      RereadIs(asc, 0);
      forall j | 0 < j < |vals| && Implicit(vals[j - 1], Wrap32(vals[j].val))
        ensures vals[j - 1].val == vals[j].val + 1
      {
        MisprintedIs(vals, |vals| - j);
        assert !Misprinted(asc, |vals| - j);
      }
    }
  }

  // ----- main results -----

  lemma {:induction false} NoSemicolonSplit(s: string)
    requires forall i :: 0 <= i < |s| ==> s[i] != ';'
    ensures Split(s) == [s]
  {
    if s != "" {
      NoSemicolonSplit(s[1..]);
      assert [s[0]] + s[1..] == s;
    }
  }

  lemma OnePiece(line: string, root: Root, vals: seq<Val>, name: string)
    requires ParseDef(line) == Def(name, vals) && name !in root
    ensures ParsePieces([line], root) == (0, root[name := vals])
  {
    hide ParseDef;
    assert [line][1..] == [];
  }

  predicate Clean(s: string) {
    forall i :: 0 <= i < |s| ==> s[i] != ';'
  }

  lemma {:induction false} DecimalClean(n: nat)
    ensures Clean(Decimal(n))
  {
    DecimalIs(n);
  }

  lemma {:induction false} JoinedClean(asc: seq<Val>, last: int)
    requires asc != [] && ValidVals(asc)
    ensures Clean(Joined(asc, last))
    decreases |asc|
  {
    DecimalClean(if asc[0].val < 0 then -asc[0].val else asc[0].val);
    assert Clean(PrintLong(asc[0].val));
    assert Clean(Item(asc[0], last));
    if |asc| > 1 {
      JoinedClean(asc[1..], Wrap32(asc[0].val));
    }
  }

  lemma SavedHasNoSemicolon(name: string, vals: seq<Val>)
    requires ValidDef(name, vals)
    ensures Clean(SavedLine(name, vals))
  {
    if vals != [] {
      JoinedClean(Reverse(vals), -1);
    }
  }

  /** MAIN RESULT (round trip). Reading back the saved line of a definition, whatever else is
      already in the tree, succeeds and gives the same list iff the list is not empty and no
      value is hidden by the wrap-around of the printer's counter. */
  lemma RoundTripIff(name: string, vals: seq<Val>, root: Root)
    requires ValidDef(name, vals) && name !in root
    ensures ParseEnumString(SavedLine(name, vals), root) == (0, root[name := vals]) <==>
            vals != [] && NoWrappedStep(vals)
  {
    hide ParseDef, Split, SavedLine, Reread, Reverse, Sorted, NoWrappedStep;
    var line := SavedLine(name, vals);
    SavedHasNoSemicolon(name, vals);
    NoSemicolonSplit(line);
    if vals == [] {
      EmptyFails(name);
    } else {
      ReadsDef(name, vals);
      RereadIff(vals);
      var read := Reread(Reverse(vals), -1, 0, []);
      OnePiece(line, root, read, name);
      assert root[name := read][name] == read && root[name := vals][name] == vals;
    }
  }

  /** MAIN RESULT (round trip of C enums). With values in int range a definition that has a
      constant always survives, duplicates, negative values and implicit increments included. */
  lemma IntRoundTrip(name: string, vals: seq<Val>, root: Root)
    requires ValidDef(name, vals) && name !in root && vals != []
    requires forall i :: 0 <= i < |vals| ==> -0x8000_0000 <= vals[i].val < 0x8000_0000
    ensures ParseEnumString(SavedLine(name, vals), root) == (0, root[name := vals])
  {
    forall i | 0 < i < |vals| && Implicit(vals[i - 1], Wrap32(vals[i].val)) ensures vals[i - 1].val == vals[i].val + 1 {
      assert vals[i].val <= vals[i - 1].val;
    }
    hide ParseEnumString, SavedLine, ValidDef, Implicit, Wrap32;
    RoundTripIff(name, vals, root);
  }

  /** A 64-bit enum that does not survive: its second constant comes back as -4294967295. */
  lemma WideEnumChanges()
    ensures var vals := [Val("B", 1), Val("A", -0x1_0000_0000)];
            && ValidDef("E", vals)
            && ParseEnumString(SavedLine("E", vals), map[]) != (0, map["E" := vals])
  {
    var vals := [Val("B", 1), Val("A", -0x1_0000_0000)];
    assert Implicit(vals[0], Wrap32(vals[1].val));
    RoundTripIff("E", vals, map[]);
  }
}
