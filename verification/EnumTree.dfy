/** Whole texts of enum definitions: which definitions get into the tree, in which order equal
    names win, and what is left in it when a piece does not parse. */
module EnumTree {
  import opened EnumDef
  import opened EnumDefProofs
  import opened EnumText

  datatype Definition = Definition(name: string, vals: seq<Val>)

  /** The tree holds what the root held and the first definition of every other name among `ds`, and no
      more. */
  ghost predicate Loaded(ds: seq<Definition>, root: Root, tree: Root) {
    && (forall n :: n in tree <==> n in root || exists i :: 0 <= i < |ds| && ds[i].name == n)
    && (forall n :: n in root ==> tree[n] == root[n])
    && (forall i {:trigger ds[i].vals} :: 0 <= i < |ds| && ds[i].name !in root &&
                                          (forall j :: 0 <= j < i ==> ds[j].name != ds[i].name) ==>
          tree[ds[i].name] == ds[i].vals)
  }

  /** The definitions among some pieces, in order. */
  function Definitions(pieces: seq<string>): seq<Definition> {
    if pieces == [] then []
    else
      match ParseDef(pieces[0])
      case Def(name, vals) => [Definition(name, vals)] + Definitions(pieces[1..])
      case _ => Definitions(pieces[1..])
  }

  /** The first piece that does not parse is piece i, or there is none and i is their number. */
  ghost predicate FailsAt(pieces: seq<string>, i: nat) {
    && i <= |pieces|
    && (i < |pieces| ==> ParseDef(pieces[i]).Fail?)
    && forall j :: 0 <= j < i ==> !ParseDef(pieces[j]).Fail?
  }

  lemma NothingLoaded(root: Root)
    ensures Loaded([], root, root)
  {
  }

  lemma NamesFirst(d: Definition, ds: seq<Definition>, n: string)
    ensures (exists i :: 0 <= i < |ds| + 1 && ([d] + ds)[i].name == n) <==>
            d.name == n || exists i :: 0 <= i < |ds| && ds[i].name == n
  {
    var all := [d] + ds;
    if i :| 0 <= i < |ds| && ds[i].name == n {
      assert all[i + 1].name == n;
    }
    if i :| 0 <= i < |all| && all[i].name == n {
      assert i > 0 ==> ds[i - 1].name == n;
    }
    assert all[0] == d;
  }

  lemma FirstOfName(d: Definition, ds: seq<Definition>, i: nat)
    requires 0 < i <= |ds| && forall j :: 0 <= j < i ==> ([d] + ds)[j].name != ([d] + ds)[i].name
    ensures ([d] + ds)[i] == ds[i - 1] && d.name != ds[i - 1].name
    ensures forall j :: 0 <= j < i - 1 ==> ds[j].name != ds[i - 1].name
  {
    var all := [d] + ds;
    assert all[0] == d;
    forall j | 0 <= j < i - 1 ensures ds[j].name != ds[i - 1].name {
      assert all[j + 1] == ds[j];
    }
  }

  lemma LoadedFirst(d: Definition, ds: seq<Definition>, root: Root, tree: Root)
    requires Loaded(ds, if d.name in root then root else root[d.name := d.vals], tree)
    ensures Loaded([d] + ds, root, tree)
  {
    var all := [d] + ds;
    forall n ensures n in tree <==> n in root || exists i :: 0 <= i < |all| && all[i].name == n {
      NamesFirst(d, ds, n);
    }
    forall i {:trigger all[i].vals} | 0 <= i < |all| && all[i].name !in root &&
                                      (forall j :: 0 <= j < i ==> all[j].name != all[i].name)
      ensures tree[all[i].name] == all[i].vals
    {
      if i > 0 {
        FirstOfName(d, ds, i);
        assert ds[i - 1].vals == all[i].vals;
      }
    }
  }

  /** MAIN RESULT (a whole text). Parsing stops at the first piece that does not parse, with -1,
      or goes through all of them, with 0; the tree then holds the definitions before it. */
  lemma {:induction false} TreeOf(pieces: seq<string>, root: Root, i: nat)
    requires FailsAt(pieces, i)
    ensures ParsePieces(pieces, root).0 == if i < |pieces| then -1 else 0
    ensures Loaded(Definitions(pieces[..i]), root, ParsePieces(pieces, root).1)
    decreases |pieces|
  {
    hide Loaded, ParseDef;
    if i == 0 {
      NothingLoaded(root);
    } else {
      var d := ParseDef(pieces[0]);
      var root' := if d.Def? && d.name !in root then root[d.name := d.vals] else root;
      assert FailsAt(pieces[1..], i - 1);
      TreeOf(pieces[1..], root', i - 1);
      assert pieces[..i][1..] == pieces[1..][..i - 1];
      if d.Def? {
        LoadedFirst(Definition(d.name, d.vals), Definitions(pieces[1..][..i - 1]), root, ParsePieces(pieces, root).1);
      }
    }
  }

  // ----- definitions joined by semicolons -----

  function Join(pieces: seq<string>): string
    requires pieces != []
  {
    if |pieces| == 1 then pieces[0] else pieces[0] + ";" + Join(pieces[1..])
  }

  lemma {:induction false} SplitPiece(piece: string, rest: string)
    requires Clean(piece)
    ensures Split(piece + ";" + rest) == [piece] + Split(rest)
  {
    if piece == "" {
      assert ("" + ";" + rest)[1..] == rest;
    } else {
      assert (piece + ";" + rest)[1..] == piece[1..] + ";" + rest;
      SplitPiece(piece[1..], rest);
      assert [piece[0]] + piece[1..] == piece;
    }
  }

  lemma {:induction false} SplitJoin(pieces: seq<string>)
    requires pieces != [] && forall i :: 0 <= i < |pieces| ==> Clean(pieces[i])
    ensures Split(Join(pieces)) == pieces
  {
    assert Clean(pieces[0]);
    if |pieces| == 1 {
      NoSemicolonSplit(pieces[0]);
    } else {
      SplitJoin(pieces[1..]);
      SplitPiece(pieces[0], Join(pieces[1..]));
    }
  }

  /** Definitions that come back from their saved line. */
  predicate Survives(d: Definition) {
    ValidDef(d.name, d.vals) && d.vals != [] && NoWrappedStep(d.vals)
  }

  function Lines(ds: seq<Definition>): (lines: seq<string>)
    ensures |lines| == |ds|
  {
    if ds == [] then [] else [SavedLine(ds[0].name, ds[0].vals)] + Lines(ds[1..])
  }

  lemma {:induction false} LinesClean(ds: seq<Definition>)
    requires forall j :: 0 <= j < |ds| ==> ValidDef(ds[j].name, ds[j].vals)
    ensures forall j :: 0 <= j < |ds| ==> Clean(Lines(ds)[j])
  {
    hide ValidDef, SavedLine, Clean;
    if ds != [] {
      SavedHasNoSemicolon(ds[0].name, ds[0].vals);
      LinesClean(ds[1..]);
    }
  }

  lemma SurvivorIsRead(d: Definition)
    requires Survives(d)
    ensures ParseDef(SavedLine(d.name, d.vals)) == Def(d.name, d.vals)
  {
    hide ParseDef, SavedLine, NoWrappedStep, Sorted, Reread;
    ReadsDef(d.name, d.vals);
    RereadIff(d.vals);
  }

  /** The first i lines are read as they were saved; an empty definition stops the parser. */
  lemma {:induction false} LinesAreRead(ds: seq<Definition>, i: nat)
    requires i <= |ds| && (forall j :: 0 <= j < i ==> Survives(ds[j]))
    requires i < |ds| ==> ValidName(ds[i].name) && ds[i].vals == []
    ensures FailsAt(Lines(ds), i) && Definitions(Lines(ds)[..i]) == ds[..i]
    decreases i
  {
    hide Survives, ParseDef, SavedLine;
    if i == 0 {
      if ds != [] {
        EmptyFails(ds[0].name);
      }
    } else {
      var lines, rest := Lines(ds), Lines(ds[1..]);
      SurvivorIsRead(ds[0]);
      LinesAreRead(ds[1..], i - 1);
      assert lines[..i] == [lines[0]] + rest[..i - 1];
      assert lines[..i][1..] == rest[..i - 1];
      assert ds[..i] == [ds[0]] + ds[1..][..i - 1];
      forall j | 0 <= j < i ensures !ParseDef(lines[j]).Fail? {
        assert j > 0 ==> lines[j] == rest[j - 1];
      }
    }
  }

  /** MAIN RESULT (many definitions). The saved lines of valid definitions, joined by semicolons:
      up to the first empty one all of them get into the tree, each under its own name, the first
      of equal names winning and older ones kept; the result is 0 iff there is no empty one. */
  lemma LoadsAll(ds: seq<Definition>, i: nat, root: Root)
    requires ds != [] && forall j :: 0 <= j < |ds| ==> ValidDef(ds[j].name, ds[j].vals)
    requires i <= |ds| && (forall j :: 0 <= j < i ==> Survives(ds[j])) && (i < |ds| ==> ds[i].vals == [])
    ensures ParseEnumString(Join(Lines(ds)), root).0 == if i < |ds| then -1 else 0
    ensures Loaded(ds[..i], root, ParseEnumString(Join(Lines(ds)), root).1)
  {
    hide Loaded, Survives, FailsAt, Clean, Join, Lines, ParsePieces, Definitions, Split;
    LinesClean(ds);
    SplitJoin(Lines(ds));
    LinesAreRead(ds, i);
    TreeOf(Lines(ds), root, i);
  }

  // ----- the debug file -----

  /** Loading a debug file: its lines are parsed one by one until one fails. */
  function LoadLines(lines: seq<string>, root: Root): (int, Root) {
    if lines == [] then (0, root)
    else
      var (err, root') := ParseEnumString(lines[0], root);
      if err != 0 then (err, root') else LoadLines(lines[1..], root')
  }

  lemma OneLine(line: string, root: Root)
    requires Clean(line)
    ensures ParseEnumString(line, root) ==
            match ParseDef(line)
            case Skip => (0, root)
            case Fail => (-1, root)
            case Def(name, vals) => (0, if name in root then root else root[name := vals])
  {
    hide ParseDef, Split;
    NoSemicolonSplit(line);
    var d := ParseDef(line);
    var root' := if d.Def? && d.name !in root then root[d.name := d.vals] else root;
    assert [line][1..] == [] && ParsePieces([], root') == (0, root');
    assert ParsePieces([line], root) == if d.Fail? then (-1, root) else ParsePieces([line][1..], root');
  }

  lemma {:induction false} LineByLine(lines: seq<string>, root: Root)
    requires forall j :: 0 <= j < |lines| ==> Clean(lines[j])
    ensures LoadLines(lines, root) == ParsePieces(lines, root)
  {
    hide ParseDef, Split, ParseEnumString;
    if lines != [] {
      assert Clean(lines[0]);
      OneLine(lines[0], root);
      LineByLine(lines[1..], ParseEnumString(lines[0], root).1);
    }
  }

  lemma DistinctLoaded(ds: seq<Definition>, tree: Root)
    requires Loaded(ds, map[], tree) && forall i, j :: 0 <= i < j < |ds| ==> ds[i].name != ds[j].name
    ensures forall n :: n in tree <==> exists i :: 0 <= i < |ds| && ds[i].name == n
    ensures forall i :: 0 <= i < |ds| ==> tree[ds[i].name] == ds[i].vals
  {
    forall i | 0 <= i < |ds| ensures tree[ds[i].name] == ds[i].vals {
      assert ds[i].vals == ds[i].vals;
    }
  }

  lemma AllLoaded(ds: seq<Definition>)
    requires forall j :: 0 <= j < |ds| ==> Survives(ds[j]) && ValidDef(ds[j].name, ds[j].vals)
    ensures LoadLines(Lines(ds), map[]).0 == 0 && Loaded(ds, map[], LoadLines(Lines(ds), map[]).1)
  {
    hide *;
    LinesClean(ds);
    LineByLine(Lines(ds), map[]);
    LinesAreRead(ds, |ds|);
    TreeOf(Lines(ds), map[], |ds|);
    assert ds[..|ds|] == ds && Lines(ds)[..|ds|] == Lines(ds);
  }

  /** MAIN RESULT (save, then load). A tree whose definitions have different names and survive one
      by one is rebuilt from its debug file: the same names, each with the same list. */
  lemma SaveThenLoad(ds: seq<Definition>)
    requires forall j :: 0 <= j < |ds| ==> Survives(ds[j])
    requires forall i, j :: 0 <= i < j < |ds| ==> ds[i].name != ds[j].name
    ensures var (err, tree) := LoadLines(Lines(ds), map[]);
            && err == 0
            && (forall n :: n in tree <==> exists i :: 0 <= i < |ds| && ds[i].name == n)
            && (forall i :: 0 <= i < |ds| ==> tree[ds[i].name] == ds[i].vals)
  {
    forall j | 0 <= j < |ds| ensures ValidDef(ds[j].name, ds[j].vals) {
      assert Survives(ds[j]);
    }
    hide *;
    AllLoaded(ds);
    DistinctLoaded(ds, LoadLines(Lines(ds), map[]).1);
  }
}
