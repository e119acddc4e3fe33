/** The enum parser, printer and decoder as loops over a string pointer, the static token buffer
    and the list of constants, proved against EnumText, EnumDef and EnumDecode. */
module EnumReader {
  import opened EnumText
  import opened EnumDef
  import opened EnumDecode
  import opened EnumDefProofs
  import opened Wrappers

  lemma Shift(vals: seq<Val>, k: nat, e: Val)
    requires 0 < k <= |vals|
    ensures [vals[0]] + (vals[1..][..k - 1] + [e] + vals[1..][k - 1..]) == vals[..k] + [e] + vals[k..]
  {
    assert [vals[0]] + vals[1..][..k - 1] == vals[..k];
    assert vals[1..][k - 1..] == vals[k..];
  }

  lemma {:induction false} InsertSplit(vals: seq<Val>, e: Val, k: nat)
    requires k <= |vals| && forall i :: 0 <= i < k ==> vals[i].val > e.val
    requires k < |vals| ==> vals[k].val <= e.val
    ensures Insert(vals, e) == vals[..k] + [e] + vals[k..]
  {
    if k > 0 {
      var rest := vals[1..];
      assert forall i :: 0 <= i < k - 1 ==> rest[i] == vals[i + 1];
      InsertSplit(rest, e, k - 1);
      assert Insert(vals, e) == [vals[0]] + Insert(rest, e);
      hide *;
      Shift(vals, k, e);
    } else {
      InsertFirst(vals, e);
    }
  }

  /** The ordered insertion loop. */
  method InsertVal(vals: seq<Val>, e: Val) returns (r: seq<Val>)
    ensures r == Insert(vals, e)
  {
    var k := 0;
    while k < |vals| && vals[k].val > e.val
      invariant 0 <= k <= |vals|
      invariant forall i :: 0 <= i < k ==> vals[i].val > e.val
    {
      k := k + 1;
    }
    InsertSplit(vals, e, k);
    r := vals[..k] + [e] + vals[k..];
  }

  class EnumReader {
    var pos: Option<string>
    var token: string
    var root: Root

    function Abs(): Lexer
      reads this
    {
      Lexer(pos, token)
    }

    constructor (root: Root)
      ensures this.root == root
    {
      pos, token, this.root := None, "", root;
    }

    /** enum_next_token. */
    method NextToken() returns (kind: Kind)
      modifies this`pos, this`token
      ensures (kind, Abs()) == EnumText.NextToken(old(Abs()))
    {
      if pos.None? {
        return Null;
      }
      var tok := pos.value;
      while tok != "" && IsSpace(tok[0])
        invariant SkipSpace(tok) == SkipSpace(pos.value)
        decreases |tok|
      {
        tok := tok[1..];
      }
      if tok == "" {
        return Null;
      }
      if IsPunct(tok[0]) && tok[0] != '_' {
        pos, token := Some(tok[1..]), [tok[0]];
        return Sign;
      }
      if IsAlpha(tok[0]) || tok[0] == '_' {
        kind := Str;
      } else if IsDigit(tok[0]) {
        kind := Num;
      } else {
        return Invalid;
      }
      var len: nat := 0;
      while len < |tok| && !IsStop(tok[len])
        invariant len <= |tok|
        invariant forall i :: 0 <= i < len ==> !IsStop(tok[i])
      {
        len := len + 1;
      }
      assert len == StopAt(tok);
      pos := if len < |tok| then Some(tok[len..]) else None;
      token := tok[..if len > TOKEN_MAX then TOKEN_MAX else len];
    }

    /** The loop over the constants of one definition. */
    method ParseItems(first: Kind) returns (ok: bool, vals: seq<Val>)
      modifies this`pos, this`token
      ensures var r := EnumDef.ParseItems(first, old(Abs()), 0, []);
              ok == r.Some? && (ok ==> r.value == (Abs(), vals))
    {
      hide Strtol, SkipSpace, Insert, Wrap64, EnumText.NextToken;
      var kind, val := first, 0;
      vals := [];
      while kind != Null && token != "}"
        invariant EnumDef.ParseItems(kind, Abs(), val, vals) == EnumDef.ParseItems(first, old(Abs()), 0, [])
        decreases Left(Abs())
      {
        var name := token;
        kind := NextToken();
        if kind != Sign {
          return false, vals;
        }
        if token == "=" {
          var (number, end) := Strtol(SkipSpace(pos.value));
          val := number;
          pos := Some(end);
          kind := NextToken();
          if kind != Sign {
            return false, vals;
          }
        }
        vals := InsertVal(vals, Val(name, val));
        val := Wrap64(val + 1);
        if token == "," {
          kind := NextToken();
        }
      }
      ok := true;
    }

    /** One piece between semicolons. */
    method ParseDef(piece: string) returns (d: Outcome)
      modifies this`pos, this`token
      ensures d == EnumDef.ParseDef(piece)
    {
      pos, token := Some(piece), "";
      var kind := NextToken();
      if kind == Null {
        return Skip;
      }
      if kind != Str || token != "enum" {
        return Fail;
      }
      kind := NextToken();
      if kind != Str {
        return Fail;
      }
      var name := token;
      kind := NextToken();
      if kind != Sign || token != "{" {
        return Fail;
      }
      kind := NextToken();
      var ok, vals := ParseItems(kind);
      if ok && token == "}" {
        return Def(name, vals);
      }
      d := Fail;
    }

    /** parse_enum_string. */
    method ParseEnumString(s: string) returns (err: int)
      modifies this
      ensures (err, root) == EnumDef.ParseEnumString(s, old(root))
    {
      var pieces := Split(s);
      var i := 0;
      while i < |pieces|
        invariant 0 <= i <= |pieces|
        invariant ParsePieces(pieces[i..], root) == ParsePieces(pieces, old(root))
      {
        assert pieces[i..][1..] == pieces[i + 1..];
        var d := ParseDef(pieces[i]);
        if d.Fail? {
          return -1;
        }
        if d.Def? && d.name !in root {
          root := root[d.name := d.vals];
        }
        i := i + 1;
      }
      err := 0;
    }
  }

  /** The first k constants in ascending order, as the printer has joined them so far. */
  ghost function JoinedSoFar(asc: seq<Val>, k: nat): string
    requires 0 < k <= |asc|
  {
    var item := Item(asc[k - 1], LastBefore(asc, k - 1));
    if k == 1 then item else JoinedSoFar(asc, k - 1) + "," + item
  }

  lemma Regroup(a: string, b: string, c: string)
    ensures (a + "," + b) + "," + c == a + "," + (b + "," + c)
  {
  }

  lemma {:induction false} JoinedSplits(asc: seq<Val>, k: nat)
    requires 0 < k <= |asc|
    ensures k < |asc| ==> JoinedSoFar(asc, k) + "," + Joined(asc[k..], LastBefore(asc, k)) == Joined(asc, -1)
    ensures k == |asc| ==> JoinedSoFar(asc, k) == Joined(asc, -1)
  {
    hide Item;
    var item := Item(asc[k - 1], LastBefore(asc, k - 1));
    assert asc[k - 1..][1..] == asc[k..];
    if k == 1 {
      assert asc[0..] == asc;
    } else {
      JoinedSplits(asc, k - 1);
      if k < |asc| {
        Regroup(JoinedSoFar(asc, k - 1), item, Joined(asc[k..], LastBefore(asc, k)));
      }
    }
  }

  lemma JoinStep(asc: seq<Val>, k: nat)
    requires k < |asc|
    ensures var item := Item(asc[k], LastBefore(asc, k));
            JoinedSoFar(asc, k + 1) == if k == 0 then item else JoinedSoFar(asc, k) + "," + item
  {
    hide Item, LastBefore;
  }

  lemma WrapAgain(v: int)
    ensures Wrap32(Wrap32(v)) == Wrap32(v)
  {
  }

  /** get_enum_def_string; `last` is an int. */
  method GetEnumDefString(vals: seq<Val>) returns (str: Option<string>)
    ensures str == DefString(vals)
  {
    hide Joined, Decimal, PrintLong, JoinedSoFar, Wrap32;
    var last, i := -1, |vals|;
    str := None;
    ghost var asc := Reverse(vals);
    while i > 0
      invariant 0 <= i <= |vals|
      invariant last == LastBefore(asc, |vals| - i)
      invariant str == if i == |vals| then None else Some(JoinedSoFar(asc, |vals| - i))
    {
      JoinStep(asc, |vals| - i);
      WrapAgain(last + 1);
      i := i - 1;
      var e := vals[i];
      assert asc[|vals| - 1 - i] == e;
      last := Wrap32(last + 1);
      var item := e.name;
      if e.val != last {
        last := Wrap32(e.val);
        item := e.name + "=" + PrintLong(e.val);
      }
      str := Some(if str.None? then item else str.value + "," + item);
    }
    if vals != [] {
      JoinedSplits(asc, |asc|);
    }
  }

  /** The second loop has taken `taken` from the constants before i and has `val` left. */
  ghost predicate Taking(vals: seq<Val>, value: int, i: nat, taken: seq<Val>, val: int)
    requires i <= |vals|
  {
    Greedy(vals, value) == (taken + Greedy(vals[i..], val).0, Greedy(vals[i..], val).1)
  }

  lemma TakenJoin(taken: seq<Val>, e: Val, more: seq<Val>)
    ensures taken + ([e] + more) == taken + [e] + more
    ensures taken + [] == taken && taken + [e] + [] == taken + [e]
  {
  }

  lemma TakeStep(vals: seq<Val>, value: int, i: nat, taken: seq<Val>, val: int)
    requires i < |vals| && Taking(vals, value, i, taken, val)
    ensures var take := vals[i].val <= val;
            var taken', val' := if take then taken + [vals[i]] else taken, if take then val - vals[i].val else val;
            if val' == 0 then Greedy(vals, value) == (taken', 0) else Taking(vals, value, i + 1, taken', val')
  {
    var rest := vals[i..];
    assert rest[0] == vals[i] && rest[1..] == vals[i + 1..];
    var take := vals[i].val <= val;
    var val' := if take then val - vals[i].val else val;
    var more := if val' == 0 then [] else Greedy(vals[i + 1..], val').0;
    assert Greedy(rest, val) == (if take then [rest[0]] + more else more,
                                 if val' == 0 then 0 else Greedy(vals[i + 1..], val').1);
    hide Greedy;
    TakenJoin(taken, vals[i], more);
  }

  lemma TakeStart(vals: seq<Val>, value: int)
    ensures Taking(vals, value, 0, [], value)
  {
    hide Greedy;
    assert vals[0..] == vals && [] + Greedy(vals, value).0 == Greedy(vals, value).0;
  }

  lemma TakeEnd(vals: seq<Val>, value: int, taken: seq<Val>, val: int)
    requires Taking(vals, value, |vals|, taken, val)
    ensures Greedy(vals, value) == (taken, val)
  {
    assert vals[|vals|..] == [] && taken + [] == taken;
  }

  lemma JoinMore(taken: seq<Val>, e: Val)
    ensures JoinNames(taken + [e]) == if taken == [] then e.name else JoinNames(taken) + "|" + e.name
  {
    assert (taken + [e])[..|taken|] == taken;
  }

  /** convert_enum_val. */
  method ConvertEnumVal(vals: seq<Val>, value: int) returns (shown: Shown)
    ensures shown == Show(vals, value)
  {
    var i := 0;
    while i < |vals|
      invariant 0 <= i <= |vals|
      invariant Exact(vals[i..], value) == Exact(vals, value)
    {
      if vals[i].val == value {
        return Name(vals[i].name);
      }
      i := i + 1;
    }
    var val, str: Option<string> := value, None;
    ghost var taken: seq<Val> := [];
    i := 0;
    TakeStart(vals, value);
    while i < |vals|
      invariant 0 <= i <= |vals|
      invariant str == if taken == [] then None else Some(JoinNames(taken))
      invariant Taking(vals, value, i, taken, val)
    {
      hide *;
      TakeStep(vals, value, i, taken, val);
      if vals[i].val <= val {
        JoinMore(taken, vals[i]);
        val := val - vals[i].val;
        str := Some(if str.None? then vals[i].name else str.value + "|" + vals[i].name);
        taken := taken + [vals[i]];
      }
      if val == 0 {
        break;
      }
      i := i + 1;
    }
    if i == |vals| {
      TakeEnd(vals, value, taken, val);
    }
    assert Greedy(vals, value) == (taken, val);
    shown := if str.None? then Number(val) else Flags(str.value, val);
  }
}
