/** Enum definitions: parse_enum_string, get_enum_def_string and the line save_debug_file writes
    (utils/auto-args.c, utils/dwarf.c). */
module EnumDef {
  import opened EnumText
  import opened Wrappers

  /** struct enum_val. */
  datatype Val = Val(name: string, val: int)

  function Wrap(v: int, half: int): int
    requires half > 0
  {
    (v + half) % (2 * half) - half
  }

  /** Storing into an int and into a long. */
  function Wrap32(v: int): int { Wrap(v, 0x8000_0000) }
  function Wrap64(v: int): int { Wrap(v, 0x8000_0000_0000_0000) }

  predicate Sorted(vals: seq<Val>) {
    forall i, j :: 0 <= i < j < |vals| ==> vals[j].val <= vals[i].val
  }

  /** Insertion before the first value that is not larger. */
  function Insert(vals: seq<Val>, e: Val): (r: seq<Val>)
    ensures |r| == |vals| + 1
  {
    if vals == [] || vals[0].val <= e.val then [e] + vals else [vals[0]] + Insert(vals[1..], e)
  }

  // ----- parse_enum_string -----

  function Left(lx: Lexer): nat {
    if lx.rest.None? then 0 else |lx.rest.value|
  }

  /** "= NUMBER ,": the value and the sign after it. */
  function Assigned(lx: Lexer): (r: Option<(int, Lexer)>)
    requires lx.rest.Some?
    ensures r.Some? ==> Left(r.value.1) <= Left(lx) && IsLong(r.value.0)
  {
    var (v, end) := Strtol(SkipSpace(lx.rest.value));
    var (kind, lx') := NextToken(Lexer(Some(end), lx.token));
    if kind != Sign then None else Some((v, lx'))
  }

  /** The loop over the constants; `kind` is the kind of the token in hand. */
  function ParseItems(kind: Kind, lx: Lexer, val: int, vals: seq<Val>): Option<(Lexer, seq<Val>)>
    decreases Left(lx)
  {
    if kind == Null || lx.token == "}" then Some((lx, vals))
    else
      var (kind1, lx1) := NextToken(lx);
      if kind1 != Sign then None
      else
        var found := if lx1.token == "=" then Assigned(lx1) else Some((val, lx1));
        match found
        case None => None
        case Some((v, lx2)) =>
          var (kind3, lx3) := if lx2.token == "," then NextToken(lx2) else (Sign, lx2);
          ParseItems(kind3, lx3, Wrap64(v + 1), Insert(vals, Val(lx.token, v)))
  }

  datatype Outcome = Skip | Fail | Def(name: string, vals: seq<Val>)

  /** One ';'-separated piece. */
  function ParseDef(piece: string): Outcome {
    var (kind0, lx0) := NextToken(Lexer(Some(piece), ""));
    if kind0 == Null then Skip
    else if kind0 != Str || lx0.token != "enum" then Fail
    else
      var (kind1, lx1) := NextToken(lx0);
      if kind1 != Str then Fail
      else
        var (kind2, lx2) := NextToken(lx1);
        if kind2 != Sign || lx2.token != "{" then Fail
        else
          var (kind3, lx3) := NextToken(lx2);
          match ParseItems(kind3, lx3, 0, [])
          case None => Fail
          case Some((lx, vals)) => if lx.token == "}" then Def(lx1.token, vals) else Fail
  }

  /** strv_split at ';'. */
  function Split(s: string): (r: seq<string>)
    ensures r != []
  {
    if s == "" then [""]
    else
      var rest := Split(s[1..]);
      if s[0] == ';' then [""] + rest else [[s[0]] + rest[0]] + rest[1..]
  }

  type Root = map<string, seq<Val>>

  /** The definitions are added one by one until one fails; the first of a name wins. */
  function ParsePieces(pieces: seq<string>, root: Root): (int, Root) {
    if pieces == [] then (0, root)
    else
      match ParseDef(pieces[0])
      case Skip => ParsePieces(pieces[1..], root)
      case Fail => (-1, root)
      case Def(name, vals) => ParsePieces(pieces[1..], if name in root then root else root[name := vals])
  }

  function ParseEnumString(s: string, root: Root): (int, Root) {
    ParsePieces(Split(s), root)
  }

  // ----- get_enum_def_string -----

  function Reverse<T>(s: seq<T>): (r: seq<T>)
    ensures |r| == |s| && forall i :: 0 <= i < |s| ==> r[i] == s[|s| - 1 - i]
  {
    if s == [] then [] else [s[|s| - 1]] + Reverse(s[..|s| - 1])
  }

  /** The counter of the printer is an int: this value is printed by its name alone. */
  predicate Implicit(e: Val, last: int) {
    e.val == Wrap32(last + 1)
  }

  function Item(e: Val, last: int): string {
    if Implicit(e, last) then e.name else e.name + "=" + PrintLong(e.val)
  }

  function Joined(asc: seq<Val>, last: int): string
    requires asc != []
  {
    if |asc| == 1 then Item(asc[0], last)
    else Item(asc[0], last) + "," + Joined(asc[1..], Wrap32(asc[0].val))
  }

  /** The constants in ascending order, separated by commas; a null pointer if there are none. */
  function DefString(vals: seq<Val>): Option<string> {
    if vals == [] then None else Some(Joined(Reverse(vals), -1))
  }

  /** The line of the debug file, without its newline; "%s" prints a null pointer as "(null)". */
  function SavedLine(name: string, vals: seq<Val>): string {
    var body := DefString(vals);
    "enum " + name + " {" + (if body.None? then "(null)" else body.value) + "}"
  }

  // ----- when the round trip works -----

  predicate ValidDef(name: string, vals: seq<Val>) {
    && ValidName(name) && Sorted(vals)
    && forall i :: 0 <= i < |vals| ==> ValidName(vals[i].name) && IsLong(vals[i].val)
  }

  /** No constant is printed by name alone because the printer's int counter wrapped onto it. */
  predicate NoWrappedStep(vals: seq<Val>) {
    forall i :: 0 < i < |vals| && Implicit(vals[i - 1], Wrap32(vals[i].val)) ==> vals[i - 1].val == vals[i].val + 1
  }
}
