/** Enum definitions as a programmer writes them: blanks and line breaks, decimal, octal and
    hexadecimal values, values left out, a trailing comma. The parser gives every constant the
    value C gives it and lists them in descending order. */
module EnumSyntax {
  import opened EnumDef
  import opened EnumDefProofs
  import opened EnumText
  import opened EnumTree
  import opened Wrappers

  // ----- numbers -----

  /** A number as written: a sign or none, and an absolute value in one of three bases. */
  datatype Number = Number(sign: string, base: nat, abs: nat)

  predicate ValidNumber(n: Number) {
    n.sign in ["", "-", "+"] && n.base in [8, 10, 16]
  }

  function Value(n: Number): int {
    if n.sign == "-" then -(n.abs as int) else n.abs
  }

  /** Division and remainder by one of the three bases. */
  function Divided(n: nat, base: nat): (r: (nat, nat))
    requires base in [8, 10, 16]
    ensures r.1 < base && r.0 * base + r.1 == n
    ensures n >= base ==> 0 < r.0 < n
    ensures n < base ==> r.1 == n
  {
    if base == 8 then (n / 8, n % 8) else if base == 10 then (n / 10, n % 10) else (n / 16, n % 16)
  }

  function DigitChar(d: nat): (c: char)
    requires d < 16
    ensures DigitValue(c) == d
  {
    if d < 10 then ('0' as int + d) as char else ('a' as int + d - 10) as char
  }

  function InBase(n: nat, base: nat): (s: string)
    requires base in [8, 10, 16]
    ensures s != "" && DigitValue(s[0]) < base && (s[0] == '0' <==> n == 0)
  {
    var (high, low) := Divided(n, base);
    if n < base then [DigitChar(low)] else InBase(high, base) + [DigitChar(low)]
  }

  function Lead(base: nat): string {
    if base == 16 then "0x" else if base == 8 then "0" else ""
  }

  function NumberText(n: Number): string
    requires ValidNumber(n)
  {
    n.sign + Lead(n.base) + InBase(n.abs, n.base)
  }

  lemma DigitsSnoc(s: string, c: char, base: nat)
    ensures Digits(s + [c], base) == Digits(s, base) * base + DigitValue(c)
  {
    assert (s + [c])[..|s|] == s;
  }

  lemma {:induction false} InBaseIs(n: nat, base: nat)
    requires base in [8, 10, 16]
    ensures Digits(InBase(n, base), base) == n
    ensures forall i :: 0 <= i < |InBase(n, base)| ==> DigitValue(InBase(n, base)[i]) < base
  {
    hide Divided, DigitChar, DigitValue;
    var (high, low) := Divided(n, base);
    if n >= base {
      InBaseIs(high, base);
      DigitsSnoc(InBase(high, base), DigitChar(low), base);
    } else {
      DigitsSnoc("", DigitChar(low), base);
      assert "" + [DigitChar(low)] == [DigitChar(low)];
    }
  }

  lemma {:induction false} LeadingZero(s: string, base: nat)
    ensures Digits("0" + s, base) == Digits(s, base)
  {
    if s == "" {
      DigitsSnoc("", '0', base);
    } else {
      var front, c := s[..|s| - 1], s[|s| - 1];
      assert "0" + s == ("0" + front) + [c] && s == front + [c];
      hide *;
      DigitsSnoc("0" + front, c, base);
      DigitsSnoc(front, c, base);
      LeadingZero(front, base);
    }
  }

  /** The magnitude of a string whose base and digits are known. */
  lemma MagnitudeIs(u: string, base: nat, lead: string, digits: string, rest: string)
    requires u == lead + digits + rest && Prefix(u) == (base, digits + rest) && digits != ""
    requires forall i :: 0 <= i < |digits| ==> DigitValue(digits[i]) < base
    requires rest == "" || DigitValue(rest[0]) >= base
    ensures Magnitude(u) == Some((Digits(digits, base), rest))
  {
    hide Digits, DigitValue;
    DigitCountIs(digits + rest, base, |digits|);
    assert (digits + rest)[..|digits|] == digits && (digits + rest)[|digits|..] == rest;
  }

  /** The text ends, or goes on with something that is no digit or letter. */
  predicate Ends(rest: string) {
    rest == "" || DigitValue(rest[0]) == 36
  }

  /** A zero that is followed by no octal digit and does not begin a hexadecimal number. */
  lemma ReadsZero(rest: string)
    requires rest == "" || DigitValue(rest[0]) >= 8
    requires |rest| > 1 && (rest[0] == 'x' || rest[0] == 'X') ==> DigitValue(rest[1]) >= 16
    ensures Magnitude("0" + rest) == Some((0, rest))
  {
    assert rest != "" ==> ("0" + rest)[1] == rest[0];
    assert |rest| > 1 ==> ("0" + rest)[2] == rest[1];
    assert Digits("0", 8) == 0 by { assert "0"[..0] == ""; }
    hide Digits;
    MagnitudeIs("0" + rest, 8, "", "0", rest);
  }

  lemma ReadsOctal(abs: nat, rest: string)
    requires Ends(rest)
    ensures Magnitude("0" + InBase(abs, 8) + rest) == Some((abs, rest))
  {
    hide InBase, Digits;
    var d := InBase(abs, 8);
    InBaseIs(abs, 8);
    LeadingZero(d, 8);
    var u := "0" + d + rest;
    assert u == "" + ("0" + d) + rest && u[1] == d[0];
    MagnitudeIs(u, 8, "", "0" + d, rest);
  }

  lemma ReadsHex(abs: nat, rest: string)
    requires Ends(rest)
    ensures Magnitude("0x" + InBase(abs, 16) + rest) == Some((abs, rest))
  {
    hide InBase, Digits;
    var d := InBase(abs, 16);
    InBaseIs(abs, 16);
    var u := "0x" + d + rest;
    assert u[2..] == d + rest && u[2] == d[0];
    MagnitudeIs(u, 16, "0x", d, rest);
  }

  /** The digits of one number, up to what follows it. */
  lemma ReadsDigits(abs: nat, base: nat, rest: string)
    requires base in [8, 10, 16] && Ends(rest)
    ensures Magnitude(Lead(base) + InBase(abs, base) + rest) == Some((abs, rest))
  {
    var d := InBase(abs, base);
    assert abs == 0 && base == 10 ==> d == [DigitChar(0)] == "0";
    hide InBase, Digits, DigitChar, Magnitude;
    if base == 16 {
      ReadsHex(abs, rest);
    } else if base == 8 {
      ReadsOctal(abs, rest);
    } else if abs == 0 {
      ReadsZero(rest);
      assert "" + d + rest == "0" + rest;
    } else {
      var u := "" + d + rest;
      assert u == d + rest;
      InBaseIs(abs, 10);
      MagnitudeIs(u, 10, "", d, rest);
    }
  }

  lemma {:induction false} SkipsGap(gap: string, s: string)
    requires forall i :: 0 <= i < |gap| ==> IsSpace(gap[i])
    requires s != "" && !IsSpace(s[0])
    ensures SkipSpace(gap + s) == s
  {
    if gap == "" {
      assert "" + s == s;
    } else {
      SkipsGap(gap[1..], s);
      assert (gap + s)[1..] == gap[1..] + s;
    }
  }

  lemma NumberParts(n: Number, rest: string)
    requires ValidNumber(n)
    ensures var s := NumberText(n) + rest;
            && s != "" && !IsSpace(s[0]) && (s[0] == '-' <==> n.sign == "-")
            && Unsigned(s) == Lead(n.base) + InBase(n.abs, n.base) + rest
  {
    hide InBase;
    var u := Lead(n.base) + InBase(n.abs, n.base) + rest;
    assert NumberText(n) + rest == n.sign + u;
    assert n.sign == "" ==> n.sign + u == u;
  }

  lemma ReadsText(n: Number, rest: string)
    requires ValidNumber(n) && Ends(rest)
    ensures Strtol(NumberText(n) + rest) == (Clamp(Value(n)), rest)
    ensures NumberText(n) + rest != "" && !IsSpace((NumberText(n) + rest)[0])
  {
    hide InBase, NumberText, Unsigned, Magnitude, DigitValue, SkipSpace, Strtol, Clamp;
    var s := NumberText(n) + rest;
    NumberParts(n, rest);
    ReadsDigits(n.abs, n.base, rest);
    NoSpace(s);
    StrtolIs(s, n.abs, rest);
  }

  /** Without a digit, strtol reads nothing and moves nowhere. */
  lemma ReadsNothing(s: string)
    requires var u := Unsigned(SkipSpace(s)); u == "" || !IsDigit(u[0])
    ensures Strtol(s) == (0, s)
  {
    var u := Unsigned(SkipSpace(s));
    if u != "" {
      assert DigitValue(u[0]) >= 10;
    }
    hide Digits, SkipSpace, DigitValue;
  }

  /** strtol with base 0 reads a number in any of the three bases, clamped to a long. */
  lemma ReadsNumber(n: Number, gap: string, rest: string)
    requires ValidNumber(n) && Ends(rest)
    requires forall i :: 0 <= i < |gap| ==> IsSpace(gap[i])
    ensures Strtol(SkipSpace(gap + NumberText(n) + rest)) == (Clamp(Value(n)), rest)
  {
    hide *;
    ReadsText(n, rest);
    SkipsGap(gap, NumberText(n) + rest);
    Associate(gap, NumberText(n), rest);
  }

  // ----- definitions as written -----

  predicate Blank(s: string) {
    forall i :: 0 <= i < |s| ==> s[i] == ' ' || s[i] == '\n' || s[i] == '\t'
  }

  datatype Assignment = Implied | Explicit(gap: string, number: Number, tail: string)

  /** A constant with the blanks around its parts. */
  datatype Item = Item(lead: string, name: string, mid: string, value: Assignment)

  /** The end of a definition: a comma or none, blanks, the brace, and text that is not read. */
  datatype Close = Close(comma: bool, blank: string, after: string)

  predicate ValidItem(it: Item) {
    && Blank(it.lead) && ValidName(it.name) && Blank(it.mid)
    && (it.value.Explicit? ==> Blank(it.value.gap) && ValidNumber(it.value.number) && Blank(it.value.tail))
  }

  function AssignmentText(it: Item): string
    requires ValidItem(it)
  {
    if it.value.Implied? then "" else "=" + (it.value.gap + NumberText(it.value.number) + it.value.tail)
  }

  function CloseText(cl: Close): (r: string)
    ensures r != "" && (cl.comma || cl.blank == "" ==> r[0] == if cl.comma then ',' else '}')
  {
    (if cl.comma then "," else "") + cl.blank + "}" + cl.after
  }

  /** The text after the name of the first constant, and after its value. */
  function AfterFirst(items: seq<Item>, cl: Close): string
    requires items != [] && forall i :: 0 <= i < |items| ==> ValidItem(items[i])
    decreases |items|, 1
  {
    items[0].mid + (AssignmentText(items[0]) + NextText(items, cl))
  }

  function NextText(items: seq<Item>, cl: Close): string
    requires items != [] && forall i :: 0 <= i < |items| ==> ValidItem(items[i])
    decreases |items|, 0
  {
    if |items| == 1 then CloseText(cl)
    else "," + (items[1].lead + items[1].name + AfterFirst(items[1..], cl))
  }

  // ----- what they mean -----

  /** The value of a constant: the one written, or one more than the one before it. */
  function ConstValue(it: Item, next: int): int {
    if it.value.Implied? then next else Clamp(Value(it.value.number))
  }

  function Consts(items: seq<Item>, next: int): (vals: seq<Val>)
    ensures |vals| == |items|
  {
    if items == [] then []
    else
      var v := ConstValue(items[0], next);
      [Val(items[0].name, v)] + Consts(items[1..], Wrap64(v + 1))
  }

  function InsertAll(acc: seq<Val>, vals: seq<Val>): seq<Val>
    decreases |vals|
  {
    if vals == [] then acc else InsertAll(Insert(acc, vals[0]), vals[1..])
  }

  // ----- tokens after blanks -----

  lemma BlankSign(blank: string, c: char, rest: string, token: string)
    requires Blank(blank) && c in ['{', '}', '=', ',']
    ensures NextToken(Lexer(Some(blank + ([c] + rest)), token)) == (Sign, Lexer(Some(rest), [c]))
  {
    SkipsGap(blank, [c] + rest);
    assert ([c] + rest)[1..] == rest;
  }

  lemma BlankName(blank: string, name: string, rest: string, token: string)
    requires Blank(blank) && ValidName(name) && rest != "" && IsStop(rest[0])
    ensures NextToken(Lexer(Some(blank + name + rest), token)) == (Str, Lexer(Some(rest), name))
  {
    assert blank + name + rest == blank + (name + rest);
    SkipsGap(blank, name + rest);
    StopAtIs(name + rest, |name|);
    assert (name + rest)[..|name|] == name && (name + rest)[|name|..] == rest;
  }

  // ----- the constants -----

  predicate ValidItems(items: seq<Item>, cl: Close) {
    && (forall i :: 0 <= i < |items| ==> ValidItem(items[i]))
    && Blank(cl.blank) && (cl.comma ==> items != []) && (items != [] && !cl.comma ==> cl.blank == "")
  }

  lemma NextStart(items: seq<Item>, cl: Close)
    requires items != [] && ValidItems(items, cl)
    ensures var r := NextText(items, cl);
            r != "" && r[0] == (if |items| > 1 || cl.comma then ',' else '}') && DigitValue(r[0]) == 36
  {
  }

  /** The number after the equals sign and the sign after it. */
  lemma ReadsAssigned(gap: string, n: Number, tail: string, c: char, rest: string)
    requires ValidNumber(n) && Blank(gap) && Blank(tail) && c in ['}', ',']
    ensures Assigned(Lexer(Some(gap + NumberText(n) + tail + ([c] + rest)), "=")) ==
            Some((Clamp(Value(n)), Lexer(Some(rest), [c])))
  {
    hide NextToken, Strtol, NumberText, Clamp, Value;
    var end := tail + ([c] + rest);
    assert end[0] == if tail == "" then c else tail[0];
    assert gap + NumberText(n) + tail + ([c] + rest) == gap + NumberText(n) + end;
    ReadsNumber(n, gap, end);
    BlankSign(tail, c, rest, "=");
  }

  lemma ReadsExplicit(it: Item, c: char, rest: string)
    requires ValidItem(it) && it.value.Explicit? && c in ['}', ',']
    ensures var (kind1, lx1) := NextToken(Lexer(Some(it.mid + (AssignmentText(it) + ([c] + rest))), it.name));
            && kind1 == Sign && lx1.token == "="
            && Assigned(lx1) == Some((Clamp(Value(it.value.number)), Lexer(Some(rest), [c])))
  {
    var n, tail := it.value.number, it.value.tail;
    var number := it.value.gap + NumberText(n) + tail;
    assert AssignmentText(it) == ['='] + number;
    hide NextToken, Assigned, NumberText, Clamp, Value, ValidName, AssignmentText;
    Associate(['='], number, [c] + rest);
    BlankSign(it.mid, '=', number + ([c] + rest), it.name);
    ReadsAssigned(it.value.gap, n, tail, c, rest);
  }

  /** The sign that follows the first constant, read with its value. */
  lemma ReadsOne(items: seq<Item>, cl: Close, val: int)
    requires items != [] && ValidItems(items, cl)
    ensures var next := NextText(items, cl);
            var (kind1, lx1) := NextToken(Lexer(Some(AfterFirst(items, cl)), items[0].name));
            && kind1 == Sign && next != ""
            && (if lx1.token == "=" then Assigned(lx1) else Some((val, lx1))) ==
               Some((ConstValue(items[0], val), Lexer(Some(next[1..]), [next[0]])))
  {
    hide NextToken, Assigned, NumberText, Clamp, Value, NextText, ValidName;
    var it, next := items[0], NextText(items, cl);
    NextStart(items, cl);
    assert next == [next[0]] + next[1..];
    if it.value.Implied? {
      assert "" + next == next;
      BlankSign(it.mid, next[0], next[1..], it.name);
    } else {
      ReadsExplicit(it, next[0], next[1..]);
    }
  }

  lemma AfterStarts(items: seq<Item>, cl: Close)
    requires items != [] && ValidItems(items, cl)
    ensures AfterFirst(items, cl) != "" && IsStop(AfterFirst(items, cl)[0])
  {
    NextStart(items, cl);
    hide NextText;
    var r := AssignmentText(items[0]) + NextText(items, cl);
    assert r[0] == if items[0].value.Implied? then NextText(items, cl)[0] else '=';
    assert (items[0].mid + r)[0] == if items[0].mid == "" then r[0] else items[0].mid[0];
  }

  /** After a value, either the name of the next constant or the end of the definition. */
  lemma ReadsFollowing(items: seq<Item>, cl: Close)
    requires |items| > 1 && ValidItems(items, cl)
    ensures var next := NextText(items, cl);
            && next != "" && next[0] == ','
            && NextToken(Lexer(Some(next[1..]), ",")) == (Str, Lexer(Some(AfterFirst(items[1..], cl)), items[1].name))
  {
    hide NextToken, AfterFirst, ValidName;
    var rest := AfterFirst(items[1..], cl);
    AfterStarts(items[1..], cl);
    assert NextText(items, cl)[1..] == items[1].lead + items[1].name + rest;
    BlankName(items[1].lead, items[1].name, rest, ",");
  }

  lemma ReadsClose(items: seq<Item>, cl: Close)
    requires |items| == 1 && ValidItems(items, cl)
    ensures var next := NextText(items, cl);
            && next != "" && next[0] == (if cl.comma then ',' else '}')
            && (cl.comma ==> NextToken(Lexer(Some(next[1..]), ",")) == (Sign, Lexer(Some(cl.after), "}")))
            && (!cl.comma ==> next[1..] == cl.after)
  {
    hide NextToken, AfterFirst, ValidName, ValidItem;
    var next := NextText(items, cl);
    if cl.comma {
      assert next[1..] == cl.blank + ("}" + cl.after);
      BlankSign(cl.blank, '}', cl.after, ",");
    } else {
      assert next == "}" + cl.after;
    }
  }

  lemma {:induction false} ReadsAll(items: seq<Item>, cl: Close, val: int, acc: seq<Val>)
    requires items != [] && ValidItems(items, cl)
    ensures ParseItems(Str, Lexer(Some(AfterFirst(items, cl)), items[0].name), val, acc) ==
            Some((Lexer(Some(cl.after), "}"), InsertAll(acc, Consts(items, val))))
    decreases |items|
  {
    hide NextToken, Assigned, AfterFirst, NextText, Insert, Wrap64, ConstValue;
    var lx, next := Lexer(Some(AfterFirst(items, cl)), items[0].name), NextText(items, cl);
    var v := ConstValue(items[0], val);
    var acc' := Insert(acc, Val(items[0].name, v));
    assert lx.token != "}" by { assert !IsStop(lx.token[0]); }
    ReadsOne(items, cl, val);
    assert InsertAll(acc, Consts(items, val)) == InsertAll(acc', Consts(items[1..], Wrap64(v + 1)));
    var end := Lexer(Some(cl.after), "}");
    assert ParseItems(Sign, end, Wrap64(v + 1), acc') == Some((end, acc'));
    if |items| > 1 {
      ReadsFollowing(items, cl);
      ReadsAll(items[1..], cl, Wrap64(v + 1), acc');
    } else {
      ReadsClose(items, cl);
    }
  }

  // ----- the list of a definition -----

  /** The constants with value v, in order. */
  function With(vals: seq<Val>, v: int): seq<Val> {
    if vals == [] then [] else (if vals[0].val == v then [vals[0]] else []) + With(vals[1..], v)
  }

  lemma WithCons(e: Val, vals: seq<Val>, v: int)
    ensures With([e] + vals, v) == if e.val == v then [e] + With(vals, v) else With(vals, v)
  {
    assert ([e] + vals)[1..] == vals;
    assert [] + With(vals, v) == With(vals, v);
  }

  lemma {:induction false} InsertWith(vals: seq<Val>, e: Val, v: int)
    ensures With(Insert(vals, e), v) == if e.val == v then [e] + With(vals, v) else With(vals, v)
  {
    if vals == [] || vals[0].val <= e.val {
      WithCons(e, vals, v);
    } else {
      InsertWith(vals[1..], e, v);
      WithCons(vals[0], Insert(vals[1..], e), v);
      WithCons(vals[0], vals[1..], v);
      assert vals == [vals[0]] + vals[1..];
    }
  }

  /** Of equal constants the later ones go before the earlier ones. */
  function LaterFirst(vals: seq<Val>, tail: seq<Val>): seq<Val> {
    Reverse(vals) + tail
  }

  lemma LaterFirstStep(moved: bool, e: Val, vals: seq<Val>, tail: seq<Val>)
    ensures LaterFirst(if moved then [e] + vals else vals, tail) == LaterFirst(vals, if moved then [e] + tail else tail)
  {
  }

  lemma InsertAllNone(acc: seq<Val>, v: int)
    ensures InsertAll(acc, []) == acc && With(acc, v) == LaterFirst(With([], v), With(acc, v))
  {
    assert [] + With(acc, v) == With(acc, v);
  }

  lemma InsertAllOne(acc: seq<Val>, e: Val, rest: seq<Val>)
    ensures InsertAll(acc, [e] + rest) == InsertAll(Insert(acc, e), rest)
  {
    hide Insert;
    assert ([e] + rest)[1..] == rest;
  }

  lemma {:induction false} InsertAllWith(acc: seq<Val>, vals: seq<Val>, v: int)
    requires Sorted(acc)
    ensures Sorted(InsertAll(acc, vals))
    ensures With(InsertAll(acc, vals), v) == LaterFirst(With(vals, v), With(acc, v))
    decreases |vals|
  {
    hide *;
    if vals == [] {
      InsertAllNone(acc, v);
    } else {
      var e, rest := vals[0], vals[1..];
      assert vals == [e] + rest;
      InsertAllOne(acc, e, rest);
      InsertSorted(acc, e);
      InsertWith(acc, e, v);
      InsertAllWith(Insert(acc, e), rest, v);
      WithCons(e, rest, v);
      LaterFirstStep(e.val == v, e, With(rest, v), With(acc, v));
    }
  }

  function ListOf(items: seq<Item>): seq<Val> {
    InsertAll([], Consts(items, 0))
  }

  /** MAIN RESULT (the list of a definition). It is in descending order and holds exactly the
      constants as C values them, of equal ones the later first. */
  lemma ListIs(items: seq<Item>, v: int)
    ensures Sorted(ListOf(items)) && With(ListOf(items), v) == Reverse(With(Consts(items, 0), v))
  {
    InsertAllWith([], Consts(items, 0), v);
    assert Reverse(With(Consts(items, 0), v)) + [] == Reverse(With(Consts(items, 0), v));
  }

  // ----- whole definitions -----

  /** Blanks, "enum", blanks, a name, blanks, "{" and the constants. */
  datatype Written = Written(b0: string, b1: string, name: string, b2: string, items: seq<Item>, cl: Close)

  predicate ValidWritten(w: Written) {
    && Blank(w.b0) && Blank(w.b1) && w.b1 != "" && ValidName(w.name) && Blank(w.b2)
    && ValidItems(w.items, w.cl)
  }

  function Body(items: seq<Item>, cl: Close): string
    requires ValidItems(items, cl)
  {
    if items == [] then cl.blank + ("}" + cl.after) else items[0].lead + items[0].name + AfterFirst(items, cl)
  }

  function Text(w: Written): string
    requires ValidWritten(w)
  {
    w.b0 + "enum" + (w.b1 + w.name + (w.b2 + ("{" + Body(w.items, w.cl))))
  }

  lemma ReadsHead(w: Written)
    requires ValidWritten(w)
    ensures var r2 := w.b2 + ("{" + Body(w.items, w.cl));
            var r1 := w.b1 + w.name + r2;
            && NextToken(Lexer(Some(Text(w)), "")) == (Str, Lexer(Some(r1), "enum"))
            && NextToken(Lexer(Some(r1), "enum")) == (Str, Lexer(Some(r2), w.name))
            && NextToken(Lexer(Some(r2), w.name)) == (Sign, Lexer(Some(Body(w.items, w.cl)), "{"))
  {
    hide NextToken, Body;
    var r2 := w.b2 + ("{" + Body(w.items, w.cl));
    var r1 := w.b1 + w.name + r2;
    assert r2[0] == if w.b2 == "" then '{' else w.b2[0];
    assert r1[0] == w.b1[0];
    BlankName(w.b0, "enum", r1, "");
    BlankName(w.b1, w.name, r2, "enum");
    BlankSign(w.b2, '{', Body(w.items, w.cl), w.name);
  }

  lemma EndOfItems(end: Lexer)
    requires end.token == "}"
    ensures ParseItems(Sign, end, 0, []) == Some((end, ListOf([])))
  {
  }

  /** MAIN RESULT (a definition as written). Whatever the blanks, the base of the numbers, the
      values left out and the trailing comma, it is read with its name and its constants. */
  lemma WrittenIsRead(w: Written)
    requires ValidWritten(w)
    ensures ParseDef(Text(w)) == Def(w.name, ListOf(w.items))
  {
    hide NextToken, ParseItems, AfterFirst, InsertAll, Text;
    var body := Body(w.items, w.cl);
    ReadsHead(w);
    if w.items == [] {
      BlankSign(w.cl.blank, '}', w.cl.after, "{");
      var end := Lexer(Some(w.cl.after), "}");
      EndOfItems(end);
    } else {
      AfterStarts(w.items, w.cl);
      BlankName(w.items[0].lead, w.items[0].name, AfterFirst(w.items, w.cl), "{");
      ReadsAll(w.items, w.cl, 0, []);
    }
  }

  /** What begins with a name, up to the character that ends it. */
  predicate Word(s: string, name: string, rest: string) {
    && s != "" && !IsSpace(s[0]) && (IsAlpha(s[0]) || s[0] == '_')
    && name == s[..if StopAt(s) > TOKEN_MAX then TOKEN_MAX else StopAt(s)]
    && StopAt(s) < |s| && rest == s[StopAt(s)..]
  }

  lemma StrIsWord(lx: Lexer)
    requires NextToken(lx).0 == Str && NextToken(lx).1.rest.Some?
    ensures lx.rest.Some? && Word(SkipSpace(lx.rest.value), NextToken(lx).1.token, NextToken(lx).1.rest.value)
  {
  }

  lemma SignIsFirst(lx: Lexer)
    requires NextToken(lx).0 == Sign
    ensures lx.rest.Some? && SkipSpace(lx.rest.value) != ""
    ensures NextToken(lx).1.token == [SkipSpace(lx.rest.value)[0]]
  {
  }

  /** MAIN RESULT (nothing else is a definition). A piece is skipped iff it is blank; and if it is
      read as a definition it begins with the word "enum", the name and an opening brace. */
  lemma OnlyDefinitions(piece: string)
    ensures ParseDef(piece) == Skip <==> SkipSpace(piece) == ""
    ensures ParseDef(piece).Def? ==>
              exists r1, r2 :: Word(SkipSpace(piece), "enum", r1) && Word(SkipSpace(r1), ParseDef(piece).name, r2)
                               && SkipSpace(r2) != "" && SkipSpace(r2)[0] == '{'
  {
    hide ParseItems;
    if ParseDef(piece).Def? {
      var (_, lx0) := NextToken(Lexer(Some(piece), ""));
      var (_, lx1) := NextToken(lx0);
      StrIsWord(Lexer(Some(piece), ""));
      StrIsWord(lx0);
      var (_, lx2) := NextToken(lx1);
      hide NextToken;
      SignIsFirst(lx1);
      var r1, r2 := lx0.rest.value, lx1.rest.value;
      assert Word(SkipSpace(piece), "enum", r1) && Word(SkipSpace(r1), lx1.token, r2);
    }
  }

  // ----- whole texts -----

  lemma {:induction false} InBaseClean(n: nat, base: nat)
    requires base in [8, 10, 16]
    ensures Clean(InBase(n, base))
  {
    InBaseIs(n, base);
  }

  lemma ItemClean(it: Item)
    requires ValidItem(it)
    ensures Clean(it.lead) && Clean(it.name) && Clean(it.mid) && Clean(AssignmentText(it))
  {
    if it.value.Explicit? {
      InBaseClean(it.value.number.abs, it.value.number.base);
      hide InBase;
      assert Clean(NumberText(it.value.number));
    }
  }

  lemma {:induction false} AfterClean(items: seq<Item>, cl: Close)
    requires items != [] && ValidItems(items, cl) && Clean(cl.after)
    ensures Clean(AfterFirst(items, cl))
    decreases |items|
  {
    hide AssignmentText, ValidItem;
    ItemClean(items[0]);
    if |items| > 1 {
      ItemClean(items[1]);
      AfterClean(items[1..], cl);
    }
    assert Clean(NextText(items, cl));
  }

  lemma TextClean(w: Written)
    requires ValidWritten(w) && Clean(w.cl.after)
    ensures Clean(Text(w))
  {
    hide AfterFirst, ValidItem;
    if w.items != [] {
      ItemClean(w.items[0]);
      AfterClean(w.items, w.cl);
    }
    assert Clean(Body(w.items, w.cl));
  }

  /** What can stand between two semicolons: a definition or nothing but blanks. */
  datatype Piece = Nothing(blank: string) | Something(w: Written)

  predicate ValidPiece(p: Piece) {
    match p
    case Nothing(blank) => Blank(blank)
    case Something(w) => ValidWritten(w) && Clean(w.cl.after)
  }

  function PieceText(p: Piece): string
    requires ValidPiece(p)
  {
    match p
    case Nothing(blank) => blank
    case Something(w) => Text(w)
  }

  function Texts(ps: seq<Piece>): (texts: seq<string>)
    requires forall i :: 0 <= i < |ps| ==> ValidPiece(ps[i])
    ensures |texts| == |ps| && forall i :: 0 <= i < |ps| ==> texts[i] == PieceText(ps[i])
  {
    if ps == [] then [] else [PieceText(ps[0])] + Texts(ps[1..])
  }

  function Meanings(ps: seq<Piece>): seq<Definition> {
    if ps == [] then []
    else if ps[0].Nothing? then Meanings(ps[1..])
    else [Definition(ps[0].w.name, ListOf(ps[0].w.items))] + Meanings(ps[1..])
  }

  lemma {:induction false} BlankSkipped(blank: string)
    requires Blank(blank)
    ensures SkipSpace(blank) == "" && Clean(blank)
  {
    if blank != "" {
      BlankSkipped(blank[1..]);
    }
  }

  lemma PieceIsRead(p: Piece)
    requires ValidPiece(p)
    ensures Clean(PieceText(p))
    ensures ParseDef(PieceText(p)) == if p.Nothing? then Skip else Def(p.w.name, ListOf(p.w.items))
  {
    hide Text, ListOf, ValidWritten, Clean, Blank;
    match p
    case Nothing(blank) => BlankSkipped(blank);
    case Something(w) =>
      TextClean(w);
      WrittenIsRead(w);
  }

  lemma {:induction false} PiecesAreRead(ps: seq<Piece>)
    requires forall i :: 0 <= i < |ps| ==> ValidPiece(ps[i])
    ensures Definitions(Texts(ps)) == Meanings(ps)
  {
    hide ParseDef, ListOf, PieceText, ValidPiece;
    if ps != [] {
      PieceIsRead(ps[0]);
      PiecesAreRead(ps[1..]);
      assert Texts(ps)[1..] == Texts(ps[1..]);
    }
  }

  /** MAIN RESULT (a text as written, such as the list built into the program). Every definition
      gets into the tree with its own constants, the first of equal names winning and older ones
      kept, and the result is 0. */
  lemma LoadsWritten(ps: seq<Piece>, root: Root)
    requires ps != [] && forall i :: 0 <= i < |ps| ==> ValidPiece(ps[i])
    ensures ParseEnumString(Join(Texts(ps)), root).0 == 0
    ensures Loaded(Meanings(ps), root, ParseEnumString(Join(Texts(ps)), root).1)
  {
    hide ParseDef, PieceText, ValidPiece, Clean, Loaded, ListOf, Split, Join, Definitions, Meanings, ParsePieces;
    var texts := Texts(ps);
    forall i | 0 <= i < |ps| ensures Clean(texts[i]) && !ParseDef(texts[i]).Fail? {
      PieceIsRead(ps[i]);
    }
    SplitJoin(texts);
    PiecesAreRead(ps);
    TreeOf(texts, root, |ps|);
    assert texts[..|ps|] == texts;
  }
}
