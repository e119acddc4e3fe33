/** The text level of enum definitions: enum_next_token (utils/auto-args.c), strtol with base 0
    and %ld, on strings of characters. */
module EnumText {
  import opened Wrappers

  // ----- character classes of the C locale -----

  predicate IsSpace(c: char) { c as int == 32 || 9 <= c as int <= 13 }
  predicate IsDigit(c: char) { '0' <= c <= '9' }
  predicate IsAlpha(c: char) { 'a' <= c <= 'z' || 'A' <= c <= 'Z' }
  predicate IsPunct(c: char) { 33 <= c as int <= 126 && !IsDigit(c) && !IsAlpha(c) }

  /** The characters that end a name or a number. */
  predicate IsStop(c: char) {
    c == ' ' || c == '\n' || c == '\t' || c == '=' || c == ',' || c == '{' || c == '}'
  }

  function SkipSpace(s: string): (r: string)
    ensures |r| <= |s|
    ensures r != "" ==> !IsSpace(r[0])
  {
    if s != "" && IsSpace(s[0]) then SkipSpace(s[1..]) else s
  }

  /** strpbrk: the first character that ends a token. */
  function StopAt(s: string): (n: nat)
    ensures n <= |s|
    ensures forall i :: 0 <= i < n ==> !IsStop(s[i])
    ensures n < |s| ==> IsStop(s[n])
  {
    if s == "" || IsStop(s[0]) then 0 else 1 + StopAt(s[1..])
  }

  // ----- enum_next_token -----

  datatype Kind = Invalid | Null | Str | Sign | Num

  /** `rest` is what the string pointer still points to (None is a null pointer), `token` the
      static buffer, which keeps its contents when there is no token. */
  datatype Lexer = Lexer(rest: Option<string>, token: string)

  const TOKEN_MAX: nat := 255

  function NextToken(lx: Lexer): (r: (Kind, Lexer))
    ensures r.0 == Sign ==> lx.rest.Some? && r.1.rest.Some? && |r.1.rest.value| < |lx.rest.value|
    ensures r.1.rest.Some? ==> lx.rest.Some? && |r.1.rest.value| <= |lx.rest.value|
  {
    if lx.rest.None? then (Null, lx)
    else
      var s := SkipSpace(lx.rest.value);
      if s == "" then (Null, lx)
      else if IsPunct(s[0]) && s[0] != '_' then (Sign, Lexer(Some(s[1..]), [s[0]]))
      else if !IsAlpha(s[0]) && s[0] != '_' && !IsDigit(s[0]) then (Invalid, lx)
      else
        var n := StopAt(s);
        var token := s[..if n > TOKEN_MAX then TOKEN_MAX else n];
        (if IsDigit(s[0]) then Num else Str, Lexer(if n < |s| then Some(s[n..]) else None, token))
  }

  // ----- strtol(s, &end, 0) -----

  const LONG_MAX: int := 0x7fff_ffff_ffff_ffff
  const LONG_MIN: int := -0x8000_0000_0000_0000

  predicate IsLong(v: int) { LONG_MIN <= v <= LONG_MAX }

  /** The value of a digit, or 36. */
  function DigitValue(c: char): (d: nat) {
    if IsDigit(c) then c as int - '0' as int
    else if 'a' <= c <= 'z' then c as int - 'a' as int + 10
    else if 'A' <= c <= 'Z' then c as int - 'A' as int + 10
    else 36
  }

  /** How many digits of `base` the string starts with. */
  function DigitCount(s: string, base: nat): (n: nat)
    ensures n <= |s|
  {
    if s != "" && DigitValue(s[0]) < base then 1 + DigitCount(s[1..], base) else 0
  }

  function Digits(s: string, base: nat): nat {
    if s == "" then 0 else Digits(s[..|s| - 1], base) * base + DigitValue(s[|s| - 1])
  }

  function Clamp(v: int): int {
    if v > LONG_MAX then LONG_MAX else if v < LONG_MIN then LONG_MIN else v
  }

  /** After the sign: the base, and where its digits start. */
  function Prefix(s: string): (nat, string) {
    if |s| > 2 && s[0] == '0' && (s[1] == 'x' || s[1] == 'X') && DigitValue(s[2]) < 16 then (16, s[2..])
    else if s != "" && s[0] == '0' then (8, s)
    else (10, s)
  }

  /** The digits after the sign, and what follows them. */
  function Magnitude(s: string): (r: Option<(nat, string)>)
    ensures r.Some? ==> |r.value.1| <= |s|
  {
    var (base, digits) := Prefix(s);
    var n := DigitCount(digits, base);
    if n == 0 then None else Some((Digits(digits[..n], base), digits[n..]))
  }

  function Unsigned(s: string): (r: string)
    ensures |r| <= |s|
  {
    if s != "" && (s[0] == '-' || s[0] == '+') then s[1..] else s
  }

  /** The number and what follows it; without digits, zero and the string itself. */
  function Strtol(s: string): (r: (int, string))
    ensures |r.1| <= |s|
    ensures IsLong(r.0)
  {
    var t := SkipSpace(s);
    match Magnitude(Unsigned(t))
    case None => (0, s)
    case Some((m, rest)) => (Clamp(if t != "" && t[0] == '-' then -(m as int) else m), rest)
  }

  // ----- %ld -----

  function Decimal(n: nat): (s: string)
    ensures s != "" && IsDigit(s[0]) && (s[0] == '0' <==> n == 0)
  {
    var last := [('0' as int + n % 10) as char];
    if n < 10 then last else Decimal(n / 10) + last
  }

  function PrintLong(v: int): (s: string)
    ensures s != ""
  {
    if v < 0 then "-" + Decimal(-v) else Decimal(v)
  }

  // ----- lemmas -----

  /** The first and the last character of each class, and the ones next to them. */
  lemma Classes()
    ensures forall c :: c in "\t\n\r " ==> IsSpace(c)
    ensures !IsSpace(8 as char) && IsSpace(11 as char) && IsSpace(12 as char) && !IsSpace(14 as char)
    ensures IsDigit('0') && IsDigit('9') && !IsDigit('/') && !IsDigit(':')
    ensures IsAlpha('a') && IsAlpha('z') && IsAlpha('A') && IsAlpha('Z')
    ensures forall c :: c in "@[`{_" ==> !IsAlpha(c) && IsPunct(c)
    ensures forall c :: c in "!~" ==> IsPunct(c)
    ensures !IsPunct(' ') && !IsPunct(127 as char)
    ensures forall c :: c in "09azAZ" ==> !IsPunct(c)
    ensures DigitValue('0') == 0 && DigitValue('9') == 9
    ensures DigitValue('a') == DigitValue('A') == 10 && DigitValue('z') == DigitValue('Z') == 35
    ensures forall c :: c in "/:@[`{" ==> DigitValue(c) == 36
  {
  }

  lemma {:induction false} DigitCountIs(s: string, base: nat, n: nat)
    requires n <= |s| && (forall i :: 0 <= i < n ==> DigitValue(s[i]) < base)
    requires n < |s| ==> DigitValue(s[n]) >= base
    ensures DigitCount(s, base) == n
  {
    if n > 0 {
      DigitCountIs(s[1..], base, n - 1);
    }
  }

  lemma {:induction false} DecimalIs(n: nat)
    ensures Digits(Decimal(n), 10) == n
    ensures forall i :: 0 <= i < |Decimal(n)| ==> IsDigit(Decimal(n)[i])
  {
    var last := [('0' as int + n % 10) as char];
    assert Digits(last, 10) == n % 10 by {
      assert last[..0] == "";
    }
    if n >= 10 {
      DecimalIs(n / 10);
      assert (Decimal(n / 10) + last)[..|Decimal(n / 10)|] == Decimal(n / 10);
    }
  }

  lemma ReadsDecimal(m: nat, rest: string)
    requires rest != "" && DigitValue(rest[0]) == 36
    ensures Magnitude(Decimal(m) + rest) == Some((m, rest))
  {
    var d, u := Decimal(m), Decimal(m) + rest;
    DecimalIs(m);
    if m == 0 {
      assert d == "0" && u[0] == '0' && u[1] == rest[0];
      DigitCountIs(u, 8, 1);
      assert u[..1] == "0" && u[1..] == rest;
      assert Digits("0", 8) == 0 by { assert "0"[..0] == ""; }
    } else {
      assert u[0] == d[0] != '0';
      DigitCountIs(u, 10, |d|);
      assert u[..|d|] == d && u[|d|..] == rest;
    }
  }

  lemma NoSpace(s: string)
    requires s != "" && !IsSpace(s[0])
    ensures SkipSpace(s) == s
  {
  }

  /** The sign and the digits. */
  lemma Printed(v: int, m: nat, rest: string)
    requires m == if v < 0 then -v else v
    ensures var s, u := PrintLong(v) + rest, Decimal(m) + rest;
            && s != "" && !IsSpace(s[0]) && (s[0] == '-' <==> v < 0) && Unsigned(s) == u
  {
    hide Decimal;
    var d := Decimal(m);
    assert (d + rest)[0] == d[0];
    if v < 0 {
      assert ("-" + d + rest)[1..] == d + rest;
    }
  }

  lemma StrtolIs(s: string, m: nat, rest: string)
    requires SkipSpace(s) == s != "" && Magnitude(Unsigned(s)) == Some((m, rest))
    ensures Strtol(s) == (Clamp(if s[0] == '-' then -(m as int) else m), rest)
  {
    hide Magnitude, Unsigned, SkipSpace, Clamp;
  }

  /** strtol with base 0 reads back what %ld prints, up to a following non-digit. */
  lemma StrtolReadsPrintLong(v: int, rest: string)
    requires IsLong(v)
    requires rest != "" && DigitValue(rest[0]) == 36
    ensures Strtol(PrintLong(v) + rest) == (v, rest)
    ensures SkipSpace(PrintLong(v) + rest) == PrintLong(v) + rest
  {
    var m := if v < 0 then -v else v;
    var s, u := PrintLong(v) + rest, Decimal(m) + rest;
    Printed(v, m, rest);
    ReadsDecimal(m, rest);
    NoSpace(s);
    assert Clamp(v) == v;
    hide *;
    StrtolIs(s, m, rest);
  }

  /** A name that enum_next_token reads as one whole token and strv_split does not cut. */
  predicate ValidName(s: string) {
    && 0 < |s| <= TOKEN_MAX && (IsAlpha(s[0]) || s[0] == '_')
    && forall i :: 0 <= i < |s| ==> !IsStop(s[i]) && s[i] != ';'
  }

  lemma StopAtIs(s: string, n: nat)
    requires n < |s| && IsStop(s[n]) && forall i :: 0 <= i < n ==> !IsStop(s[i])
    ensures StopAt(s) == n
  {
  }

  lemma NameToken(name: string, rest: string, token: string)
    requires ValidName(name) && rest != "" && IsStop(rest[0])
    ensures NextToken(Lexer(Some(name + rest), token)) == (Str, Lexer(Some(rest), name))
    ensures NextToken(Lexer(Some(" " + name + rest), token)) == (Str, Lexer(Some(rest), name))
  {
    var s := name + rest;
    StopAtIs(s, |name|);
    assert s[..|name|] == name && s[|name|..] == rest;
    assert (" " + name + rest)[1..] == s;
    assert SkipSpace(" " + name + rest) == s;
  }

  lemma SignToken(c: char, rest: string, token: string)
    requires c == ',' || c == '=' || c == '{' || c == '}' || c == '('
    ensures NextToken(Lexer(Some([c] + rest), token)) == (Sign, Lexer(Some(rest), [c]))
    ensures NextToken(Lexer(Some(" " + [c] + rest), token)) == (Sign, Lexer(Some(rest), [c]))
  {
    assert ([c] + rest)[1..] == rest;
    assert (" " + [c] + rest)[1..] == [c] + rest;
    assert SkipSpace(" " + [c] + rest) == [c] + rest;
  }
}
