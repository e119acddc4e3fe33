/** Showing a number as enum constants: convert_enum_val (utils/auto-args.c). */
module EnumDecode {
  import opened EnumDef
  import opened Wrappers

  /** A constant's own name; the OR-ed names with the residue printed after them; or a number. */
  datatype Shown = Name(name: string) | Flags(text: string, residue: int) | Number(value: int)

  function Exact(vals: seq<Val>, v: int): Option<Val> {
    if vals == [] then None
    else if vals[0].val == v then Some(vals[0])
    else Exact(vals[1..], v)
  }

  /** The second loop: the constants taken, in list order, and what is left of the value. */
  function Greedy(vals: seq<Val>, v: int): (seq<Val>, int) {
    if vals == [] then ([], v)
    else
      var take := vals[0].val <= v;
      var rest := if take then v - vals[0].val else v;
      var (more, residue) := if rest == 0 then ([], 0) else Greedy(vals[1..], rest);
      (if take then [vals[0]] + more else more, residue)
  }

  /** strjoin with "|". */
  function JoinNames(vals: seq<Val>): string {
    if vals == [] then ""
    else if |vals| == 1 then vals[0].name
    else JoinNames(vals[..|vals| - 1]) + "|" + vals[|vals| - 1].name
  }

  function Show(vals: seq<Val>, v: int): Shown {
    var exact := Exact(vals, v);
    if exact.Some? then Name(exact.value.name)
    else
      var (taken, residue) := Greedy(vals, v);
      if taken == [] then Number(residue) else Flags(JoinNames(taken), residue)
  }

  function Sum(vals: seq<Val>): int {
    if vals == [] then 0 else vals[0].val + Sum(vals[1..])
  }

  // ----- flags -----

  predicate PowerOfTwo(n: int)
    decreases n
  {
    n == 1 || (n > 1 && n % 2 == 0 && PowerOfTwo(n / 2))
  }

  /** Distinct powers of two in the parser's order. */
  predicate FlagList(vals: seq<Val>) {
    && (forall i :: 0 <= i < |vals| ==> PowerOfTwo(vals[i].val))
    && forall i, j :: 0 <= i < j < |vals| ==> vals[j].val < vals[i].val
  }

  /** The constants whose bit in `mask` is set. */
  function Pick(vals: seq<Val>, mask: seq<bool>): (r: seq<Val>)
    requires |mask| == |vals|
  {
    if vals == [] then [] else (if mask[0] then [vals[0]] else []) + Pick(vals[1..], mask[1..])
  }
}
