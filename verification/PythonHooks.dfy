/** The Python profile hook: apply_filters, can_trace and the dispatch of uftrace_trace_python
    (python/trace-python.c) on the events of properly nested Python and C calls. */
module PythonHooks {
  import opened Wrappers

  type Name = nat
  datatype Sign = In | Out
  datatype Mode = NoFilter | ModeIn | ModeOut
  datatype LibMode = NoLib | Single | Nested

  /** A filter is the set of names its pattern matches. */
  datatype Filter = Filter(names: set<Name>, sign: Sign)

  /** `filtering` says that UFTRACE_FILTER is set. */
  datatype Config = Config(filtering: bool, filters: seq<Filter>, lib: LibMode)

  /** A function: its name, also standing for its address, and whether it is outside the main module. */
  datatype Sym = Sym(name: Name, lib: bool)

  /** "call" and "c_call", or "return", "c_return" and "c_exception". */
  datatype Event = Enter(sym: Sym) | Leave(sym: Sym)

  /** filter_state and libcall_count, and the calls made to cygprof_enter and cygprof_exit; an
      exit is tagged with the function whose event caused it. */
  datatype State = State(countIn: int, countOut: int, libCount: int, hooks: seq<Event>)

  function ModeOf(cfg: Config): Mode {
    if !cfg.filtering then NoFilter
    else if exists f :: f in cfg.filters && f.sign == In then ModeIn
    else ModeOut
  }

  /** The sign of the first filter that matches. */
  function Match(filters: seq<Filter>, n: Name): Option<Sign> {
    if filters == [] then None
    else if n in filters[0].names then Some(filters[0].sign)
    else Match(filters[1..], n)
  }

  function MatchOf(cfg: Config, s: Sym): Option<Sign> { Match(cfg.filters, s.name) }

  /** The counters after apply_filters, and whether the event is skipped. */
  function ApplyFilters(cfg: Config, st: State, e: Event): (State, bool) {
    var m, delta := MatchOf(cfg, e.sym), if e.Enter? then 1 else -1;
    var st' := if m == Some(In) then st.(countIn := st.countIn + delta)
               else if m == Some(Out) then st.(countOut := st.countOut + delta) else st;
    var skip :=
      if st'.countOut > 0 then true
      else if ModeOf(cfg) == ModeIn then st'.countIn <= 0 && !(m == Some(In) && e.Leave?)
      else ModeOf(cfg) == ModeOut && m == Some(Out) && e.Leave?;
    (st', skip)
  }

  function CanTrace(cfg: Config, st: State, e: Event): (State, bool) {
    if !e.sym.lib then (st, true)
    else if cfg.lib == NoLib then (st, false)
    else if cfg.lib == Nested then (st, true)
    else if e.Enter? then (st.(libCount := st.libCount + 1), st.libCount <= 0)
    else if st.libCount - 1 > 0 then (st.(libCount := st.libCount - 1), false)
    else (st.(libCount := 0), true)
  }

  function Trace(cfg: Config, st: State, e: Event): State {
    var (st1, skip) := if cfg.filtering then ApplyFilters(cfg, st, e) else (st, false);
    if skip then st1
    else
      var (st2, ok) := CanTrace(cfg, st1, e);
      if ok then st2.(hooks := st2.hooks + [e]) else st2
  }

  function TraceAll(cfg: Config, st: State, es: seq<Event>): State
    decreases |es|
  {
    if es == [] then st else TraceAll(cfg, Trace(cfg, st, es[0]), es[1..])
  }

  // ----- nested calls -----

  datatype Call = Call(sym: Sym, children: seq<Call>)

  function Events(c: Call): seq<Event> {
    [Enter(c.sym)] + EventsAll(c.children) + [Leave(c.sym)]
  }

  function EventsAll(cs: seq<Call>): seq<Event> {
    if cs == [] then [] else Events(cs[0]) + EventsAll(cs[1..])
  }

  // ----- which calls are traced, by the path that leads to them -----

  function Matched(cfg: Config, path: seq<Sym>, sign: Sign): nat {
    if path == [] then 0
    else Matched(cfg, path[..|path| - 1], sign) + if MatchOf(cfg, path[|path| - 1]) == Some(sign) then 1 else 0
  }

  predicate HasPositive(filters: seq<Filter>) {
    exists f :: f in filters && f.sign == In
  }

  /** No function on the path is matched negatively, and if there is a positive filter some
      function on it is matched positively. */
  predicate Passes(cfg: Config, path: seq<Sym>) {
    !cfg.filtering || (Matched(cfg, path, Out) == 0 && (HasPositive(cfg.filters) ==> Matched(cfg, path, In) > 0))
  }

  /** The library functions on the path that pass the filters. */
  function LibsOn(cfg: Config, path: seq<Sym>): nat {
    if path == [] then 0
    else LibsOn(cfg, path[..|path| - 1]) + if path[|path| - 1].lib && Passes(cfg, path) then 1 else 0
  }

  /** The last function of the path is traced. */
  predicate Traced(cfg: Config, path: seq<Sym>)
    requires path != []
  {
    && Passes(cfg, path)
    && (path[|path| - 1].lib ==> cfg.lib == Nested || (cfg.lib == Single && LibsOn(cfg, path[..|path| - 1]) == 0))
  }

  /** The call tree cut down to the traced calls, as a word of enters and leaves. */
  function Pruned(cfg: Config, path: seq<Sym>, c: Call): seq<Event>
    decreases c
  {
    var here, inside := path + [c.sym], PrunedAll(cfg, path + [c.sym], c.children);
    if Traced(cfg, here) then [Enter(c.sym)] + inside + [Leave(c.sym)] else inside
  }

  function PrunedAll(cfg: Config, path: seq<Sym>, cs: seq<Call>): seq<Event>
    decreases cs
  {
    if cs == [] then [] else Pruned(cfg, path, cs[0]) + PrunedAll(cfg, path, cs[1..])
  }

  /** The counters when the calls of `path` are active. */
  ghost predicate At(cfg: Config, st: State, path: seq<Sym>) {
    && (cfg.filtering ==> st.countIn == Matched(cfg, path, In) && st.countOut == Matched(cfg, path, Out))
    && (cfg.lib == Single ==> st.libCount == LibsOn(cfg, path))
  }

  /** The functions open after a word of enters and leaves; each leave must be of the latest. */
  function Open(word: seq<Event>, st: seq<Sym>): Option<seq<Sym>> {
    if word == [] then Some(st)
    else if word[0].Enter? then Open(word[1..], st + [word[0].sym])
    else if st != [] && st[|st| - 1] == word[0].sym then Open(word[1..], st[..|st| - 1])
    else None
  }

  /** The entry and the exit of a function are judged alike: not so when it is matched
      negatively, alone, below a positively matched one. */
  predicate Alike(cfg: Config, path: seq<Sym>, s: Sym) {
    !(cfg.filtering && HasPositive(cfg.filters) && MatchOf(cfg, s) == Some(Out)
      && Matched(cfg, path, Out) == 0 && Matched(cfg, path, In) > 0)
  }

  /** Both or neither of the entry and the exit get to libmcount: the filters judge them alike,
      or it is a library function and no library function is traced. */
  predicate Paired(cfg: Config, path: seq<Sym>, s: Sym) {
    Alike(cfg, path, s) || (s.lib && cfg.lib == NoLib)
  }

  ghost predicate PairedIn(cfg: Config, path: seq<Sym>, c: Call)
    decreases c
  {
    Paired(cfg, path, c.sym) && forall k :: 0 <= k < |c.children| ==> PairedIn(cfg, path + [c.sym], c.children[k])
  }

  /** The calls in the tree whose exit gets to libmcount and whose entry does not. */
  function Unpaired(cfg: Config, path: seq<Sym>, c: Call): nat
    decreases c
  {
    (if Paired(cfg, path, c.sym) then 0 else 1) + UnpairedAll(cfg, path + [c.sym], c.children)
  }

  function UnpairedAll(cfg: Config, path: seq<Sym>, cs: seq<Call>): nat
    decreases cs
  {
    if cs == [] then 0 else Unpaired(cfg, path, cs[0]) + UnpairedAll(cfg, path, cs[1..])
  }

  /** Enters minus leaves. */
  function Net(word: seq<Event>): int {
    if word == [] then 0 else (if word[0].Enter? then 1 else -1) + Net(word[1..])
  }

  predicate SameSign(cfg: Config) {
    forall f, g :: f in cfg.filters && g in cfg.filters ==> f.sign == g.sign
  }
}
