/** What libmcount sees of nested Python calls is the call tree cut down to the traced calls. */
module PythonHooksProofs {
  import opened PythonHooks
  import opened Wrappers

  /** A name is matched by the first filter that has it, or by none. */
  lemma {:induction false} FirstMatch(filters: seq<Filter>, n: Name, i: nat)
    requires i <= |filters| && (forall j :: 0 <= j < i ==> n !in filters[j].names)
    requires i < |filters| ==> n in filters[i].names
    ensures Match(filters, n) == if i < |filters| then Some(filters[i].sign) else None
  {
    if i > 0 {
      FirstMatch(filters[1..], n, i - 1);
    }
  }

  lemma {:induction false} MatchSign(filters: seq<Filter>, n: Name)
    ensures Match(filters, n).Some? ==> exists f :: f in filters && f.sign == Match(filters, n).value
  {
    if filters != [] {
      if n in filters[0].names {
        assert filters[0] in filters;
      } else {
        MatchSign(filters[1..], n);
        assert forall f :: f in filters[1..] ==> f in filters;
      }
    }
  }

  /** One call. With the counters right for the path, a function's entry and exit
      are both skipped or both let through by the filters iff Alike. */
  lemma JudgedAlikeIff(cfg: Config, st: State, path: seq<Sym>, s: Sym)
    requires cfg.filtering && At(cfg, st, path)
    ensures var (inside, skipEntry) := ApplyFilters(cfg, st, Enter(s));
            var (after, skipExit) := ApplyFilters(cfg, inside, Leave(s));
            && after == st
            && skipEntry == !Passes(cfg, path + [s])
            && (skipEntry == skipExit <==> Alike(cfg, path, s))
  {
    assert (path + [s])[..|path|] == path;
    MatchSign(cfg.filters, s.name);
  }

  lemma EnterStep(cfg: Config, st: State, path: seq<Sym>, s: Sym)
    requires At(cfg, st, path) && Paired(cfg, path, s)
    ensures At(cfg, Trace(cfg, st, Enter(s)), path + [s])
    ensures Trace(cfg, st, Enter(s)).hooks == st.hooks + if Traced(cfg, path + [s]) then [Enter(s)] else []
  {
    assert (path + [s])[..|path|] == path;
    MatchSign(cfg.filters, s.name);
    assert st.hooks + [] == st.hooks;
  }

  /** The exit, in a state where the calls made inside have come and gone. */
  lemma LeaveStep(cfg: Config, st: State, path: seq<Sym>, s: Sym)
    requires At(cfg, st, path + [s]) && Paired(cfg, path, s)
    ensures At(cfg, Trace(cfg, st, Leave(s)), path)
    ensures Trace(cfg, st, Leave(s)).hooks == st.hooks + if Traced(cfg, path + [s]) then [Leave(s)] else []
  {
    assert (path + [s])[..|path|] == path;
    MatchSign(cfg.filters, s.name);
    assert st.hooks + [] == st.hooks;
  }

  lemma {:induction false} TraceAppend(cfg: Config, st: State, u: seq<Event>, v: seq<Event>)
    ensures TraceAll(cfg, st, u + v) == TraceAll(cfg, TraceAll(cfg, st, u), v)
    decreases |u|
  {
    if u == [] {
      assert u + v == v;
    } else {
      assert (u + v)[1..] == u[1..] + v;
      TraceAppend(cfg, Trace(cfg, st, u[0]), u[1..], v);
    }
  }

  lemma TraceOne(cfg: Config, st: State, e: Event)
    ensures TraceAll(cfg, st, [e]) == Trace(cfg, st, e)
  {
    assert [e][1..] == [];
  }

  /** MAIN RESULT (Python hooks). Whatever filters and libcall mode: a call tree in which
      every call is paired makes libmcount see exactly the call tree cut down to the
      traced calls, and leaves the counters as they were. */
  lemma {:induction false} CallTraced(cfg: Config, st: State, path: seq<Sym>, c: Call)
    requires At(cfg, st, path) && PairedIn(cfg, path, c)
    ensures At(cfg, TraceAll(cfg, st, Events(c)), path)
    ensures TraceAll(cfg, st, Events(c)).hooks == st.hooks + Pruned(cfg, path, c)
    decreases c, |c.children| + 1
  {
    hide At, Paired, Trace, TraceAll, Traced;
    var here := path + [c.sym];
    var st1 := Trace(cfg, st, Enter(c.sym));
    var st2 := TraceAll(cfg, st1, EventsAll(c.children));
    EnterStep(cfg, st, path, c.sym);
    CallsTraced(cfg, st1, here, c, c.children);
    LeaveStep(cfg, st2, path, c.sym);
    TraceAppend(cfg, st, [Enter(c.sym)] + EventsAll(c.children), [Leave(c.sym)]);
    TraceAppend(cfg, st, [Enter(c.sym)], EventsAll(c.children));
    TraceOne(cfg, st, Enter(c.sym));
    TraceOne(cfg, st2, Leave(c.sym));
    var inside := PrunedAll(cfg, here, c.children);
    if Traced(cfg, here) {
      assert ((st.hooks + [Enter(c.sym)]) + inside) + [Leave(c.sym)] ==
             st.hooks + ([Enter(c.sym)] + inside + [Leave(c.sym)]);
    } else {
      assert ((st.hooks + []) + inside) + [] == st.hooks + inside;
    }
  }

  lemma {:induction false} CallsTraced(cfg: Config, st: State, path: seq<Sym>, parent: Call, cs: seq<Call>)
    requires At(cfg, st, path) && (forall k :: 0 <= k < |cs| ==> PairedIn(cfg, path, cs[k]))
    requires forall k :: 0 <= k < |cs| ==> cs[k] in parent.children
    ensures At(cfg, TraceAll(cfg, st, EventsAll(cs)), path)
    ensures TraceAll(cfg, st, EventsAll(cs)).hooks == st.hooks + PrunedAll(cfg, path, cs)
    decreases parent, |cs|
  {
    if cs == [] {
      assert st.hooks + [] == st.hooks;
    } else {
      hide At, Paired, Trace, TraceAll, Events, Pruned, PairedIn;
      var st1 := TraceAll(cfg, st, Events(cs[0]));
      CallTraced(cfg, st, path, cs[0]);
      CallsTraced(cfg, st1, path, parent, cs[1..]);
      TraceAppend(cfg, st, Events(cs[0]), EventsAll(cs[1..]));
      assert (st.hooks + Pruned(cfg, path, cs[0])) + PrunedAll(cfg, path, cs[1..]) ==
             st.hooks + (Pruned(cfg, path, cs[0]) + PrunedAll(cfg, path, cs[1..]));
    }
  }

  // ----- balance -----

  lemma {:induction false} OpenAppend(u: seq<Event>, v: seq<Event>, st: seq<Sym>)
    requires Open(u, st).Some?
    ensures Open(u + v, st) == Open(v, Open(u, st).value)
    decreases |u|
  {
    if u == [] {
      assert u + v == v;
    } else {
      assert (u + v)[1..] == u[1..] + v;
      OpenAppend(u[1..], v, if u[0].Enter? then st + [u[0].sym] else st[..|st| - 1]);
    }
  }

  lemma OpenOne(s: Sym, st: seq<Sym>)
    ensures Open([Enter(s)], st) == Some(st + [s]) && Open([Leave(s)], st + [s]) == Some(st)
  {
    assert [Enter(s)][1..] == [] && [Leave(s)][1..] == [];
    assert (st + [s])[..|st|] == st;
  }

  lemma {:induction false} PrunedBalanced(cfg: Config, path: seq<Sym>, c: Call, st: seq<Sym>)
    ensures Open(Pruned(cfg, path, c), st) == Some(st)
    decreases c, |c.children| + 1
  {
    hide Traced;
    var here := path + [c.sym];
    var inside := PrunedAll(cfg, here, c.children);
    if Traced(cfg, here) {
      PrunedAllBalanced(cfg, here, c, c.children, st + [c.sym]);
      OpenOne(c.sym, st);
      OpenAppend([Enter(c.sym)], inside, st);
      OpenAppend([Enter(c.sym)] + inside, [Leave(c.sym)], st);
    } else {
      PrunedAllBalanced(cfg, here, c, c.children, st);
    }
  }

  lemma {:induction false} PrunedAllBalanced(cfg: Config, path: seq<Sym>, parent: Call, cs: seq<Call>, st: seq<Sym>)
    requires forall k :: 0 <= k < |cs| ==> cs[k] in parent.children
    ensures Open(PrunedAll(cfg, path, cs), st) == Some(st)
    decreases parent, |cs|
  {
    if cs != [] {
      hide Pruned;
      PrunedBalanced(cfg, path, cs[0], st);
      PrunedAllBalanced(cfg, path, parent, cs[1..], st);
      OpenAppend(Pruned(cfg, path, cs[0]), PrunedAll(cfg, path, cs[1..]), st);
    }
  }

  // ----- filters of one sign -----

  lemma SameSignAlike(cfg: Config, path: seq<Sym>, s: Sym)
    requires SameSign(cfg)
    ensures Alike(cfg, path, s)
  {
    MatchSign(cfg.filters, s.name);
  }

  lemma {:induction false} SameSignPairedIn(cfg: Config, path: seq<Sym>, c: Call)
    requires SameSign(cfg)
    ensures PairedIn(cfg, path, c)
    decreases c
  {
    SameSignAlike(cfg, path, c.sym);
    forall k | 0 <= k < |c.children| ensures PairedIn(cfg, path + [c.sym], c.children[k]) {
      SameSignPairedIn(cfg, path + [c.sym], c.children[k]);
    }
  }

  const START := State(0, 0, 0, [])

  /** MAIN RESULT (balanced hooks). With filters of one sign, in every libcall mode and for every
      nest of calls, the calls to cygprof_enter and cygprof_exit are the pruned call tree; each
      exit closes the enter of its own function; and the counters are back where they were. */
  lemma HooksBalanced(cfg: Config, c: Call)
    requires SameSign(cfg)
    ensures var st := TraceAll(cfg, START, Events(c));
            && At(cfg, st, [])
            && st.hooks == Pruned(cfg, [], c)
            && Open(st.hooks, []) == Some([])
  {
    SameSignPairedIn(cfg, [], c);
    CallTraced(cfg, START, [], c);
    PrunedBalanced(cfg, [], c, []);
    assert [] + Pruned(cfg, [], c) == Pruned(cfg, [], c);
  }

  // ----- balance in every case -----

  /** The part of At that a call never leaves wrong. */
  ghost predicate FiltersAt(cfg: Config, st: State, path: seq<Sym>) {
    && st.libCount >= 0
    && (cfg.filtering ==> st.countIn == Matched(cfg, path, In) && st.countOut == Matched(cfg, path, Out))
  }

  /** Enters minus leaves, plus what libcall_count holds beyond the enter it stands for. Every
      event that gets past the filters, and is not of an untraced library, moves it by one. */
  function Balance(cfg: Config, st: State): int {
    Net(st.hooks) + if cfg.lib == Single && st.libCount > 0 then st.libCount - 1 else 0
  }

  lemma {:induction false} NetAppend(u: seq<Event>, e: Event)
    ensures Net(u + [e]) == Net(u) + if e.Enter? then 1 else -1
  {
    if u == [] {
      assert u + [e] == [e] && [e][1..] == [];
    } else {
      assert (u + [e])[1..] == u[1..] + [e];
      NetAppend(u[1..], e);
    }
  }

  lemma {:induction false} OpenNet(word: seq<Event>, st: seq<Sym>)
    requires Open(word, st).Some?
    ensures |Open(word, st).value| == |st| + Net(word)
    decreases |word|
  {
    if word != [] {
      OpenNet(word[1..], if word[0].Enter? then st + [word[0].sym] else st[..|st| - 1]);
    }
  }

  lemma CanTraceMoves(cfg: Config, st: State, e: Event)
    requires st.libCount >= 0
    ensures var (st', ok) := CanTrace(cfg, st, e);
            var s := if ok then st'.(hooks := st'.hooks + [e]) else st';
            && s == st.(hooks := s.hooks, libCount := s.libCount) && s.libCount >= 0
            && Balance(cfg, s) == Balance(cfg, st) +
                                  if e.sym.lib && cfg.lib == NoLib then 0 else if e.Enter? then 1 else -1
  {
    hide Net;
    NetAppend(st.hooks, e);
  }

  /** The filters let the event through. */
  predicate Lets(cfg: Config, path: seq<Sym>, e: Event) {
    Passes(cfg, path + [e.sym]) || (e.Leave? && !Alike(cfg, path, e.sym))
  }

  function Weight(cfg: Config, path: seq<Sym>, e: Event): int {
    if !Lets(cfg, path, e) || (e.sym.lib && cfg.lib == NoLib) then 0 else if e.Enter? then 1 else -1
  }

  lemma EnterMoves(cfg: Config, st: State, path: seq<Sym>, s: Sym)
    requires FiltersAt(cfg, st, path)
    ensures FiltersAt(cfg, Trace(cfg, st, Enter(s)), path + [s])
    ensures Balance(cfg, Trace(cfg, st, Enter(s))) == Balance(cfg, st) + Weight(cfg, path, Enter(s))
  {
    assert (path + [s])[..|path|] == path;
    MatchSign(cfg.filters, s.name);
    hide CanTrace, Match;
    CanTraceMoves(cfg, if cfg.filtering then ApplyFilters(cfg, st, Enter(s)).0 else st, Enter(s));
  }

  lemma LeaveMoves(cfg: Config, st: State, path: seq<Sym>, s: Sym)
    requires FiltersAt(cfg, st, path + [s])
    ensures FiltersAt(cfg, Trace(cfg, st, Leave(s)), path)
    ensures Balance(cfg, Trace(cfg, st, Leave(s))) == Balance(cfg, st) + Weight(cfg, path, Leave(s))
  {
    assert (path + [s])[..|path|] == path;
    MatchSign(cfg.filters, s.name);
    hide CanTrace, Match;
    CanTraceMoves(cfg, if cfg.filtering then ApplyFilters(cfg, st, Leave(s)).0 else st, Leave(s));
  }

  lemma WeightsOff(cfg: Config, path: seq<Sym>, s: Sym)
    ensures Weight(cfg, path, Enter(s)) + Weight(cfg, path, Leave(s)) == if Paired(cfg, path, s) then 0 else -1
  {
    assert (path + [s])[..|path|] == path;
  }

  /** Every unpaired call costs one, and nothing ever pays it back. */
  lemma {:induction false} CallMoves(cfg: Config, st: State, path: seq<Sym>, c: Call)
    requires FiltersAt(cfg, st, path)
    ensures FiltersAt(cfg, TraceAll(cfg, st, Events(c)), path)
    ensures Balance(cfg, TraceAll(cfg, st, Events(c))) == Balance(cfg, st) - Unpaired(cfg, path, c)
    decreases c, |c.children| + 1
  {
    hide FiltersAt, Paired, Trace, TraceAll, Balance, Weight;
    var st1 := Trace(cfg, st, Enter(c.sym));
    var st2 := TraceAll(cfg, st1, EventsAll(c.children));
    EnterMoves(cfg, st, path, c.sym);
    CallsMove(cfg, st1, path + [c.sym], c, c.children);
    LeaveMoves(cfg, st2, path, c.sym);
    TraceAppend(cfg, st, [Enter(c.sym)] + EventsAll(c.children), [Leave(c.sym)]);
    TraceAppend(cfg, st, [Enter(c.sym)], EventsAll(c.children));
    TraceOne(cfg, st, Enter(c.sym));
    TraceOne(cfg, st2, Leave(c.sym));
    WeightsOff(cfg, path, c.sym);
  }

  lemma {:induction false} CallsMove(cfg: Config, st: State, path: seq<Sym>, parent: Call, cs: seq<Call>)
    requires FiltersAt(cfg, st, path) && (forall k :: 0 <= k < |cs| ==> cs[k] in parent.children)
    ensures FiltersAt(cfg, TraceAll(cfg, st, EventsAll(cs)), path)
    ensures Balance(cfg, TraceAll(cfg, st, EventsAll(cs))) == Balance(cfg, st) - UnpairedAll(cfg, path, cs)
    decreases parent, |cs|
  {
    if cs != [] {
      hide FiltersAt, Trace, TraceAll, Events, Unpaired, Balance;
      CallMoves(cfg, st, path, cs[0]);
      CallsMove(cfg, TraceAll(cfg, st, Events(cs[0])), path, parent, cs[1..]);
      TraceAppend(cfg, st, Events(cs[0]), EventsAll(cs[1..]));
    }
  }

  lemma {:induction false} NoneUnpaired(cfg: Config, path: seq<Sym>, c: Call)
    ensures Unpaired(cfg, path, c) == 0 <==> PairedIn(cfg, path, c)
    decreases c, |c.children| + 1
  {
    hide Paired;
    NoneOfAll(cfg, path + [c.sym], c, c.children);
  }

  lemma {:induction false} NoneOfAll(cfg: Config, path: seq<Sym>, parent: Call, cs: seq<Call>)
    requires forall k :: 0 <= k < |cs| ==> cs[k] in parent.children
    ensures UnpairedAll(cfg, path, cs) == 0 <==> forall k :: 0 <= k < |cs| ==> PairedIn(cfg, path, cs[k])
    decreases parent, |cs|
  {
    if cs != [] {
      hide Unpaired, PairedIn;
      NoneUnpaired(cfg, path, cs[0]);
      NoneOfAll(cfg, path, parent, cs[1..]);
      assert forall k :: 1 <= k < |cs| ==> cs[k] == cs[1..][k - 1];
    }
  }

  /** MAIN RESULT (when the hooks are balanced). For all filters, all libcall modes and every nest
      of calls: each exit closes the enter of its own function and none stays open iff every call
      is paired. Otherwise libmcount sees more exits than entries. */
  lemma BalancedIff(cfg: Config, c: Call)
    ensures var hooks := TraceAll(cfg, START, Events(c)).hooks;
            && (Open(hooks, []) == Some([]) <==> PairedIn(cfg, [], c))
            && Net(hooks) + Unpaired(cfg, [], c) <= 0
            && (cfg.lib != Single ==> Net(hooks) + Unpaired(cfg, [], c) == 0)
  {
    var st := TraceAll(cfg, START, Events(c));
    CallMoves(cfg, START, [], c);
    NoneUnpaired(cfg, [], c);
    hide TraceAll, PairedIn, Unpaired;
    if PairedIn(cfg, [], c) {
      CallTraced(cfg, START, [], c);
      PrunedBalanced(cfg, [], c, []);
      assert [] + Pruned(cfg, [], c) == Pruned(cfg, [], c);
    } else if Open(st.hooks, []) == Some([]) {
      OpenNet(st.hooks, []);
    }
  }

  /** With filters of both signs an exit can have no enter: f is wanted, g is not, f calls g. */
  lemma MixedSignsUnbalanced()
    ensures var cfg := Config(true, [Filter({1}, In), Filter({2}, Out)], Nested);
            var f, g := Sym(1, false), Sym(2, false);
            var st := TraceAll(cfg, START, Events(Call(f, [Call(g, [])])));
            st.hooks == [Enter(f), Leave(g), Leave(f)] && Open(st.hooks, []) == None
  {
    var cfg := Config(true, [Filter({1}, In), Filter({2}, Out)], Nested);
    var f, g := Sym(1, false), Sym(2, false);
    assert cfg.filters[0].sign == In && cfg.filters[0] in cfg.filters;
    assert cfg.filters[1..] == [Filter({2}, Out)];
    assert MatchOf(cfg, f) == Some(In) && MatchOf(cfg, g) == Some(Out);
    assert EventsAll([]) == [];
    assert Events(Call(g, [])) == [Enter(g), Leave(g)];
    assert [Call(g, [])][1..] == [];
    assert EventsAll([Call(g, [])]) == [Enter(g), Leave(g)];
    var es := Events(Call(f, [Call(g, [])]));
    assert es == [Enter(f), Enter(g), Leave(g), Leave(f)];
    assert es[1..] == [Enter(g), Leave(g), Leave(f)];
    assert es[1..][1..] == [Leave(g), Leave(f)];
    assert es[1..][1..][1..] == [Leave(f)];
    assert es[1..][1..][1..][1..] == [];
    var s1 := Trace(cfg, START, Enter(f));
    var s2 := Trace(cfg, s1, Enter(g));
    var s3 := Trace(cfg, s2, Leave(g));
    var s4 := Trace(cfg, s3, Leave(f));
    assert s1 == State(1, 0, 0, [Enter(f)]);
    assert s2 == State(1, 1, 0, [Enter(f)]);
    assert s3 == State(1, 0, 0, [Enter(f), Leave(g)]);
    assert s4 == State(0, 0, 0, [Enter(f), Leave(g), Leave(f)]);
    assert TraceAll(cfg, s3, [Leave(f)]) == s4;
    assert TraceAll(cfg, s2, [Leave(g), Leave(f)]) == s4;
    assert TraceAll(cfg, s1, [Enter(g), Leave(g), Leave(f)]) == s4;
    assert s4.hooks[1..] == [Leave(g), Leave(f)];
    assert Open(s4.hooks[1..], [f]) == None;
  }
}
