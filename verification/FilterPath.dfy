/** The incremental filter counters and depth equal a predicate on the path of active calls. */
module FilterPath {
  import opened CygprofStack

  /** The filter state after entering the calls of a path one by one. */
  function CtlAt(cfg: Config, path: seq<Func>): Ctl {
    if path == [] then Ctl(0, 0, 0)
    else FilterCheck(cfg, CtlAt(cfg, path[..|path| - 1]), path[|path| - 1]).ctl
  }

  function VerdictAt(cfg: Config, path: seq<Func>): Verdict
    requires path != []
  {
    FilterCheck(cfg, CtlAt(cfg, path[..|path| - 1]), path[|path| - 1])
  }

  predicate Matches(cfg: Config, f: Func, m: Mode) {
    f in cfg.filters && cfg.filters[f] == m
  }

  /** The position of the last call on the path that any filter matches, or 0. */
  function LastMatch(cfg: Config, path: seq<Func>): (i: nat)
    ensures path != [] ==> i < |path|
  {
    if path == [] then 0
    else if path[|path| - 1] in cfg.filters then |path| - 1
    else if |path| == 1 then 0
    else LastMatch(cfg, path[..|path| - 1])
  }

  predicate Has(cfg: Config, path: seq<Func>, m: Mode) {
    exists i :: 0 <= i < |path| && Matches(cfg, path[i], m)
  }

  /** THE SPECIFICATION. The last call of the path is recorded iff nothing on the path is
      notrace-matched, something is filter-matched when positive filters exist, and the
      distance from the last match is below the depth limit. */
  predicate PathAccepted(cfg: Config, path: seq<Func>) {
    && path != []
    && !Has(cfg, path, Out)
    && (ModeIn(cfg) ==> Has(cfg, path, In))
    && |path| - 1 - LastMatch(cfg, path) < cfg.limit
  }

  function Count(cfg: Config, path: seq<Func>, m: Mode): nat {
    if path == [] then 0
    else Count(cfg, path[..|path| - 1], m) + if Matches(cfg, path[|path| - 1], m) then 1 else 0
  }

  lemma HasStep(cfg: Config, path: seq<Func>, m: Mode)
    requires path != []
    ensures Has(cfg, path, m) <==> Has(cfg, path[..|path| - 1], m) || Matches(cfg, path[|path| - 1], m)
  {
    var front := path[..|path| - 1];
    if i :| 0 <= i < |front| && Matches(cfg, front[i], m) {
      assert Matches(cfg, path[i], m);
    }
    if i :| 0 <= i < |path| && Matches(cfg, path[i], m) {
      assert i == |front| || Matches(cfg, front[i], m);
    }
  }

  lemma {:induction false} CountIsHas(cfg: Config, path: seq<Func>, m: Mode)
    ensures Count(cfg, path, m) > 0 <==> Has(cfg, path, m)
  {
    if path != [] {
      CountIsHas(cfg, path[..|path| - 1], m);
      HasStep(cfg, path, m);
    }
  }

  /** A match by a positive filter means there are positive filters. */
  lemma MatchedIn(cfg: Config, f: Func)
    ensures Matches(cfg, f, In) ==> ModeIn(cfg)
  {
  }

  /** With no notrace match, the counters are the matches on the path and the depth is the
      distance from the last match, capped by the limit. */
  lemma {:induction false} CtlClosedForm(cfg: Config, path: seq<Func>)
    requires !Has(cfg, path, Out)
    ensures var c := CtlAt(cfg, path);
            && c.outCount == 0
            && c.inCount == Count(cfg, path, In)
            && c.depth == if path == [] || (ModeIn(cfg) && !Has(cfg, path, In)) then 0
                          else Min(|path| - LastMatch(cfg, path), cfg.limit)
  {
    CountIsHas(cfg, path, In);
    if path != [] {
      var front, f := path[..|path| - 1], path[|path| - 1];
      HasStep(cfg, path, Out);
      HasStep(cfg, path, In);
      CtlClosedForm(cfg, front);
      CountIsHas(cfg, front, In);
      MatchedIn(cfg, f);
    }
  }

  /** Once a notrace match is on the path, nothing below it is matched any more, so at most
      one NOTRACE frame is ever counted. */
  lemma {:induction false} OutIsOne(cfg: Config, path: seq<Func>)
    ensures CtlAt(cfg, path).outCount == if Has(cfg, path, Out) then 1 else 0
  {
    if path != [] {
      HasStep(cfg, path, Out);
      OutIsOne(cfg, path[..|path| - 1]);
    }
  }

  /** The code's NORECORD decision is the path predicate. */
  lemma RecordIffAccepted(cfg: Config, path: seq<Func>)
    requires path != []
    ensures !NoRecord(cfg, VerdictAt(cfg, path)) <==> PathAccepted(cfg, path)
  {
    var front, f := path[..|path| - 1], path[|path| - 1];
    OutIsOne(cfg, path);
    OutIsOne(cfg, front);
    HasStep(cfg, path, Out);
    HasStep(cfg, path, In);
    if !Has(cfg, path, Out) {
      CtlClosedForm(cfg, front);
      CtlClosedForm(cfg, path);
      CountIsHas(cfg, path, In);
      CountIsHas(cfg, front, In);
      MatchedIn(cfg, f);
    }
  }

  /** The verdict itself, which also decides whether the clock is read: nothing above is
      notrace-matched, the call or one above it is matched when positive filters exist, and the
      distance from the last match is below the depth limit. */
  lemma AcceptedIff(cfg: Config, path: seq<Func>)
    requires path != []
    ensures var front, f := path[..|path| - 1], path[|path| - 1];
            VerdictAt(cfg, path).accepted <==>
            && !Has(cfg, front, Out)
            && (ModeIn(cfg) ==> Has(cfg, front, In) || f in cfg.filters)
            && |path| - 1 - LastMatch(cfg, path) < cfg.limit
  {
    var front := path[..|path| - 1];
    OutIsOne(cfg, front);
    if !Has(cfg, front, Out) {
      CtlClosedForm(cfg, front);
      CountIsHas(cfg, front, In);
    }
  }
}
