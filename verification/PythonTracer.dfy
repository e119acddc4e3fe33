/** The profile hook as an object that updates filter_state and libcall_count, proved against
    PythonHooks. */
module PythonTracer {
  import opened PythonHooks
  import opened Wrappers

  class PythonTracer {
    const cfg: Config
    const mode: Mode
    var countIn: int
    var countOut: int
    var libCount: int
    var hooks: seq<Event>

    ghost predicate Valid() {
      mode == ModeOf(cfg)
    }

    ghost function Abs(): State
      reads this
    {
      State(countIn, countOut, libCount, hooks)
    }

    constructor (cfg: Config)
      ensures Valid() && this.cfg == cfg && Abs() == State(0, 0, 0, [])
    {
      this.cfg, mode := cfg, ModeOf(cfg);
      countIn, countOut, libCount, hooks := 0, 0, 0, [];
    }

    /** The walk over the filter list to the first match. */
    method FindFilter(n: Name) returns (m: Option<Sign>)
      ensures m == Match(cfg.filters, n)
    {
      var i := 0;
      while i < |cfg.filters|
        invariant 0 <= i <= |cfg.filters|
        invariant Match(cfg.filters[i..], n) == Match(cfg.filters, n)
      {
        if n in cfg.filters[i].names {
          return Some(cfg.filters[i].sign);
        }
        assert cfg.filters[i..][1..] == cfg.filters[i + 1..];
        i := i + 1;
      }
      m := None;
    }

    /** apply_filters. */
    method ApplyFilters(e: Event) returns (skip: bool)
      requires Valid()
      modifies this`countIn, this`countOut
      ensures (Abs(), skip) == PythonHooks.ApplyFilters(cfg, old(Abs()), e)
    {
      var delta := if e.Enter? then 1 else -1;
      var m := FindFilter(e.sym.name);
      if m == Some(In) {
        countIn := countIn + delta;
      } else if m == Some(Out) {
        countOut := countOut + delta;
      }
      if countOut > 0 {
        return true;
      }
      if mode == ModeIn {
        if countIn > 0 {
          return false;
        }
        if m == Some(In) && !e.Enter? {
          return false;
        }
        return true;
      }
      if mode == ModeOut {
        if m == Some(Out) && !e.Enter? {
          return true;
        }
      }
      skip := false;
    }

    /** can_trace. */
    method CanTrace(e: Event) returns (ok: bool)
      modifies this`libCount
      ensures (Abs(), ok) == PythonHooks.CanTrace(cfg, old(Abs()), e)
    {
      if !e.sym.lib {
        return true;
      }
      if cfg.lib == NoLib {
        return false;
      }
      if cfg.lib == Nested {
        return true;
      }
      if e.Enter? {
        libCount := libCount + 1;
        if libCount - 1 > 0 {
          return false;
        }
      } else {
        libCount := libCount - 1;
        if libCount > 0 {
          return false;
        }
        if libCount < 0 {
          libCount := 0;
        }
      }
      ok := true;
    }

    /** The dispatch of uftrace_trace_python. */
    method Trace(e: Event)
      requires Valid()
      modifies this
      ensures Abs() == PythonHooks.Trace(cfg, old(Abs()), e)
    {
      if mode != NoFilter {
        var skip := ApplyFilters(e);
        if skip {
          return;
        }
      }
      var ok := CanTrace(e);
      if ok {
        hooks := hooks + [e];
      }
    }
  }
}
