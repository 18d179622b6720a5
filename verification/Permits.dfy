/** thread_sem_detached.c for any number of threads and permits. */
module Permits {
  import opened Options
  import opened Runs
  import opened Sequences

  datatype Config = Config(threads: nat, permits: nat)

  /** Before sem_wait; after it; after printing "Entered"; after printing "Just Exiting"; after sem_post. */
  datatype Pc = Waiting | Admitted | Entered | Leaving | Gone

  datatype Line = EnteredLine | ExitingLine

  datatype State = State(threads: seq<Pc>, permits: nat, log: seq<Line>)

  function Init(cfg: Config): State {
    State(seq(cfg.threads, _ => Waiting), cfg.permits, [])
  }

  /** The next step of thread t; sem_wait only returns when there is a permit. */
  function Next(s: State, t: nat): Option<State> {
    if t >= |s.threads| then None
    else match s.threads[t]
      case Waiting =>
        if s.permits == 0 then None else Some(s.(threads := s.threads[t := Admitted], permits := s.permits - 1))
      case Admitted => Some(s.(threads := s.threads[t := Entered], log := s.log + [EnteredLine]))
      case Entered => Some(s.(threads := s.threads[t := Leaving], log := s.log + [ExitingLine]))
      case Leaving => Some(s.(threads := s.threads[t := Gone], permits := s.permits + 1))
      case Gone => None
  }

  ghost function Behaviour(): Steps<State, nat> {
    (s: State, t: nat) => Next(s, t)
  }

  ghost predicate Arises(cfg: Config, s: State) {
    Reachable(Behaviour(), Init(cfg), s)
  }

  ghost function Inside(s: State): nat {
    Count(s.threads, pc => pc != Waiting && pc != Gone)
  }

  ghost function Lines(log: seq<Line>, line: Line): nat {
    Count(log, l => l == line)
  }

  /** In every prefix of the log between 0 and `permits` more threads have entered than are leaving. */
  ghost predicate Nested(log: seq<Line>, permits: nat) {
    forall n :: 0 <= n <= |log| ==> 0 <= Depth(log[..n]) <= permits
  }

  ghost function Depth(log: seq<Line>): int {
    Lines(log, EnteredLine) - Lines(log, ExitingLine)
  }

  lemma DepthAppend(log: seq<Line>, line: Line)
    ensures Lines(log + [line], EnteredLine) == Lines(log, EnteredLine) + if line == EnteredLine then 1 else 0
    ensures Lines(log + [line], ExitingLine) == Lines(log, ExitingLine) + if line == ExitingLine then 1 else 0
  {
    CountAppend(log, line, l => l == EnteredLine);
    CountAppend(log, line, l => l == ExitingLine);
  }

  /** Threads between their two lines are inside; what is not inside is a permit. */
  ghost predicate Inv(cfg: Config, s: State) {
    && |s.threads| == cfg.threads && s.permits + Inside(s) == cfg.permits
    && Lines(s.log, EnteredLine) == Count(s.threads, pc => pc == Entered || pc == Leaving || pc == Gone)
    && Lines(s.log, ExitingLine) == Count(s.threads, pc => pc == Leaving || pc == Gone)
    && Nested(s.log, cfg.permits)
  }

  lemma DepthIsInside(s: State)
    requires Lines(s.log, EnteredLine) == Count(s.threads, pc => pc == Entered || pc == Leaving || pc == Gone)
    requires Lines(s.log, ExitingLine) == Count(s.threads, pc => pc == Leaving || pc == Gone)
    ensures 0 <= Depth(s.log) <= Inside(s)
  {
    BetweenLines(s.threads);
  }

  lemma {:induction false} BetweenLines(threads: seq<Pc>)
    ensures 0 <= Count(threads, pc => pc == Entered || pc == Leaving || pc == Gone)
                 - Count(threads, pc => pc == Leaving || pc == Gone)
              <= Count(threads, pc => pc != Waiting && pc != Gone)
  {
    if threads != [] {
      BetweenLines(threads[1..]);
    }
  }

  lemma StepKeepsCounts(cfg: Config, s: State, t: nat)
    requires Inv(cfg, s) && Next(s, t).Some?
    ensures var s' := Next(s, t).value;
      && |s'.threads| == cfg.threads && s'.permits + Inside(s') == cfg.permits
      && Lines(s'.log, EnteredLine) == Count(s'.threads, pc => pc == Entered || pc == Leaving || pc == Gone)
      && Lines(s'.log, ExitingLine) == Count(s'.threads, pc => pc == Leaving || pc == Gone)
  {
    var s' := Next(s, t).value;
    CountUpdate(s.threads, t, s'.threads[t], pc => pc != Waiting && pc != Gone);
    CountUpdate(s.threads, t, s'.threads[t], pc => pc == Entered || pc == Leaving || pc == Gone);
    CountUpdate(s.threads, t, s'.threads[t], pc => pc == Leaving || pc == Gone);
    if s'.log != s.log {
      DepthAppend(s.log, s'.log[|s.log|]);
    }
    hide Count, Nested;
  }

  lemma NestedAppend(log: seq<Line>, longer: seq<Line>, permits: nat)
    requires Nested(log, permits) && log <= longer && |longer| <= |log| + 1 && 0 <= Depth(longer) <= permits
    ensures Nested(longer, permits)
  {
    forall n | 0 <= n <= |longer| ensures 0 <= Depth(longer[..n]) <= permits {
      assert n <= |log| ==> longer[..n] == log[..n];
      assert n == |longer| ==> longer[..n] == longer;
    }
  }

  lemma StepKeepsInv(cfg: Config, s: State, t: nat)
    requires Inv(cfg, s) && Next(s, t).Some?
    ensures Inv(cfg, Next(s, t).value)
  {
    var s' := Next(s, t).value;
    StepKeepsCounts(cfg, s, t);
    DepthIsInside(s');
    NestedAppend(s.log, s'.log, cfg.permits);
    hide Count, Nested, Depth;
  }

  lemma InitInv(cfg: Config)
    ensures Inv(cfg, Init(cfg))
  {
    CountZero(Init(cfg).threads, pc => pc != Waiting && pc != Gone);
    CountZero(Init(cfg).threads, pc => pc == Entered || pc == Leaving || pc == Gone);
    CountZero(Init(cfg).threads, pc => pc == Leaving || pc == Gone);
    assert forall n :: 0 <= n <= 0 ==> Init(cfg).log[..n] == [];
  }

  /** Always: permits + threads inside = K, and every prefix of the log is nested no deeper than K. */
  lemma PermitsConserved(cfg: Config, s: State)
    requires Arises(cfg, s)
    ensures s.permits + Inside(s) == cfg.permits && Nested(s.log, cfg.permits)
    ensures Inv(cfg, s)
  {
    InitInv(cfg);
    forall s, t | Inv(cfg, s) && Next(s, t).Some? ensures Inv(cfg, Next(s, t).value) {
      StepKeepsInv(cfg, s, t);
    }
    ReachableInv(Behaviour(), Init(cfg), s => Inv(cfg, s), s);
  }

  /** With one permit the lines strictly alternate, as the first output in the header. */
  lemma BinaryAlternates(cfg: Config, s: State, n: nat)
    requires Arises(cfg, s) && cfg.permits == 1 && n < |s.log|
    ensures s.log[n] == if n % 2 == 0 then EnteredLine else ExitingLine
  {
    PermitsConserved(cfg, s);
    NestedOnce(s.log, n);
  }

  lemma {:induction false} NestedOnce(log: seq<Line>, n: nat)
    requires Nested(log, 1) && n <= |log|
    ensures Depth(log[..n]) == n % 2
    ensures n < |log| ==> log[n] == if n % 2 == 0 then EnteredLine else ExitingLine
  {
    if n > 0 {
      NestedOnce(log, n - 1);
      assert log[..n] == log[..n - 1] + [log[n - 1]];
      DepthAppend(log[..n - 1], log[n - 1]);
    }
    if n < |log| {
      assert log[..n + 1] == log[..n] + [log[n]];
      DepthAppend(log[..n], log[n]);
    }
  }

  /** A run that cannot go on is complete, unless there never was a permit to take; then it logged N
      lines of each kind and all permits are back. */
  lemma StopsOnlyWhenComplete(cfg: Config, s: State)
    requires Arises(cfg, s) && Stuck(Behaviour(), s)
    ensures (forall pc :: pc in s.threads ==> pc == Gone) <==> cfg.permits > 0 || cfg.threads == 0
    ensures cfg.permits > 0 ==>
      Lines(s.log, EnteredLine) == Lines(s.log, ExitingLine) == cfg.threads && s.permits == cfg.permits
  {
    PermitsConserved(cfg, s);
    forall t: nat ensures Next(s, t).None? {
      assert Behaviour()(s, t).None?;
    }
    forall pc | pc in s.threads ensures pc == Gone || (pc == Waiting && s.permits == 0) {
      var t: nat :| t < |s.threads| && s.threads[t] == pc;
      assert Next(s, t).None?;
    }
    CountZero(s.threads, pc => pc != Waiting && pc != Gone);
    CountAll(s.threads, pc => pc == Entered || pc == Leaving || pc == Gone);
    CountAll(s.threads, pc => pc == Leaving || pc == Gone);
    if cfg.permits == 0 && cfg.threads > 0 {
      CountZero(s.threads, pc => pc == Leaving || pc == Gone);
      NeverAdmitted(cfg, s);
    }
  }

  lemma NeverAdmitted(cfg: Config, s: State)
    requires Arises(cfg, s) && cfg.permits == 0
    ensures forall pc :: pc in s.threads ==> pc == Waiting
  {
    var inv := (s: State) => s.permits == 0 && forall pc :: pc in s.threads ==> pc == Waiting;
    forall s, t: nat | inv(s) ensures Next(s, t).None? {
      assert t < |s.threads| ==> s.threads[t] in s.threads;
    }
    ReachableInv(Behaviour(), Init(cfg), inv, s);
  }

  lemma Go(cfg: Config, s: State, t: nat) returns (s': State)
    requires Arises(cfg, s) && Next(s, t).Some?
    ensures Arises(cfg, s') && s' == Next(s, t).value
  {
    s' := Next(s, t).value;
    assert Behaviour()(s, t) == Some(s');
    ReachableStep(Behaviour(), Init(cfg), s, t);
  }

  /** As many threads as there are permits can be inside at once, as in the second output of the header:
      a run in which the first n threads have entered before any of them leaves. */
  lemma {:induction false} ManyEnter(cfg: Config, n: nat) returns (s: State)
    requires n <= cfg.threads && n <= cfg.permits
    ensures Arises(cfg, s) && Inside(s) == n && s.log == seq(n, _ => EnteredLine)
    ensures s.threads == seq(cfg.threads, t => if t < n then Entered else Waiting)
  {
    if n == 0 {
      s := Init(cfg);
      ReachableInit(Behaviour(), s);
    } else {
      s := ManyEnter(cfg, n - 1);
      PermitsConserved(cfg, s);
      s := Go(cfg, s, n - 1);
      s := Go(cfg, s, n - 1);
    }
    EnteredInside(s.threads, n);
  }

  lemma {:induction false} EnteredInside(threads: seq<Pc>, n: nat)
    requires n <= |threads| && forall t :: 0 <= t < |threads| ==> threads[t] == if t < n then Entered else Waiting
    ensures Count(threads, pc => pc != Waiting && pc != Gone) == n
  {
    if threads != [] {
      EnteredInside(threads[1..], if n > 0 then n - 1 else 0);
    }
  }

  function Rank(pc: Pc): nat {
    match pc
    case Waiting => 4
    case Admitted => 3
    case Entered => 2
    case Leaving => 1
    case Gone => 0
  }

  /** No run takes more than four steps a thread, so with a permit every run can be completed. */
  lemma RunsAreFinite(cfg: Config, moves: seq<nat>)
    requires Exec(Behaviour(), Init(cfg), moves).Some?
    ensures |moves| <= 4 * cfg.threads
  {
    forall s, t: nat | Next(s, t).Some? ensures Sum(Next(s, t).value.threads, Rank) < Sum(s.threads, Rank) {
      SumUpdate(s.threads, t, Next(s, t).value.threads[t], Rank);
    }
    RunsAreBounded(Behaviour(), Init(cfg), s => true, (s: State) => Sum(s.threads, Rank), moves);
    SumBound(Init(cfg).threads, Rank, 4);
  }
}
