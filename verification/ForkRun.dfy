/** Runs of fork-pipe-exec.c after fork: every interleaving of the parent's code, the child's code and
    program, and the parent's SIGCHLD handler. */
module ForkRun {
  import opened Options
  import opened PipeWiring
  import opened Runs
  import opened Sequences

  /** What the executed program does: write a byte to stdout, close stdout, or read stdin to its end. */
  datatype Action = Emit(byte: char) | CloseOut | AwaitEof

  /** One setting: the descriptors open at the start, the size of a pipe, the child's program, whether
      the parent closes CHILD_WRITE (line 203) and whether the SIGCHLD handler is installed. The source
      has both. */
  datatype Config = Config(inherited: Table, capacity: nat, program: seq<Action>,
                           closesChildWrite: bool, handler: bool) {
    ghost predicate Valid() {
      NoPipes(inherited) && 0 in inherited && capacity > 0
    }
  }

  const READING := 2  // the parent is in its read loop
  const EXITED := 6   // the parent is gone
  const RUNNING := SETUP  // the child runs its program
  const GONE := SETUP + 1

  /** The parent's and the child's program counter and table, what the program has still to do, the bytes
      in the pipe to the parent, in the parent's stream buffer, printed, and written so far, and whether
      the parent saw end of file. */
  datatype State = State(parent: nat, parentTab: Table, child: nat, childTab: Table, todo: seq<Action>,
                         inPipe: string, inStream: string, printed: string, written: string, eof: bool)

  function Init(cfg: Config): State {
    var (f, _) := Forked(cfg.inherited);
    State(0, f, 0, f, cfg.program, "", "", "", "", false)
  }

  /** A parent step moves up to n bytes when it refills its stream; a signal runs the handler. */
  datatype Move = Parent(n: nat) | Child | Signal

  ghost function Next(cfg: Config, s: State, m: Move): Option<State> {
    match m
    case Parent(n) => ParentNext(cfg, s, n)
    case Child => ChildNext(cfg, s)
    case Signal =>
      if cfg.handler && s.child == GONE && s.parent < EXITED then Some(s.(parent := EXITED, parentTab := map[]))
      else None
  }

  ghost function ParentNext(cfg: Config, s: State, n: nat): Option<State> {
    if s.parent == READING then
      if s.inStream != "" then
        Some(s.(inStream := s.inStream[1..], printed := s.printed + [s.inStream[0]]))
      else if s.inPipe != "" then
        if 0 < n <= |s.inPipe| then Some(s.(inStream := s.inPipe[..n], inPipe := s.inPipe[n..])) else None
      else if Holds(s.parentTab, Writing(ToParent)) || Holds(s.childTab, Writing(ToParent)) then None
      else Some(s.(eof := true, parent := READING + 1))
    else if s.parent < EXITED then
      var (f, e) := Forked(cfg.inherited);
      Some(s.(parent := s.parent + 1, parentTab := ParentTable(f, e, cfg.closesChildWrite, s.parent + 1)))
    else None
  }

  ghost function ChildNext(cfg: Config, s: State): Option<State> {
    if s.child < SETUP then
      var (f, e) := Forked(cfg.inherited);
      Some(s.(child := s.child + 1, childTab := ChildTable(f, e, s.child + 1)))
    else if s.child == GONE then None
    else if s.todo == [] then Some(s.(child := GONE, childTab := map[]))
    else
      var rest := s.(todo := s.todo[1..]);
      match s.todo[0]
      case Emit(b) =>
        if 1 !in s.childTab then Some(rest)
        else if !Holds(s.parentTab, Reading(ToParent)) then  // SIGPIPE
          Some(s.(child := GONE, childTab := map[], todo := []))
        else if |s.inPipe| < cfg.capacity then Some(rest.(inPipe := s.inPipe + [b], written := s.written + [b]))
        else None
      case CloseOut => Some(rest.(childTab := Close(s.childTab, 1)))
      case AwaitEof =>
        if Holds(s.parentTab, Writing(ToChild)) || Holds(s.childTab, Writing(ToChild)) then None else Some(rest)
  }

  ghost function Behaviour(cfg: Config): Steps<State, Move> {
    (s, m) => Next(cfg, s, m)
  }

  ghost predicate Arises(cfg: Config, s: State) {
    Reachable(Behaviour(cfg), Init(cfg), s)
  }

  /** Nobody can move. */
  ghost predicate AtEnd(cfg: Config, s: State) {
    Arises(cfg, s) && Stuck(Behaviour(cfg), s)
  }

  // ---------- what decides the outcome, read off the setting ----------

  /** The bytes the program writes while its stdout is open. */
  function Output(program: seq<Action>): string {
    if program == [] || program[0].CloseOut? then ""
    else (if program[0].Emit? then [program[0].byte] else "") + Output(program[1..])
  }

  ghost function Emits(program: seq<Action>): nat {
    Count(program, (a: Action) => a.Emit?)
  }

  /** The output is the bytes of the first n actions in their order, where the program closes stdout after
      these or ends. */
  lemma {:induction false} OutputBytes(program: seq<Action>, n: nat)
    requires n <= |program| && (n == |program| || program[n].CloseOut?)
    requires forall i :: 0 <= i < n ==> !program[i].CloseOut?
    ensures |Output(program)| == Emits(program[..n])
    ensures forall i :: 0 <= i < n && program[i].Emit? ==>
      Emits(program[..i]) < |Output(program)| && Output(program)[Emits(program[..i])] == program[i].byte
  {
    if n > 0 {
      OutputBytes(program[1..], n - 1);
      forall i | 0 < i <= n ensures Emits(program[..i]) == Emits(program[1..][..i - 1]) + Emits(program[..1]) {
        assert program[..i][1..] == program[1..][..i - 1];
      }
    }
  }

  /** The program waits for the end of stdin before it closes stdout or exits. */
  predicate WaitsWhileWriting(program: seq<Action>) {
    program != [] && (program[0].AwaitEof? || (program[0].Emit? && WaitsWhileWriting(program[1..])))
  }

  /** The parent never leaves its read loop: the child waits for the parent to close PARENT_WRITE while
      the parent waits for the child, or the parent waits for itself and no signal gets it out. */
  predicate Deadlocks(cfg: Config) {
    || WaitsWhileWriting(cfg.program)
    || (!cfg.closesChildWrite && (!cfg.handler || AwaitEof in cfg.program))
  }

  // ---------- the invariant ----------

  ghost predicate OutOpen(s: State) {
    s.child < SETUP || (s.child == RUNNING && 1 in s.childTab)
  }

  ghost predicate TablesOk(cfg: Config, s: State) {
    var (f, e) := Forked(cfg.inherited);
    && s.parent <= EXITED && s.child <= GONE
    && s.parentTab == ParentTable(f, e, cfg.closesChildWrite, s.parent)
    && (s.child < SETUP ==> s.childTab == ChildTable(f, e, s.child))
    && (s.child == RUNNING ==> s.childTab == ChildTable(f, e, SETUP) || s.childTab == Close(ChildTable(f, e, SETUP), 1))
    && (s.child == GONE ==> s.childTab == map[])
  }

  /** Who can still write to the parent, and who keeps the child's stdin from ending. */
  lemma Holders(cfg: Config, s: State)
    requires cfg.Valid() && TablesOk(cfg, s)
    ensures Holds(s.childTab, Writing(ToParent)) <==> OutOpen(s)
    ensures s.child > 0 ==> !Holds(s.childTab, Writing(ToChild))
    ensures Holds(s.parentTab, Writing(ToParent)) <==> s.parent < 2 || (s.parent < EXITED && !cfg.closesChildWrite)
    ensures Holds(s.parentTab, Writing(ToChild)) <==> s.parent < 5
    ensures Holds(s.parentTab, Reading(ToParent)) <==> s.parent < 4
  {
    var t := cfg.inherited;
    ParentHolds(t, cfg.closesChildWrite, s.parent);
    if s.child <= SETUP {
      ChildHolds(t, s.child);
      ChildWired(t);
    }
  }

  /** No byte is lost, doubled or reordered, and what the program will still write completes its output. */
  ghost predicate Conserves(cfg: Config, s: State) {
    && s.printed + s.inStream + s.inPipe == s.written
    && s.written + (if OutOpen(s) then Output(s.todo) else "") == Output(cfg.program)
    && (s.child < SETUP ==> s.todo == cfg.program) && (s.child == GONE ==> s.todo == [])
    && (s.eof ==> !OutOpen(s) && s.inStream == s.inPipe == "")
  }

  /** A program that waits while writing gets no further than that wait; until the parent has seen end of
      file it gets past no wait at all. */
  ghost predicate WaitsKept(cfg: Config, s: State) {
    && (OutOpen(s) ==> (WaitsWhileWriting(cfg.program) <==> WaitsWhileWriting(s.todo)))
    && (!OutOpen(s) ==> !WaitsWhileWriting(cfg.program))
    && (!s.eof ==> (AwaitEof in cfg.program <==> AwaitEof in s.todo))
    && (READING < s.parent < EXITED ==> s.eof) && (s.eof ==> cfg.closesChildWrite)
    && (s.parent == EXITED && !s.eof ==> s.child == GONE && cfg.handler)
  }

  ghost predicate Inv(cfg: Config, s: State) {
    TablesOk(cfg, s) && Conserves(cfg, s) && WaitsKept(cfg, s)
  }

  lemma InitInv(cfg: Config)
    requires cfg.Valid()
    ensures Inv(cfg, Init(cfg))
  {
  }

  /** The read loop changes no descriptor, and exit closes all of them. */
  lemma ParentTableMoves(cfg: Config)
    ensures var (f, e) := Forked(cfg.inherited);
      && ParentTable(f, e, cfg.closesChildWrite, 3) == ParentTable(f, e, cfg.closesChildWrite, 2)
      && ParentTable(f, e, cfg.closesChildWrite, EXITED) == map[]
  {
  }

  lemma ParentKeepsTables(cfg: Config, s: State, n: nat)
    requires cfg.Valid() && TablesOk(cfg, s) && ParentNext(cfg, s, n).Some?
    ensures var s' := ParentNext(cfg, s, n).value; TablesOk(cfg, s') && (OutOpen(s') <==> OutOpen(s))
  {
    ParentTableMoves(cfg);
    hide ParentTable, ChildTable, Forked, Holds;
  }

  lemma ParentKeepsBytes(cfg: Config, s: State, n: nat)
    requires s.parent <= EXITED && ParentNext(cfg, s, n).Some?
    ensures var s' := ParentNext(cfg, s, n).value;
      s'.printed + s'.inStream + s'.inPipe == s.printed + s.inStream + s.inPipe && s'.written == s.written
  {
    hide ParentTable, ChildTable, Forked, Holds;
    if s.inStream != "" {
      assert s.inStream == [s.inStream[0]] + s.inStream[1..];
    } else if 0 < n <= |s.inPipe| {
      assert s.inPipe == s.inPipe[..n] + s.inPipe[n..];
    }
  }

  lemma ParentKeepsConserves(cfg: Config, s: State, n: nat)
    requires cfg.Valid() && Inv(cfg, s) && ParentNext(cfg, s, n).Some?
    ensures Conserves(cfg, ParentNext(cfg, s, n).value)
  {
    Holders(cfg, s);
    ParentKeepsTables(cfg, s, n);
    ParentKeepsBytes(cfg, s, n);
    assert s.parent <= EXITED;
    hide ParentTable, ChildTable, Forked, Holds, OutOpen, TablesOk, Output, WaitsKept;
  }

  /** The parent leaves its loop only when nobody can write to it, and touches nothing of the child. */
  lemma ParentAdvances(cfg: Config, s: State, n: nat)
    requires cfg.Valid() && TablesOk(cfg, s) && ParentNext(cfg, s, n).Some?
    ensures var s' := ParentNext(cfg, s, n).value;
      && s'.todo == s.todo && s'.child == s.child
      && (s'.parent == s.parent || s'.parent == s.parent + 1)
      && (if s.parent == READING && s'.parent != READING then s'.eof && !OutOpen(s) && cfg.closesChildWrite
          else s'.eof == s.eof)
  {
    Holders(cfg, s);
    hide ParentTable, ChildTable, Forked, Holds, OutOpen;
  }

  lemma ParentKeepsInv(cfg: Config, s: State, n: nat)
    requires cfg.Valid() && Inv(cfg, s) && ParentNext(cfg, s, n).Some?
    ensures Inv(cfg, ParentNext(cfg, s, n).value)
  {
    ParentAdvances(cfg, s, n);
    ParentKeepsTables(cfg, s, n);
    ParentKeepsConserves(cfg, s, n);
    hide ParentNext, OutOpen, TablesOk, Conserves, WaitsWhileWriting;
  }

  /** When the program starts its stdout is open; the program can only close it. */
  lemma RunningTable(cfg: Config, s: State)
    requires cfg.Valid() && TablesOk(cfg, s)
    ensures s.parent <= EXITED && s.child <= GONE
    ensures s.child == SETUP - 1 && ChildNext(cfg, s).Some? ==> 1 in ChildNext(cfg, s).value.childTab
    ensures s.child == RUNNING ==> 1 !in Close(s.childTab, 1)
  {
    ChildWired(cfg.inherited);
    hide ParentTable, Holds;
  }

  lemma ChildKeepsTables(cfg: Config, s: State)
    requires cfg.Valid() && Inv(cfg, s) && ChildNext(cfg, s).Some?
    ensures TablesOk(cfg, ChildNext(cfg, s).value)
  {
    hide ParentTable, ChildTable, Forked, Holds;
    assert Close(Close(s.childTab, 1), 1) == Close(s.childTab, 1);
  }

  lemma OutputStep(todo: seq<Action>)
    requires todo != []
    ensures Output(todo) == match todo[0]
      case Emit(b) => [b] + Output(todo[1..])
      case CloseOut => ""
      case AwaitEof => Output(todo[1..])
  {
  }

  lemma ChildKeepsBytes(cfg: Config, s: State)
    requires cfg.Valid() && Inv(cfg, s) && ChildNext(cfg, s).Some?
    ensures Conserves(cfg, ChildNext(cfg, s).value)
  {
    Holders(cfg, s);
    ChildOutOpen(cfg, s);
    if s.child == RUNNING && s.todo != [] {
      OutputStep(s.todo);
      if s.todo[0].Emit? {
        AppendAssoc(s.printed + s.inStream, s.inPipe, [s.todo[0].byte]);
        AppendAssoc(s.written, [s.todo[0].byte], Output(s.todo[1..]));
      }
    }
    hide ParentTable, ChildTable, Forked, Holds, TablesOk, WaitsKept, OutOpen, Output;
  }

  /** Only exiting or closing stdout ends the child's hold on the pipe. */
  lemma ChildOutOpen(cfg: Config, s: State)
    requires cfg.Valid() && TablesOk(cfg, s) && ChildNext(cfg, s).Some?
    ensures s.child < SETUP ==> OutOpen(s) && OutOpen(ChildNext(cfg, s).value)
    ensures s.child == GONE ==> !OutOpen(s)
    ensures s.child == RUNNING ==> (1 in s.childTab <==> OutOpen(s))
    ensures s.child == RUNNING && s.todo == [] ==> !OutOpen(ChildNext(cfg, s).value)
    ensures s.child == RUNNING && s.todo != [] && s.todo[0].CloseOut? ==> !OutOpen(ChildNext(cfg, s).value)
    ensures s.child == RUNNING && s.todo != [] && s.todo[0].AwaitEof? ==> OutOpen(ChildNext(cfg, s).value) == OutOpen(s)
    ensures s.child == RUNNING && s.todo != [] && s.todo[0].Emit? && (!OutOpen(s) || s.parent < 4) ==>
      OutOpen(ChildNext(cfg, s).value) == OutOpen(s)
  {
    RunningTable(cfg, s);
    Holders(cfg, s);
    hide ParentTable, ChildTable, Forked, Holds, TablesOk, Output;
  }

  lemma TodoStep(todo: seq<Action>)
    ensures todo != [] ==> (AwaitEof in todo <==> todo[0].AwaitEof? || AwaitEof in todo[1..])
  {
    if todo != [] {
      assert todo == [todo[0]] + todo[1..];
    }
  }

  lemma ChildKeepsWaits(cfg: Config, s: State)
    requires cfg.Valid() && Inv(cfg, s) && ChildNext(cfg, s).Some?
    ensures WaitsKept(cfg, ChildNext(cfg, s).value)
  {
    Holders(cfg, s);
    RunningTable(cfg, s);
    ChildOutOpen(cfg, s);
    TodoStep(s.todo);
    hide ParentTable, ChildTable, Forked, Holds, TablesOk, Output, OutOpen;
  }

  lemma ChildKeepsInv(cfg: Config, s: State)
    requires cfg.Valid() && Inv(cfg, s) && ChildNext(cfg, s).Some?
    ensures Inv(cfg, ChildNext(cfg, s).value)
  {
    ChildKeepsTables(cfg, s);
    ChildKeepsBytes(cfg, s);
    ChildKeepsWaits(cfg, s);
    hide ChildNext, TablesOk, Conserves, WaitsKept;
  }

  lemma SignalKeepsInv(cfg: Config, s: State)
    requires cfg.Valid() && Inv(cfg, s) && Next(cfg, s, Signal).Some?
    ensures Inv(cfg, Next(cfg, s, Signal).value)
  {
    Holders(cfg, s);
    ParentTableMoves(cfg);
    hide ParentTable, ChildTable, Forked, Holds;
  }

  lemma Invariant(cfg: Config)
    requires cfg.Valid()
    ensures Inductive(Behaviour(cfg), Init(cfg), s => Inv(cfg, s))
  {
    InitInv(cfg);
    forall s, m | Inv(cfg, s) && Next(cfg, s, m).Some? ensures Inv(cfg, Next(cfg, s, m).value) {
      match m
      case Parent(n) => ParentKeepsInv(cfg, s, n);
      case Child => ChildKeepsInv(cfg, s);
      case Signal => SignalKeepsInv(cfg, s);
    }
  }

  lemma ArisesInv(cfg: Config, s: State)
    requires cfg.Valid() && Arises(cfg, s)
    ensures Inv(cfg, s)
  {
    Invariant(cfg);
    ReachableInv(Behaviour(cfg), Init(cfg), s => Inv(cfg, s), s);
  }

  // ---------- the results ----------

  /** In every reachable state the parent has printed a prefix of what the program writes, even when the
      handler ended it early; after end of file it has printed all of it. */
  lemma OutputIsPrefix(cfg: Config, s: State)
    requires cfg.Valid() && Arises(cfg, s)
    ensures s.printed + s.inStream + s.inPipe == s.written && s.printed <= Output(cfg.program)
    ensures s.eof ==> s.printed == Output(cfg.program)
  {
    ArisesInv(cfg, s);
    assert s.printed <= s.written <= Output(cfg.program);
  }

  /** Every step uses up some of a quantity that only depends on the setting, so runs are bounded. */
  function Fuel(s: State): int {
    4 * |s.todo| + 2 * |s.inPipe| + |s.inStream| + (GONE - s.child) + (EXITED - s.parent)
  }

  lemma ParentUsesFuel(cfg: Config, s: State, n: nat)
    requires s.parent <= EXITED && s.child <= GONE && ParentNext(cfg, s, n).Some?
    ensures 0 <= Fuel(ParentNext(cfg, s, n).value) < Fuel(s)
  {
    hide ParentTable, ChildTable, Forked, Holds;
  }

  lemma ChildUsesFuel(cfg: Config, s: State)
    requires s.parent <= EXITED && s.child <= GONE && ChildNext(cfg, s).Some?
    ensures 0 <= Fuel(ChildNext(cfg, s).value) < Fuel(s)
  {
    hide ParentTable, ChildTable, Forked, Holds;
  }

  lemma StepUsesFuel(cfg: Config, s: State, m: Move)
    requires s.parent <= EXITED && s.child <= GONE && Next(cfg, s, m).Some?
    ensures 0 <= Fuel(Next(cfg, s, m).value) < Fuel(s)
  {
    match m
    case Parent(n) => ParentUsesFuel(cfg, s, n);
    case Child => ChildUsesFuel(cfg, s);
    case Signal =>
  }

  lemma RunsUseFuel(cfg: Config)
    requires cfg.Valid()
    ensures Fuelled(Behaviour(cfg), s => Inv(cfg, s), s => Fuel(s))
  {
    forall s, m | Inv(cfg, s) && Next(cfg, s, m).Some? ensures Fuel(Next(cfg, s, m).value) < Fuel(s) {
      StepUsesFuel(cfg, s, m);
    }
  }

  /** No run has more steps than this. */
  lemma RunsAreFinite(cfg: Config, moves: seq<Move>)
    requires cfg.Valid() && Exec(Behaviour(cfg), Init(cfg), moves).Some?
    ensures |moves| <= 4 * |cfg.program| + GONE + EXITED
  {
    Invariant(cfg);
    RunsUseFuel(cfg);
    RunsAreBounded(Behaviour(cfg), Init(cfg), s => Inv(cfg, s), s => Fuel(s), moves);
    ExecInv(Behaviour(cfg), Init(cfg), s => Inv(cfg, s), moves);
  }

  /** A stuck parent that has not ended is in its read loop with nothing left to read, and someone can
      still write to it. */
  lemma StuckParent(cfg: Config, s: State)
    requires cfg.Valid() && Inv(cfg, s) && Stuck(Behaviour(cfg), s) && s.parent != EXITED
    ensures s.parent == READING && s.inStream == s.inPipe == "" && (OutOpen(s) || !cfg.closesChildWrite)
  {
    Holders(cfg, s);
    assert Behaviour(cfg)(s, Parent(|s.inPipe|)).None?;
  }

  /** When all the parent can hope for is the child, a child that cannot move waits for its stdin to end,
      or is gone without a signal. */
  lemma StuckChild(cfg: Config, s: State)
    requires cfg.Valid() && Inv(cfg, s) && s.parent == READING && s.inPipe == ""
    requires ChildNext(cfg, s).None? && Next(cfg, s, Signal).None?
    ensures (s.todo != [] && s.todo[0].AwaitEof?) || (s.child == GONE && !cfg.handler)
  {
    Holders(cfg, s);
    hide ParentTable, ChildTable, Forked, Holds, TablesOk, Output;
  }

  /** The parent ends in every run, or in none: a run that cannot go on has ended the parent exactly when
      the setting does not deadlock. */
  lemma ParentEndsUnlessDeadlock(cfg: Config, s: State)
    requires cfg.Valid() && AtEnd(cfg, s)
    ensures s.parent == EXITED <==> !Deadlocks(cfg)
  {
    ArisesInv(cfg, s);
    if s.parent != EXITED {
      StuckParent(cfg, s);
      assert Behaviour(cfg)(s, Child).None? && Behaviour(cfg)(s, Signal).None?;
      StuckChild(cfg, s);
      hide TablesOk, ChildNext, ParentNext, Output;
    }
  }

  /** The deadlock is real: a setting that deadlocks has a run into a state where nobody can move and the
      parent is still in its read loop. */
  lemma DeadlockIsReached(cfg: Config) returns (s: State)
    requires cfg.Valid() && Deadlocks(cfg)
    ensures AtEnd(cfg, s) && s.parent == READING
  {
    Invariant(cfg);
    RunsUseFuel(cfg);
    ReachableInit(Behaviour(cfg), Init(cfg));
    s := RunsEnd(Behaviour(cfg), Init(cfg), s => Inv(cfg, s), s => Fuel(s), Init(cfg));
    ParentEndsUnlessDeadlock(cfg, s);
    ArisesInv(cfg, s);
    StuckParent(cfg, s);
  }

  /** With the source's own close and handler, for every program: the parent gets out of its read loop
      in every run exactly when the program does not wait for the end of stdin while it holds stdout. */
  lemma SourceTerminates(cfg: Config, s: State)
    requires cfg.Valid() && cfg.closesChildWrite && cfg.handler && AtEnd(cfg, s)
    ensures s.parent == EXITED <==> !WaitsWhileWriting(cfg.program)
  {
    ParentEndsUnlessDeadlock(cfg, s);
  }

  /** Without the handler the close on line 203 decides: with it the parent sees end of file and prints
      the whole output of any program that does not wait for stdin, without it the parent is stuck. */
  lemma Line203IsNeeded(cfg: Config, s: State)
    requires cfg.Valid() && !cfg.handler && AwaitEof !in cfg.program && AtEnd(cfg, s)
    ensures cfg.closesChildWrite <==> s.parent == EXITED
    ensures cfg.closesChildWrite ==> s.eof && s.printed == Output(cfg.program)
  {
    NoWaitAtAll(cfg.program);
    ParentEndsUnlessDeadlock(cfg, s);
    OutputIsPrefix(cfg, s);
    ArisesInv(cfg, s);
  }

  lemma {:induction false} NoWaitAtAll(program: seq<Action>)
    requires AwaitEof !in program
    ensures !WaitsWhileWriting(program)
  {
    if program != [] {
      NoWaitAtAll(program[1..]);
    }
  }
  // ---------- when output is lost ----------

  /** Only putchar in the parent's read loop prints; neither the handler nor the child does. */
  lemma OnlyPutcharPrints(cfg: Config, s: State, m: Move)
    requires Next(cfg, s, m).Some?
    ensures var printed := Next(cfg, s, m).value.printed;
      if m.Parent? && s.parent == READING && s.inStream != "" then printed == s.printed + [s.inStream[0]]
      else printed == s.printed
  {
    hide ParentTable, ChildTable, Forked, Holds;
  }

  /** The pipe never holds more than it can: a child that writes to a full pipe waits. */
  lemma PipeFits(cfg: Config, s: State)
    requires Arises(cfg, s)
    ensures |s.inPipe| <= cfg.capacity
    ensures s.child == RUNNING && s.todo != [] && s.todo[0].Emit? && 1 in s.childTab ==>
      (|s.inPipe| == cfg.capacity && Holds(s.parentTab, Reading(ToParent)) ==> Next(cfg, s, Child).None?)
  {
    var inv := (s: State) => |s.inPipe| <= cfg.capacity;
    forall s, m | inv(s) && Next(cfg, s, m).Some? ensures inv(Next(cfg, s, m).value) {
      hide Holds, ParentTable, ChildTable, Forked;
    }
    ReachableInv(Behaviour(cfg), Init(cfg), inv, s);
  }

  lemma Go(cfg: Config, s: State, m: Move) returns (s': State)
    requires Arises(cfg, s) && Next(cfg, s, m).Some?
    ensures Arises(cfg, s') && s' == Next(cfg, s, m).value
  {
    s' := Next(cfg, s, m).value;
    assert Behaviour(cfg)(s, m) == Some(s');
    ReachableStep(Behaviour(cfg), Init(cfg), s, m);
  }

  /** The child runs its program and will not wait; all it wrote but at most one byte has been printed,
      and not everything it will have written. */
  ghost predicate Losing(cfg: Config, s: State) {
    && cfg.Valid() && cfg.handler && Arises(cfg, s) && AwaitEof !in s.todo
    && s.parent == READING && s.child == RUNNING && s.inStream == "" && |s.inPipe| <= 1
    && s.inPipe + (if 1 in s.childTab then Output(s.todo) else "") != ""
  }

  /** The parent and the child come to their loop and program. */
  lemma {:induction false} SetUp(cfg: Config, child: nat, parent: nat) returns (s: State)
    requires cfg.Valid() && child <= SETUP && parent <= READING
    ensures Arises(cfg, s) && s.parent == parent && s.child == child && s.todo == cfg.program
    ensures s.inPipe == s.inStream == ""
    ensures s.childTab == ChildTable(Forked(cfg.inherited).0, Forked(cfg.inherited).1, child)
  {
    if parent > 0 {
      s := SetUp(cfg, child, parent - 1);
      s := Go(cfg, s, Parent(0));
    } else if child > 0 {
      s := SetUp(cfg, child - 1, 0);
      s := Go(cfg, s, Child);
    } else {
      s := Init(cfg);
      ReachableInit(Behaviour(cfg), s);
    }
  }

  /** The parent prints the one byte in the pipe. */
  lemma PrintByte(cfg: Config, s: State) returns (s': State)
    requires Losing(cfg, s) && |s.inPipe| == 1
    ensures Arises(cfg, s') && s' == s.(inPipe := "", printed := s.printed + s.inPipe)
  {
    s' := Go(cfg, s, Parent(1));
    s' := Go(cfg, s', Parent(0));
  }

  /** The program's next action, while there is one. */
  lemma LoseNext(cfg: Config, s: State) returns (s': State)
    requires Losing(cfg, s) && s.todo != []
    ensures Losing(cfg, s') && s'.todo == s.todo[1..]
  {
    ArisesInv(cfg, s);
    Holders(cfg, s);
    OutputStep(s.todo);
    TodoStep(s.todo);
    RunningTable(cfg, s);
    s' := s;
    if s.todo[0].Emit? && 1 in s.childTab && s.inPipe != "" {
      s' := PrintByte(cfg, s);
    }
    s' := Go(cfg, s', Child);
    hide ParentTable, ChildTable, Forked, Holds, Output, TablesOk, Reachable;
  }

  /** The program ends, and the handler ends the parent before it has read the last byte. */
  lemma {:induction false} Lose(cfg: Config, s: State) returns (end: State)
    requires Losing(cfg, s)
    ensures AtEnd(cfg, end) && end.printed != Output(cfg.program)
    decreases |s.todo|
  {
    if s.todo != [] {
      end := LoseNext(cfg, s);
      end := Lose(cfg, end);
    } else {
      end := Go(cfg, s, Child);
      end := Go(cfg, end, Signal);
      ArisesInv(cfg, end);
      assert end.printed + end.inStream + end.inPipe == Output(cfg.program);
      assert |end.printed| < |Output(cfg.program)|;
      forall m ensures Behaviour(cfg)(end, m).None? {
      }
    }
  }

  /** In a setting without deadlock the parent prints the whole output in every run exactly when there is
      no handler to end it early, or nothing to print, or the program waits for a stdin that the parent
      closes only after end of file. */
  lemma OutputComplete(cfg: Config)
    requires cfg.Valid() && !Deadlocks(cfg)
    ensures (forall s :: AtEnd(cfg, s) ==> s.printed == Output(cfg.program))
            <==> !cfg.handler || Output(cfg.program) == "" || AwaitEof in cfg.program
  {
    if !cfg.handler || Output(cfg.program) == "" || AwaitEof in cfg.program {
      forall s | AtEnd(cfg, s) ensures s.printed == Output(cfg.program) {
        ParentEndsUnlessDeadlock(cfg, s);
        OutputIsPrefix(cfg, s);
        ArisesInv(cfg, s);
      }
    } else {
      var s := SetUp(cfg, SETUP, READING);
      ArisesInv(cfg, s);
      ChildWired(cfg.inherited);
      var end := Lose(cfg, s);
    }
  }
}
