/** thread_mutex.c for any number of threads: workers that print and count under a lock, and a main
    thread that joins them in order and frees what they return. */
module MutexCounter {
  import opened Options
  import opened Runs
  import opened Sequences

  /** The argument of each thread (its pointer may be null) and whether the lock is there; the header of
      the source shows the output for both. */
  datatype Config = Config(passed: seq<Option<int>>, locked: bool)

  datatype Line = Passed(data: int) | Counter(value: int)

  /** Where a worker is: about to take the lock, to print its data, to load the counter, to store it, to
      print it, to allocate its buffer, to unlock; or it has returned. */
  datatype Pc = AtLock | AtData | AtLoad | AtStore | AtPrint | AtMalloc | AtUnlock | Returned

  datatype Thread = Thread(pc: Pc, reg: int)

  /** The threads, the counter, the lock's holder, the lines printed by workers, the threads in the order
      in which they passed the lock, the buffers in use (named by their thread), the threads joined and
      their buffers freed so far, and whether a failed malloc ended the process. */
  datatype State = State(threads: seq<Thread>, counter: int, holder: Option<nat>, log: seq<Line>, order: seq<nat>,
                         buffers: set<nat>, freed: seq<nat>, exited: bool)

  function Init(cfg: Config): State {
    State(seq(|cfg.passed|, _ => Thread(AtLock, 0)), 0, None, [], [], {}, [], false)
  }

  /** A step of worker t, whose malloc succeeds or not; or main joins the next worker, prints its string
      and frees it. */
  datatype Move = Worker(t: nat, mallocOk: bool) | Join

  function At(s: State, t: nat, pc: Pc): State
    requires t < |s.threads|
  {
    s.(threads := s.threads[t := s.threads[t].(pc := pc)])
  }

  function DataLines(cfg: Config, t: nat): seq<Line> {
    if t < |cfg.passed| && cfg.passed[t].Some? then [Passed(cfg.passed[t].value)] else []
  }

  function WorkerNext(cfg: Config, s: State, t: nat, mallocOk: bool): Option<State>
    requires t < |s.threads|
  {
    match s.threads[t].pc
    case AtLock =>
      if cfg.locked && s.holder.Some? then None
      else Some(At(s, t, AtData).(holder := if cfg.locked then Some(t) else None, order := s.order + [t]))
    case AtData => Some(At(s, t, AtLoad).(log := s.log + DataLines(cfg, t)))
    case AtLoad => Some(s.(threads := s.threads[t := Thread(AtStore, s.counter)]))
    case AtStore => Some(At(s, t, AtPrint).(counter := s.threads[t].reg + 1))
    case AtPrint => Some(At(s, t, AtMalloc).(log := s.log + [Counter(s.counter)]))
    case AtMalloc =>
      if mallocOk then Some(At(s, t, AtUnlock).(buffers := s.buffers + {t})) else Some(s.(exited := true))
    case AtUnlock => Some(At(s, t, Returned).(holder := None))
    case Returned => None
  }

  function Next(cfg: Config, s: State, m: Move): Option<State> {
    if s.exited then None
    else match m
      case Worker(t, mallocOk) => if t < |s.threads| then WorkerNext(cfg, s, t, mallocOk) else None
      case Join =>
        var t := |s.freed|;
        if t < |s.threads| && s.threads[t].pc == Returned then
          Some(s.(buffers := s.buffers - {t}, freed := s.freed + [t]))
        else None
  }

  ghost function Behaviour(cfg: Config): Steps<State, Move> {
    (s, m) => Next(cfg, s, m)
  }

  ghost predicate Arises(cfg: Config, s: State) {
    Reachable(Behaviour(cfg), Init(cfg), s)
  }

  // ---------- the log the header promises ----------

  /** The unbroken blocks of the given threads: each prints its data and then the next number. */
  function Blocks(cfg: Config, order: seq<nat>): seq<Line> {
    if order == [] then []
    else
      var n := |order| - 1;
      Blocks(cfg, order[..n]) + DataLines(cfg, order[n]) + [Counter(n + 1)]
  }

  ghost predicate NoRepeats(order: seq<nat>) {
    forall i, j :: 0 <= i < j < |order| ==> order[i] != order[j]
  }

  /** With the lock, only its holder is between lock and unlock, and it is the last to have passed. */
  ghost predicate Exclusive(cfg: Config, s: State) {
    && |s.threads| == |cfg.passed| && NoRepeats(s.order)
    && (forall t :: t in s.order <==> 0 <= t < |s.threads| && s.threads[t].pc != AtLock)
    && (forall t :: 0 <= t < |s.threads| && s.holder != Some(t) ==>
      s.threads[t].pc == AtLock || s.threads[t].pc == Returned)
    && (s.holder.Some? ==>
      var t := s.holder.value;
      && s.order != [] && t == s.order[|s.order| - 1] && t < |s.threads|
      && s.threads[t].pc != AtLock && s.threads[t].pc != Returned)
  }

  /** The log consists of the finished blocks and what the holder has printed of its own. */
  ghost predicate Logged(cfg: Config, s: State) {
    if s.holder.None? then
      s.log == Blocks(cfg, s.order) && s.counter == |s.order|
    else
      var t, n := s.holder.value, |s.order| - 1;
      t < |s.threads| && n >= 0 &&
      var before := Blocks(cfg, s.order[..n]);
      match s.threads[t].pc
      case AtData => s.log == before && s.counter == n
      case AtLoad => s.log == before + DataLines(cfg, t) && s.counter == n
      case AtStore => s.log == before + DataLines(cfg, t) && s.counter == n == s.threads[t].reg
      case AtPrint => s.log == before + DataLines(cfg, t) && s.counter == n + 1
      case _ => s.log == Blocks(cfg, s.order) && s.counter == n + 1
  }

  /** main frees the workers' buffers in order, each after its worker has returned; the buffers in use
      are the ones allocated and not yet freed. */
  ghost predicate Owned(s: State) {
    && |s.freed| <= |s.threads| && (forall k :: 0 <= k < |s.freed| ==> s.freed[k] == k && s.threads[k].pc == Returned)
    && (forall t :: t in s.buffers <==>
      |s.freed| <= t < |s.threads| && (s.threads[t].pc == AtUnlock || s.threads[t].pc == Returned))
  }

  lemma WorkerKeepsExclusive(cfg: Config, s: State, t: nat, mallocOk: bool)
    requires cfg.locked && Exclusive(cfg, s) && t < |s.threads| && WorkerNext(cfg, s, t, mallocOk).Some?
    ensures Exclusive(cfg, WorkerNext(cfg, s, t, mallocOk).value)
  {
    var s' := WorkerNext(cfg, s, t, mallocOk).value;
    if s.threads[t].pc == AtLock {
      assert t !in s.order;
      forall u ensures u in s'.order <==> u in s.order || u == t {}
    } else {
      assert s'.order == s.order;
      assert s.holder == Some(t);
    }
  }

  lemma WorkerKeepsLogged(cfg: Config, s: State, t: nat, mallocOk: bool)
    requires cfg.locked && Exclusive(cfg, s) && Logged(cfg, s)
    requires t < |s.threads| && WorkerNext(cfg, s, t, mallocOk).Some?
    ensures Logged(cfg, WorkerNext(cfg, s, t, mallocOk).value)
  {
    var s' := WorkerNext(cfg, s, t, mallocOk).value;
    if s.threads[t].pc == AtLock {
      assert s'.order[..|s.order|] == s.order;
    } else {
      assert s.holder == Some(t) && s'.order == s.order;
    }
  }

  lemma StepKeepsOwned(cfg: Config, s: State, m: Move)
    requires Owned(s) && Next(cfg, s, m).Some?
    ensures Owned(Next(cfg, s, m).value)
  {
  }

  ghost predicate Inv(cfg: Config, s: State) {
    Exclusive(cfg, s) && Logged(cfg, s) && Owned(s)
  }

  lemma ArisesInv(cfg: Config, s: State)
    requires cfg.locked && Arises(cfg, s)
    ensures Inv(cfg, s)
  {
    forall s, m | Inv(cfg, s) && Next(cfg, s, m).Some? ensures Inv(cfg, Next(cfg, s, m).value) {
      StepKeepsOwned(cfg, s, m);
      match m
      case Worker(t, mallocOk) =>
        WorkerKeepsExclusive(cfg, s, t, mallocOk);
        WorkerKeepsLogged(cfg, s, t, mallocOk);
      case Join =>
    }
    ReachableInv(Behaviour(cfg), Init(cfg), s => Inv(cfg, s), s);
  }

  // ---------- with the lock ----------

  ghost predicate IsPermutation(order: seq<nat>, n: nat) {
    |order| == n && NoRepeats(order) && forall t: nat :: t in order <==> t < n
  }

  ghost predicate AllReturned(s: State) {
    forall t :: 0 <= t < |s.threads| ==> s.threads[t].pc == Returned
  }

  /** In every reachable state the log is a beginning of unbroken, consecutively numbered blocks of
      different threads. */
  lemma LogIsBlocks(cfg: Config, s: State)
    requires cfg.locked && Arises(cfg, s)
    ensures NoRepeats(s.order) && s.log <= Blocks(cfg, s.order) && Numbered(cfg, s.order, Blocks(cfg, s.order))
  {
    ArisesInv(cfg, s);
    BlocksNumbered(cfg, s.order);
  }

  ghost predicate HasData(cfg: Config, t: nat) {
    t < |cfg.passed| && cfg.passed[t].Some?
  }

  /** How many of these threads have data to print. */
  ghost function WithData(cfg: Config, order: seq<nat>): (n: nat)
    ensures n <= |order|
  {
    Count(order, t => HasData(cfg, t))
  }

  /** Number k + 1 is at position p of the log and directly before it, but for number k, is only the data
      of thread t, if that has any. */
  ghost predicate NumberAt(cfg: Config, log: seq<Line>, t: nat, k: nat, p: nat) {
    && p < |log| && log[p] == Counter(k + 1)
    && (HasData(cfg, t) ==> p > 0 && log[p - 1] == Passed(cfg.passed[t].value))
    && (!HasData(cfg, t) && p > 0 ==> log[p - 1] == Counter(k))
  }

  ghost function Position(cfg: Config, order: seq<nat>, k: nat): nat
    requires k < |order|
  {
    k + WithData(cfg, order[..k + 1])
  }

  /** The log has one line with each number from 1 on and, directly before it, the data of the thread it
      belongs to, if that has any; its length leaves no room for other lines. */
  ghost predicate Numbered(cfg: Config, order: seq<nat>, log: seq<Line>) {
    && |log| == |order| + WithData(cfg, order)
    && forall k :: 0 <= k < |order| ==> NumberAt(cfg, log, order[k], k, Position(cfg, order, k))
  }

  lemma WithDataAppend(cfg: Config, order: seq<nat>, t: nat)
    ensures WithData(cfg, order + [t]) == WithData(cfg, order) + if HasData(cfg, t) then 1 else 0
  {
    CountAppend(order, t, t => HasData(cfg, t));
  }

  lemma PositionKept(cfg: Config, order: seq<nat>, t: nat, k: nat)
    requires k < |order|
    ensures Position(cfg, order + [t], k) == Position(cfg, order, k)
  {
    assert (order + [t])[..k + 1] == order[..k + 1];
  }

  lemma {:induction false} BlocksNumbered(cfg: Config, order: seq<nat>)
    ensures Numbered(cfg, order, Blocks(cfg, order))
  {
    if order != [] {
      var n := |order| - 1;
      BlocksNumbered(cfg, order[..n]);
      NumberedNext(cfg, order[..n], Blocks(cfg, order[..n]), order[n]);
      assert order == order[..n] + [order[n]];
    }
  }

  /** One more block. */
  lemma NumberedNext(cfg: Config, order: seq<nat>, log: seq<Line>, t: nat)
    requires Numbered(cfg, order, log)
    ensures Numbered(cfg, order + [t], log + DataLines(cfg, t) + [Counter(|order| + 1)])
  {
    var longer, log', n := order + [t], log + DataLines(cfg, t) + [Counter(|order| + 1)], |order|;
    WithDataAppend(cfg, order, t);
    assert longer[..n + 1] == longer;
    if n > 0 {
      assert order[..n] == order;
      assert NumberAt(cfg, log, order[n - 1], n - 1, Position(cfg, order, n - 1));
    }
    forall k | 0 <= k < |longer| ensures NumberAt(cfg, log', longer[k], k, Position(cfg, longer, k)) {
      if k < n {
        PositionKept(cfg, order, t, k);
        assert NumberAt(cfg, log, order[k], k, Position(cfg, order, k));
      }
    }
    hide WithData;
  }

  lemma {:induction false} AllWithData(cfg: Config, order: seq<nat>)
    requires forall t :: t in order ==> HasData(cfg, t)
    ensures WithData(cfg, order) == |order|
  {
    CountAll(order, t => HasData(cfg, t));
  }

  /** When all workers have returned, each number from 1 to N was printed once, in order, each directly
      after the data of another thread, if that has any; nothing else was printed, and the counter is N. */
  lemma FinalLog(cfg: Config, s: State)
    requires cfg.locked && Arises(cfg, s) && AllReturned(s)
    ensures IsPermutation(s.order, |cfg.passed|) && s.counter == |cfg.passed|
    ensures s.log == Blocks(cfg, s.order) && Numbered(cfg, s.order, s.log)
  {
    ArisesInv(cfg, s);
    PermutationLength(s.order, |cfg.passed|);
    BlocksNumbered(cfg, s.order);
  }

  /** Without null arguments, as in the source, the log alternates between data and number. */
  lemma FinalLogOfData(cfg: Config, s: State)
    requires cfg.locked && Arises(cfg, s) && AllReturned(s) && None !in cfg.passed
    ensures IsPermutation(s.order, |cfg.passed|) && |s.log| == 2 * |cfg.passed|
    ensures forall k :: 0 <= k < |cfg.passed| ==>
      && s.order[k] < |cfg.passed| && cfg.passed[s.order[k]].Some?
      && s.log[2 * k] == Passed(cfg.passed[s.order[k]].value) && s.log[2 * k + 1] == Counter(k + 1)
  {
    FinalLog(cfg, s);
    forall t | t in s.order ensures HasData(cfg, t) {
      assert cfg.passed[t] in cfg.passed;
    }
    hide Reachable, Numbered;
    AllWithData(cfg, s.order);
    forall k | 0 <= k < |cfg.passed|
      ensures HasData(cfg, s.order[k]) && NumberAt(cfg, s.log, s.order[k], k, 2 * k + 1)
    {
      DataAt(cfg, s.order, s.log, k);
    }
    assert |s.log| == 2 * |cfg.passed| by {
      NumberedLength(cfg, s.order, s.log);
    }
  }

  lemma NumberedLength(cfg: Config, order: seq<nat>, log: seq<Line>)
    requires Numbered(cfg, order, log)
    ensures |log| == |order| + WithData(cfg, order)
  {
  }

  lemma DataAt(cfg: Config, order: seq<nat>, log: seq<Line>, k: nat)
    requires Numbered(cfg, order, log) && k < |order| && forall t :: t in order ==> HasData(cfg, t)
    ensures HasData(cfg, order[k]) && NumberAt(cfg, log, order[k], k, 2 * k + 1)
  {
    assert order[k] in order;
    AllWithData(cfg, order[..k + 1]);
    assert NumberAt(cfg, log, order[k], k, Position(cfg, order, k));
    hide Numbered, WithData;
  }

  lemma {:induction false} PermutationLength(order: seq<nat>, n: nat)
    requires NoRepeats(order) && forall t: nat :: t in order <==> t < n
    ensures |order| == n
  {
    if n == 0 {
      assert forall k :: 0 <= k < |order| ==> order[k] in order;
    } else {
      var last: nat := n - 1;
      assert last in order;
      var k :| 0 <= k < |order| && order[k] == last;
      var rest := order[..k] + order[k + 1..];
      forall t: nat ensures t in rest <==> t < n - 1 {
        if t in order && t != n - 1 {
          var j :| 0 <= j < |order| && order[j] == t;
          assert rest[if j < k then j else j - 1] == t;
        }
      }
      PermutationLength(rest, n - 1);
    }
  }

  /** A run can only stop when main has joined everybody, all blocks are printed and every buffer has
      been freed, once and after its thread returned; or when malloc failed and ended the process. */
  lemma StopsOnlyAtTheEnd(cfg: Config, s: State)
    requires cfg.locked && Arises(cfg, s) && Stuck(Behaviour(cfg), s) && !s.exited
    ensures AllReturned(s) && s.buffers == {} && |s.freed| == |cfg.passed|
    ensures forall k :: 0 <= k < |s.freed| ==> s.freed[k] == k
  {
    ArisesInv(cfg, s);
    forall t | 0 <= t < |s.threads|
      ensures s.threads[t].pc == Returned || (s.threads[t].pc == AtLock && s.holder.Some?)
    {
      assert Behaviour(cfg)(s, Worker(t, true)).None?;
    }
    assert s.holder.None?;
    assert Behaviour(cfg)(s, Join).None?;
  }

  function Rank(t: Thread): nat {
    match t.pc
    case AtLock => 7
    case AtData => 6
    case AtLoad => 5
    case AtStore => 4
    case AtPrint => 3
    case AtMalloc => 2
    case AtUnlock => 1
    case Returned => 0
  }

  ghost function Fuel(s: State): int {
    Sum(s.threads, Rank) + (|s.threads| - |s.freed|) + if s.exited then 0 else 1
  }

  lemma StepUsesFuel(cfg: Config, s: State, m: Move)
    requires Owned(s) && Next(cfg, s, m).Some?
    ensures Fuel(Next(cfg, s, m).value) < Fuel(s)
  {
    if m.Worker? {
      SumUpdate(s.threads, m.t, Next(cfg, s, m).value.threads[m.t], Rank);
    }
  }

  /** No run, with the lock or without, is longer than this. */
  lemma RunsAreFinite(cfg: Config, moves: seq<Move>)
    requires Exec(Behaviour(cfg), Init(cfg), moves).Some?
    ensures |moves| <= 8 * |cfg.passed| + 1
  {
    forall s, m | Owned(s) && Next(cfg, s, m).Some?
      ensures Owned(Next(cfg, s, m).value) && Fuel(Next(cfg, s, m).value) < Fuel(s)
    {
      StepKeepsOwned(cfg, s, m);
      StepUsesFuel(cfg, s, m);
    }
    RunsAreBounded(Behaviour(cfg), Init(cfg), s => Owned(s), s => Fuel(s), moves);
    ExecInv(Behaviour(cfg), Init(cfg), s => Owned(s), moves);
    SumBound(Init(cfg).threads, Rank, 7);
  }

  // ---------- without the lock ----------

  /** The numbers printed so far. */
  function Counters(log: seq<Line>): seq<int> {
    if log == [] then []
    else Counters(log[..|log| - 1]) + if log[|log| - 1].Counter? then [log[|log| - 1].value] else []
  }

  /** The log has n counter lines, and each shows the same value. */
  ghost predicate Prints(log: seq<Line>, n: nat, value: int) {
    |Counters(log)| == n && forall k :: 0 <= k < n ==> Counters(log)[k] == value
  }

  lemma CountersAppend(log: seq<Line>, line: Line)
    ensures Counters(log + [line]) == Counters(log) + if line.Counter? then [line.value] else []
  {
    assert (log + [line])[..|log|] == log;
  }

  /** The state after worker t's next step. */
  lemma Run(cfg: Config, s: State, t: nat) returns (s': State)
    requires Arises(cfg, s) && !s.exited && t < |s.threads| && WorkerNext(cfg, s, t, true).Some?
    ensures Arises(cfg, s') && s' == WorkerNext(cfg, s, t, true).value
  {
    s' := WorkerNext(cfg, s, t, true).value;
    assert Behaviour(cfg)(s, Worker(t, true)) == Some(s');
    ReachableStep(Behaviour(cfg), Init(cfg), s, Worker(t, true));
  }

  ghost predicate Free(cfg: Config, s: State) {
    !cfg.locked && Arises(cfg, s) && !s.exited && |s.threads| == |cfg.passed|
  }

  /** The first k threads have loaded, the others have not begun; nobody has stored. */
  ghost predicate Loaded(cfg: Config, s: State, k: nat) {
    && Free(cfg, s) && k <= |s.threads| && s.counter == 0 && Counters(s.log) == []
    && forall t :: 0 <= t < |s.threads| ==> s.threads[t] == if t < k then Thread(AtStore, 0) else Thread(AtLock, 0)
  }

  lemma {:induction false} LoadAll(cfg: Config, k: nat) returns (s: State)
    requires !cfg.locked && k <= |cfg.passed|
    ensures Loaded(cfg, s, k)
  {
    if k == 0 {
      s := Init(cfg);
      ReachableInit(Behaviour(cfg), s);
    } else {
      s := LoadAll(cfg, k - 1);
      var t := k - 1;
      s := Run(cfg, s, t);
      var log := s.log;
      s := Run(cfg, s, t);
      DataIsNoCounter(cfg, log, t);
      s := Run(cfg, s, t);
    }
  }

  lemma DataIsNoCounter(cfg: Config, log: seq<Line>, t: nat)
    ensures Counters(log + DataLines(cfg, t)) == Counters(log)
  {
    if DataLines(cfg, t) == [] {
      assert log + DataLines(cfg, t) == log;
    } else {
      CountersAppend(log, DataLines(cfg, t)[0]);
    }
  }

  /** The first k threads have stored and printed the same number, the others only loaded. */
  ghost predicate Lost(cfg: Config, s: State, k: nat) {
    && Free(cfg, s) && k <= |s.threads| && s.counter == (if k == 0 then 0 else 1) && Prints(s.log, k, 1)
    && forall t :: 0 <= t < |s.threads| ==> s.threads[t] == Thread(if t < k then AtMalloc else AtStore, 0)
  }

  lemma {:induction false} StoreAll(cfg: Config, k: nat) returns (s: State)
    requires !cfg.locked && k <= |cfg.passed|
    ensures Lost(cfg, s, k)
  {
    if k == 0 {
      s := LoadAll(cfg, |cfg.passed|);
    } else {
      s := StoreAll(cfg, k - 1);
      var t := k - 1;
      s := Run(cfg, s, t);
      CountersAppend(s.log, Counter(1));
      s := Run(cfg, s, t);
    }
  }

  /** The first k threads have stored, one after the other, and nobody has printed. */
  ghost predicate Counted(cfg: Config, s: State, k: nat) {
    && Free(cfg, s) && k <= |s.threads| && s.counter == k && Counters(s.log) == []
    && forall t :: 0 <= t < |s.threads| ==> s.threads[t] == if t < k then Thread(AtPrint, t) else Thread(AtLock, 0)
  }

  lemma {:induction false} IncrementAll(cfg: Config, k: nat) returns (s: State)
    requires !cfg.locked && k <= |cfg.passed|
    ensures Counted(cfg, s, k)
  {
    if k == 0 {
      s := Init(cfg);
      ReachableInit(Behaviour(cfg), s);
    } else {
      s := IncrementAll(cfg, k - 1);
      var t := k - 1;
      s := Run(cfg, s, t);
      var log := s.log;
      s := Run(cfg, s, t);
      DataIsNoCounter(cfg, log, t);
      s := Run(cfg, s, t);
      s := Run(cfg, s, t);
    }
  }

  ghost predicate SameNumber(cfg: Config, s: State, k: nat) {
    && Free(cfg, s) && k <= |s.threads| && s.counter == |s.threads| && Prints(s.log, k, |s.threads|)
    && forall t :: 0 <= t < |s.threads| ==> s.threads[t] == Thread(if t < k then AtMalloc else AtPrint, t)
  }

  lemma {:induction false} PrintAll(cfg: Config, k: nat) returns (s: State)
    requires !cfg.locked && k <= |cfg.passed|
    ensures SameNumber(cfg, s, k)
  {
    if k == 0 {
      s := IncrementAll(cfg, |cfg.passed|);
    } else {
      s := PrintAll(cfg, k - 1);
      var before := s;
      s := Run(cfg, s, k - 1);
      CountersAppend(before.log, Counter(before.counter));
      hide Counters, WorkerNext, Reachable;
    }
  }

  /** Every worker is past its print. */
  ghost predicate AllPrinted(s: State) {
    forall t :: 0 <= t < |s.threads| ==> s.threads[t].pc in {AtMalloc, AtUnlock, Returned}
  }

  /** Without the lock, as the second output in the header: a run in which all N threads print N. */
  lemma EveryonePrintsN(cfg: Config) returns (s: State)
    requires !cfg.locked
    ensures Arises(cfg, s) && AllPrinted(s) && Prints(s.log, |cfg.passed|, |cfg.passed|)
  {
    s := PrintAll(cfg, |cfg.passed|);
  }

  /** And one in which all but one of the updates are lost. */
  lemma UpdatesLost(cfg: Config) returns (s: State)
    requires !cfg.locked && |cfg.passed| >= 1
    ensures Arises(cfg, s) && AllPrinted(s) && s.counter == 1 && Prints(s.log, |cfg.passed|, 1)
  {
    s := StoreAll(cfg, |cfg.passed|);
  }

  /** From two threads on, the lock is what makes the counter count every thread in every run. */
  lemma LockIsNeeded(cfg: Config)
    requires |cfg.passed| >= 2
    ensures cfg.locked <==> forall s :: Arises(cfg, s) && AllPrinted(s) ==> s.counter == |cfg.passed|
  {
    if cfg.locked {
      forall s | Arises(cfg, s) && AllPrinted(s) ensures s.counter == |cfg.passed| {
        ArisesInv(cfg, s);
        PermutationLength(s.order, |cfg.passed|);
      }
    } else {
      var s := UpdatesLost(cfg);
    }
  }
}
