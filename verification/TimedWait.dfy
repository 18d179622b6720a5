/** thread_conditionvariable.c for any number of receivers and senders: a flag set under a lock and
    signalled, and senders that wait for it once, with a time limit. */
module TimedWait {
  import opened Options
  import opened Runs
  import opened Sequences

  /** Whether a wait may also end for no reason at all. */
  datatype Config = Config(receivers: nat, senders: nat, spurious: bool)

  datatype RPc = RLock | RSet | RSignal | RUnlock | RDone

  datatype SPc = SLock | SCheck | SWaiting | SRelock | SCopy | SClear | SUnlock | SDone

  /** How a sender's wait ended. */
  datatype Wake = NotWoken | Signalled | TimedOut | Spurious

  /** A sender's place and its copy of the flag; for the statements below also how it was woken. */
  datatype Sender = Sender(pc: SPc, copy: bool, wake: Wake)

  datatype Holder = Nobody | R(r: nat) | S(s: nat)

  /** coalesced counts the sets that found the flag up already. */
  datatype State = State(receivers: seq<RPc>, senders: seq<Sender>, holder: Holder, flag: bool, coalesced: nat)

  function Init(cfg: Config): State {
    var sender := Sender(SLock, false, NotWoken);
    State(seq(cfg.receivers, _ => RLock), seq(cfg.senders, _ => sender), Nobody, false, 0)
  }

  /** The sets of the flag so far. */
  ghost function Sets(s: State): nat {
    Count(s.receivers, pc => pc == RSignal || pc == RUnlock || pc == RDone)
  }

  /** The senders that took the flag; each of them prints "packet received successfully". */
  ghost function Successes(s: State): nat {
    Count(s.senders, (x: Sender) => x.copy && (x.pc == SUnlock || x.pc == SDone))
  }

  // ---------- the steps ----------

  /** A receiver's step, whose signal wakes the given senders; a sender's step; the end of a wait by the
      time limit or for no reason. */
  datatype Move = Receive(r: nat, wakes: set<nat>) | Send(i: nat) | Timeout(i: nat) | Stray(i: nat)

  ghost predicate IsWaiting(s: State, i: nat) {
    i < |s.senders| && s.senders[i].pc == SWaiting
  }

  /** pthread_cond_signal wakes at least one thread if any is waiting. */
  ghost predicate MayWake(s: State, wakes: set<nat>) {
    (forall i :: i in wakes ==> IsWaiting(s, i)) && ((exists i :: IsWaiting(s, i)) ==> wakes != {})
  }

  function Woken(senders: seq<Sender>, wakes: set<nat>): (r: seq<Sender>)
    ensures |r| == |senders|
    ensures forall i :: 0 <= i < |r| ==>
      r[i] == if i in wakes then senders[i].(pc := SRelock, wake := Signalled) else senders[i]
  {
    seq(|senders|, i requires 0 <= i < |senders| =>
      if i in wakes then senders[i].(pc := SRelock, wake := Signalled) else senders[i])
  }

  ghost function ReceiverNext(s: State, r: nat, wakes: set<nat>): Option<State> {
    if r >= |s.receivers| then None
    else match s.receivers[r]
      case RLock => if s.holder == Nobody then Some(s.(receivers := s.receivers[r := RSet], holder := R(r))) else None
      case RSet =>
        var coalesced := s.coalesced + if s.flag then 1 else 0;
        Some(s.(receivers := s.receivers[r := RSignal], flag := true, coalesced := coalesced))
      case RSignal =>
        if !MayWake(s, wakes) then None
        else Some(s.(receivers := s.receivers[r := RUnlock], senders := Woken(s.senders, wakes)))
      case RUnlock => Some(s.(receivers := s.receivers[r := RDone], holder := Nobody))
      case RDone => None
  }

  function Put(s: State, i: nat, x: Sender): State
    requires i < |s.senders|
  {
    s.(senders := s.senders[i := x])
  }

  ghost function SenderNext(s: State, i: nat): Option<State> {
    if i >= |s.senders| then None
    else
      var x := s.senders[i];
      match x.pc
      case SLock =>
        if s.holder != Nobody then None
        else Some(Put(s, i, x.(pc := SCheck)).(holder := S(i)))
      case SCheck =>
        if s.flag then Some(Put(s, i, x.(pc := SCopy))) else Some(Put(s, i, x.(pc := SWaiting)).(holder := Nobody))
      case SWaiting => None
      case SRelock =>
        if s.holder == Nobody then Some(Put(s, i, x.(pc := SCopy)).(holder := S(i))) else None
      case SCopy => Some(Put(s, i, x.(pc := SClear, copy := s.flag)))
      case SClear => Some(Put(s, i, x.(pc := SUnlock)).(flag := false))
      case SUnlock => Some(Put(s, i, x.(pc := SDone)).(holder := Nobody))
      case SDone => None
  }

  ghost function Next(cfg: Config, s: State, m: Move): Option<State> {
    match m
    case Receive(r, wakes) => ReceiverNext(s, r, wakes)
    case Send(i) => SenderNext(s, i)
    case Timeout(i) => if IsWaiting(s, i) then Some(Put(s, i, s.senders[i].(pc := SRelock, wake := TimedOut))) else None
    case Stray(i) =>
      if cfg.spurious && IsWaiting(s, i) then Some(Put(s, i, s.senders[i].(pc := SRelock, wake := Spurious))) else None
  }

  ghost function Behaviour(cfg: Config): Steps<State, Move> {
    (s, m) => Next(cfg, s, m)
  }

  ghost predicate Arises(cfg: Config, s: State) {
    Reachable(Behaviour(cfg), Init(cfg), s)
  }

  // ---------- mutual exclusion and conservation ----------

  /** A receiver holds the lock from its set to its unlock, and the flag is up when it signals. */
  ghost predicate ReceiverOk(s: State, r: nat)
    requires r < |s.receivers|
  {
    && (s.holder == R(r) <==> s.receivers[r] in {RSet, RSignal, RUnlock})
    && (s.receivers[r] == RSignal ==> s.flag)
  }

  /** A sender holds the lock at its four steps on the flag, its copy is right when it clears the flag,
      and before its wait it was not woken. */
  ghost predicate SenderOk(s: State, i: nat)
    requires i < |s.senders|
  {
    var x := s.senders[i];
    && (s.holder == S(i) <==> x.pc in {SCheck, SCopy, SClear, SUnlock})
    && (x.pc == SClear ==> x.copy == s.flag) && (x.pc in {SLock, SCheck, SWaiting} ==> x.wake == NotWoken)
  }

  /** Every set of the flag was taken by one sender, or found the flag up, or is the one still up. */
  ghost predicate Balanced(s: State) {
    Sets(s) == Successes(s) + s.coalesced + if s.flag then 1 else 0
  }

  ghost predicate HolderExists(s: State) {
    match s.holder
    case Nobody => true
    case R(r) => r < |s.receivers|
    case S(i) => i < |s.senders|
  }

  ghost predicate Inv(cfg: Config, s: State) {
    && |s.receivers| == cfg.receivers && |s.senders| == cfg.senders && Balanced(s) && HolderExists(s)
    && (forall r :: 0 <= r < |s.receivers| ==> ReceiverOk(s, r))
    && (forall i :: 0 <= i < |s.senders| ==> SenderOk(s, i))
  }

  lemma StepKeepsReceivers(cfg: Config, s: State, m: Move)
    requires Inv(cfg, s) && Next(cfg, s, m).Some?
    ensures var s' := Next(cfg, s, m).value; forall r :: 0 <= r < |s'.receivers| ==> ReceiverOk(s', r)
  {
    var s' := Next(cfg, s, m).value;
    hide Balanced, MayWake;
    if !m.Receive? && m.i < |s.senders| {
      assert SenderOk(s, m.i);
    }
    forall r | 0 <= r < |s'.receivers| ensures ReceiverOk(s', r) {
      assert ReceiverOk(s, r);
      if m.Receive? {
        assert ReceiverOk(s, m.r);
      }
    }
  }

  lemma ReceiverKeepsSenders(cfg: Config, s: State, r: nat, wakes: set<nat>)
    requires Inv(cfg, s) && ReceiverNext(s, r, wakes).Some?
    ensures var s' := ReceiverNext(s, r, wakes).value; forall i :: 0 <= i < |s'.senders| ==> SenderOk(s', i)
  {
    var s' := ReceiverNext(s, r, wakes).value;
    assert ReceiverOk(s, r);
    hide Balanced, Sets, HolderExists;
    forall i | 0 <= i < |s'.senders| ensures SenderOk(s', i) {
      assert SenderOk(s, i);
    }
  }

  lemma SendKeepsSenders(cfg: Config, s: State, i: nat)
    requires Inv(cfg, s) && SenderNext(s, i).Some?
    ensures var s' := SenderNext(s, i).value; forall j :: 0 <= j < |s'.senders| ==> SenderOk(s', j)
  {
    var s' := SenderNext(s, i).value;
    assert SenderOk(s, i);
    hide Balanced, Sets, HolderExists, ReceiverOk;
    forall j | 0 <= j < |s'.senders| ensures SenderOk(s', j) {
      assert SenderOk(s, j);
    }
  }

  lemma WakeKeepsSenders(cfg: Config, s: State, i: nat, wake: Wake)
    requires Inv(cfg, s) && IsWaiting(s, i)
    ensures var s' := Put(s, i, s.senders[i].(pc := SRelock, wake := wake));
      forall j :: 0 <= j < |s'.senders| ==> SenderOk(s', j)
  {
    var s' := Put(s, i, s.senders[i].(pc := SRelock, wake := wake));
    assert SenderOk(s, i);
    hide Balanced, Sets, HolderExists, ReceiverOk;
    forall j | 0 <= j < |s'.senders| ensures SenderOk(s', j) {
      assert SenderOk(s, j);
    }
  }

  lemma ReceiverKeepsBalance(s: State, r: nat, wakes: set<nat>)
    requires Balanced(s) && ReceiverNext(s, r, wakes).Some?
    ensures Balanced(ReceiverNext(s, r, wakes).value)
  {
    var s' := ReceiverNext(s, r, wakes).value;
    CountUpdate(s.receivers, r, s'.receivers[r], pc => pc == RSignal || pc == RUnlock || pc == RDone);
    CountSame(s.senders, s'.senders, (x: Sender) => x.copy && (x.pc == SUnlock || x.pc == SDone));
  }

  lemma SenderKeepsBalance(cfg: Config, s: State, m: Move)
    requires Balanced(s) && !m.Receive? && Next(cfg, s, m).Some? && SenderOk(s, m.i)
    ensures Balanced(Next(cfg, s, m).value)
  {
    var s' := Next(cfg, s, m).value;
    CountUpdate(s.senders, m.i, s'.senders[m.i], (x: Sender) => x.copy && (x.pc == SUnlock || x.pc == SDone));
  }

  lemma StepKeepsInv(cfg: Config, s: State, m: Move)
    requires Inv(cfg, s) && Next(cfg, s, m).Some?
    ensures Inv(cfg, Next(cfg, s, m).value)
  {
    StepKeepsReceivers(cfg, s, m);
    match m
    case Receive(r, wakes) =>
      ReceiverKeepsSenders(cfg, s, r, wakes);
      ReceiverKeepsBalance(s, r, wakes);
    case Send(i) =>
      assert SenderOk(s, i);
      SendKeepsSenders(cfg, s, i);
      SenderKeepsBalance(cfg, s, m);
    case _ =>
      assert SenderOk(s, m.i);
      WakeKeepsSenders(cfg, s, m.i, if m.Timeout? then TimedOut else Spurious);
      SenderKeepsBalance(cfg, s, m);
  }

  lemma ArisesInv(cfg: Config, s: State)
    requires Arises(cfg, s)
    ensures Inv(cfg, s)
  {
    InitInv(cfg);
    forall s, m | Inv(cfg, s) && Next(cfg, s, m).Some? ensures Inv(cfg, Next(cfg, s, m).value) {
      StepKeepsInv(cfg, s, m);
    }
    ReachableInv(Behaviour(cfg), Init(cfg), s => Inv(cfg, s), s);
  }

  lemma InitInv(cfg: Config)
    ensures Inv(cfg, Init(cfg))
  {
    CountZero(Init(cfg).receivers, pc => pc == RSignal || pc == RUnlock || pc == RDone);
    CountZero(Init(cfg).senders, (x: Sender) => x.copy && (x.pc == SUnlock || x.pc == SDone));
  }

  /** Always: sets = successes + coalesced sets + 1 if the flag is up. So every success has its own
      earlier set. */
  lemma SetsConserved(cfg: Config, s: State)
    requires Arises(cfg, s)
    ensures Sets(s) == Successes(s) + s.coalesced + (if s.flag then 1 else 0)
    ensures Successes(s) <= Sets(s) <= cfg.receivers
  {
    ArisesInv(cfg, s);
  }

  /** The sender has the lock for the last time, or had it: it copies what the flag is then. */
  ghost predicate Decided(up: bool, flag: bool, x: Sender) {
    match x.pc
    case SCheck => flag && up
    case SCopy => flag == up
    case SClear | SUnlock | SDone => x.copy == up
    case _ => false
  }

  ghost predicate StaysDecided(cfg: Config, up: bool, wake: Wake, i: nat, s: State) {
    && Inv(cfg, s) && i < |s.senders|
    && Decided(up, s.flag, s.senders[i]) && s.senders[i].wake == wake
  }

  lemma ReceiverKeepsDecided(cfg: Config, up: bool, wake: Wake, i: nat, s: State, r: nat, wakes: set<nat>)
    requires StaysDecided(cfg, up, wake, i, s) && ReceiverNext(s, r, wakes).Some?
    ensures var s' := ReceiverNext(s, r, wakes).value;
      |s'.senders| == |s.senders| && s'.senders[i] == s.senders[i] && Decided(up, s'.flag, s.senders[i])
  {
    assert SenderOk(s, i) && ReceiverOk(s, r);
    hide Balanced, Sets, HolderExists;
  }

  lemma SendKeepsDecided(cfg: Config, up: bool, wake: Wake, i: nat, s: State, j: nat)
    requires StaysDecided(cfg, up, wake, i, s) && SenderNext(s, j).Some?
    ensures var s' := SenderNext(s, j).value;
      |s'.senders| == |s.senders| && s'.senders[i].wake == wake && Decided(up, s'.flag, s'.senders[i])
  {
    assert SenderOk(s, i) && SenderOk(s, j);
    hide Balanced, Sets, HolderExists, ReceiverOk;
  }

  lemma StepKeepsDecided(cfg: Config, up: bool, wake: Wake, i: nat, s: State, m: Move)
    requires StaysDecided(cfg, up, wake, i, s) && Next(cfg, s, m).Some?
    ensures StaysDecided(cfg, up, wake, i, Next(cfg, s, m).value)
  {
    StepKeepsInv(cfg, s, m);
    match m
    case Receive(r, wakes) => ReceiverKeepsDecided(cfg, up, wake, i, s, r, wakes);
    case Send(j) => SendKeepsDecided(cfg, up, wake, i, s, j);
    case _ => hide Inv;
  }

  /** Once a sender has found the flag up, or has the lock back after its wait, it never waits again, and
      its result is what the flag was then, whatever the others do. */
  lemma LastLockDecides(cfg: Config, s: State, i: nat, moves: seq<Move>)
    requires Arises(cfg, s) && i < |s.senders|
    requires s.senders[i].pc == SCopy || (s.senders[i].pc == SCheck && s.flag)
    requires Exec(Behaviour(cfg), s, moves).Some?
    ensures var s' := Exec(Behaviour(cfg), s, moves).value;
      i < |s'.senders| && Decided(s.flag, s'.flag, s'.senders[i]) && s'.senders[i].wake == s.senders[i].wake
  {
    ArisesInv(cfg, s);
    var up, wake := s.flag, s.senders[i].wake;
    forall s, m | StaysDecided(cfg, up, wake, i, s) && Next(cfg, s, m).Some?
      ensures StaysDecided(cfg, up, wake, i, Next(cfg, s, m).value)
    {
      StepKeepsDecided(cfg, up, wake, i, s, m);
    }
    hide Next, Inv;
    ExecInv(Behaviour(cfg), s, s => StaysDecided(cfg, up, wake, i, s), moves);
  }

  /** In every run on which a sender has just locked while the flag is up, it never waits, and in the end it
      reports success. */
  lemma FlagUpMeansSuccess(cfg: Config, s: State, i: nat, moves: seq<Move>)
    requires Arises(cfg, s) && i < |s.senders| && s.senders[i].pc == SCheck && s.flag
    requires Exec(Behaviour(cfg), s, moves).Some?
    ensures var s' := Exec(Behaviour(cfg), s, moves).value;
      && i < |s'.senders| && s'.senders[i].pc !in {SLock, SWaiting, SRelock} && s'.senders[i].wake == NotWoken
      && (s'.senders[i].pc == SDone ==> s'.senders[i].copy)
  {
    ArisesInv(cfg, s);
    assert SenderOk(s, i);
    LastLockDecides(cfg, s, i, moves);
  }

  /** Nothing deadlocks: a run only stops when every thread has returned. */
  lemma StopsOnlyWhenDone(cfg: Config, s: State)
    requires Arises(cfg, s) && Stuck(Behaviour(cfg), s)
    ensures forall r :: 0 <= r < |s.receivers| ==> s.receivers[r] == RDone
    ensures forall i :: 0 <= i < |s.senders| ==> s.senders[i].pc == SDone
  {
    ArisesInv(cfg, s);
    forall r | 0 <= r < |s.receivers|
      ensures s.receivers[r] == RDone || (s.receivers[r] == RLock && s.holder != Nobody)
    {
      var wakes := set i | 0 <= i < |s.senders| && IsWaiting(s, i);
      assert MayWake(s, wakes) by {
        if i :| IsWaiting(s, i) {
          assert i in wakes;
        }
      }
      assert Behaviour(cfg)(s, Receive(r, wakes)).None?;
    }
    forall i | 0 <= i < |s.senders|
      ensures s.senders[i].pc == SDone || (s.senders[i].pc in {SLock, SRelock} && s.holder != Nobody)
    {
      assert Behaviour(cfg)(s, Send(i)).None? && Behaviour(cfg)(s, Timeout(i)).None?;
    }
    assert s.holder.R? ==> ReceiverOk(s, s.holder.r);
    assert s.holder.S? ==> SenderOk(s, s.holder.s);
  }

  // ---------- runs end ----------

  function ReceiverRank(pc: RPc): nat {
    match pc
    case RLock => 4
    case RSet => 3
    case RSignal => 2
    case RUnlock => 1
    case RDone => 0
  }

  function SenderRank(x: Sender): nat {
    match x.pc
    case SLock => 7
    case SCheck => 6
    case SWaiting => 5
    case SRelock => 4
    case SCopy => 3
    case SClear => 2
    case SUnlock => 1
    case SDone => 0
  }

  ghost function StepsLeft(s: State): nat {
    Sum(s.receivers, ReceiverRank) + Sum(s.senders, SenderRank)
  }

  /** One receiver goes on, and perhaps it wakes senders. */
  lemma ReceiverGoesOn(s: State, r: nat, wakes: set<nat>)
    requires ReceiverNext(s, r, wakes).Some?
    ensures var s' := ReceiverNext(s, r, wakes).value;
      && r < |s.receivers| == |s'.receivers| && s'.receivers == s.receivers[r := s'.receivers[r]]
      && ReceiverRank(s'.receivers[r]) < ReceiverRank(s.receivers[r])
      && (s'.senders == s.senders || (MayWake(s, wakes) && s'.senders == Woken(s.senders, wakes)))
  {
    hide MayWake, Woken;
  }

  lemma ReceiverUsesSteps(s: State, r: nat, wakes: set<nat>)
    requires ReceiverNext(s, r, wakes).Some?
    ensures StepsLeft(ReceiverNext(s, r, wakes).value) < StepsLeft(s)
  {
    var s' := ReceiverNext(s, r, wakes).value;
    ReceiverGoesOn(s, r, wakes);
    if s'.senders != s.senders {
      WakingUsesSteps(s, wakes);
    }
    SumUpdate(s.receivers, r, s'.receivers[r], ReceiverRank);
    hide Sum, ReceiverNext, ReceiverRank, SenderRank, MayWake, Woken;
  }

  /** A signal only moves senders on. */
  lemma WakingUsesSteps(s: State, wakes: set<nat>)
    requires MayWake(s, wakes)
    ensures Sum(Woken(s.senders, wakes), SenderRank) <= Sum(s.senders, SenderRank)
  {
    SumAtMost(Woken(s.senders, wakes), s.senders, SenderRank);
    hide Sum;
  }

  lemma SenderUsesSteps(s: State, i: nat, x: Sender)
    requires i < |s.senders| && SenderRank(x) < SenderRank(s.senders[i])
    ensures Sum(s.senders[i := x], SenderRank) < Sum(s.senders, SenderRank)
  {
    SumUpdate(s.senders, i, x, SenderRank);
  }

  lemma StepUsesSteps(cfg: Config, s: State, m: Move)
    requires Next(cfg, s, m).Some?
    ensures StepsLeft(Next(cfg, s, m).value) < StepsLeft(s)
  {
    if m.Receive? {
      ReceiverUsesSteps(s, m.r, m.wakes);
    } else {
      var s' := Next(cfg, s, m).value;
      hide Sets, Sum;
      SenderUsesSteps(s, m.i, s'.senders[m.i]);
    }
  }

  lemma InitSteps(cfg: Config)
    ensures StepsLeft(Init(cfg)) <= 4 * cfg.receivers + 7 * cfg.senders
  {
    SumBound(Init(cfg).receivers, ReceiverRank, 4);
    SumBound(Init(cfg).senders, SenderRank, 7);
  }

  /** No run takes more than four steps a receiver and seven a sender, since each sender waits once. */
  lemma RunsAreFinite(cfg: Config, moves: seq<Move>)
    requires Exec(Behaviour(cfg), Init(cfg), moves).Some?
    ensures |moves| <= 4 * cfg.receivers + 7 * cfg.senders
  {
    InitSteps(cfg);
    forall s, m | Next(cfg, s, m).Some? ensures StepsLeft(Next(cfg, s, m).value) < StepsLeft(s) {
      StepUsesSteps(cfg, s, m);
    }
    hide Next, StepsLeft;
    RunsAreBounded(Behaviour(cfg), Init(cfg), s => true, (s: State) => StepsLeft(s), moves);
  }

  // ---------- what "timeout, retry" means ----------

  /** The sender prints "timeout, retry" although its time limit did not run out. */
  ghost predicate FalseTimeout(x: Sender) {
    x.pc == SDone && !x.copy && x.wake != TimedOut
  }

  /** The settings in which that cannot happen: the source tests the flag with `if` and not `while`, so
      neither a stray wake-up nor another sender that takes the flag first may come in between. */
  predicate WaitsOnce(cfg: Config) {
    cfg.senders == 0 || (!cfg.spurious && (cfg.senders == 1 || cfg.receivers == 0))
  }

  /** What holds of a sender in such a setting: unless its time ran out, the flag is up from its wake-up
      to its copy. */
  ghost predicate Punctual(cfg: Config, s: State, x: Sender) {
    && (x.wake == Spurious ==> cfg.spurious) && (x.wake == Signalled ==> cfg.receivers > 0)
    && (x.pc == SRelock ==> x.wake != NotWoken)
    && (x.wake != TimedOut && x.pc in {SRelock, SCopy} ==> s.flag)
    && (x.wake != TimedOut && x.pc in {SClear, SUnlock, SDone} ==> x.copy)
  }

  ghost predicate AllPunctual(cfg: Config, s: State) {
    Inv(cfg, s) && forall i :: 0 <= i < |s.senders| ==> Punctual(cfg, s, s.senders[i])
  }

  lemma ReceiverKeepsPunctual(cfg: Config, s: State, r: nat, wakes: set<nat>)
    requires WaitsOnce(cfg) && AllPunctual(cfg, s) && ReceiverNext(s, r, wakes).Some?
    ensures var s' := ReceiverNext(s, r, wakes).value; forall i :: 0 <= i < |s'.senders| ==>
      Punctual(cfg, s', s'.senders[i])
  {
    var s' := ReceiverNext(s, r, wakes).value;
    assert ReceiverOk(s, r);
    hide Balanced, Sets, HolderExists;
    forall i | 0 <= i < |s'.senders| ensures Punctual(cfg, s', s'.senders[i]) {
      assert Punctual(cfg, s, s.senders[i]) && SenderOk(s, i);
    }
  }

  lemma SendKeepsPunctual(cfg: Config, s: State, i: nat)
    requires WaitsOnce(cfg) && AllPunctual(cfg, s) && SenderNext(s, i).Some?
    ensures var s' := SenderNext(s, i).value; forall j :: 0 <= j < |s'.senders| ==> Punctual(cfg, s', s'.senders[j])
  {
    var s' := SenderNext(s, i).value;
    assert SenderOk(s, i);
    hide Balanced, Sets, HolderExists, ReceiverOk;
    forall j | 0 <= j < |s'.senders| ensures Punctual(cfg, s', s'.senders[j]) {
      assert Punctual(cfg, s, s.senders[j]) && SenderOk(s, j);
    }
  }

  lemma StepKeepsPunctual(cfg: Config, s: State, m: Move)
    requires WaitsOnce(cfg) && AllPunctual(cfg, s) && Next(cfg, s, m).Some?
    ensures var s' := Next(cfg, s, m).value; forall i :: 0 <= i < |s'.senders| ==> Punctual(cfg, s', s'.senders[i])
  {
    match m
    case Receive(r, wakes) => ReceiverKeepsPunctual(cfg, s, r, wakes);
    case Send(i) => SendKeepsPunctual(cfg, s, i);
    case Timeout(i) =>
      hide Balanced, Sets, HolderExists, ReceiverOk, SenderOk;
      assert Punctual(cfg, s, s.senders[i]);
    case Stray(i) =>
  }

  lemma NoFalseTimeout(cfg: Config, s: State, i: nat)
    requires WaitsOnce(cfg) && Arises(cfg, s) && i < |s.senders|
    ensures !FalseTimeout(s.senders[i])
  {
    InitInv(cfg);
    forall s, m | AllPunctual(cfg, s) && Next(cfg, s, m).Some? ensures AllPunctual(cfg, Next(cfg, s, m).value) {
      StepKeepsPunctual(cfg, s, m);
      StepKeepsInv(cfg, s, m);
    }
    ReachableInv(Behaviour(cfg), Init(cfg), s => AllPunctual(cfg, s), s);
    assert Punctual(cfg, s, s.senders[i]);
  }

  lemma Go(cfg: Config, s: State, m: Move) returns (s': State)
    requires Arises(cfg, s) && Next(cfg, s, m).Some?
    ensures Arises(cfg, s') && s' == Next(cfg, s, m).value
  {
    s' := Next(cfg, s, m).value;
    assert Behaviour(cfg)(s, m) == Some(s');
    ReachableStep(Behaviour(cfg), Init(cfg), s, m);
  }

  /** Sender 0 is in its wait, and nobody else has begun. */
  lemma SenderWaits(cfg: Config) returns (s: State)
    requires cfg.senders >= 1
    ensures Arises(cfg, s) && |s.receivers| == cfg.receivers && |s.senders| == cfg.senders
    ensures s.holder == Nobody && !s.flag && s.senders[0].pc == SWaiting && !s.senders[0].copy
    ensures forall r :: 0 <= r < |s.receivers| ==> s.receivers[r] == RLock
    ensures forall i :: 1 <= i < |s.senders| ==> s.senders[i].pc == SLock
  {
    ReachableInit(Behaviour(cfg), Init(cfg));
    s := Go(cfg, Init(cfg), Send(0));
    s := Go(cfg, s, Send(0));
  }

  /** A woken sender that finds the flag down reports a timeout. */
  lemma WokenInVain(cfg: Config, s: State) returns (s': State)
    requires Arises(cfg, s) && s.holder == Nobody && !s.flag && |s.senders| >= 1
    requires s.senders[0].pc == SRelock && s.senders[0].wake != TimedOut
    ensures Arises(cfg, s') && |s'.senders| == |s.senders| && FalseTimeout(s'.senders[0])
  {
    s' := Go(cfg, s, Send(0));
    s' := Go(cfg, s', Send(0));
    s' := Go(cfg, s', Send(0));
    s' := Go(cfg, s', Send(0));
  }

  /** Sender 0 waits; receiver 0 sets the flag and wakes it. */
  lemma SenderSignalled(cfg: Config) returns (s: State)
    requires cfg.senders >= 2 && cfg.receivers >= 1
    ensures Arises(cfg, s) && |s.senders| == cfg.senders && s.holder == Nobody && s.flag
    ensures s.senders[0].pc == SRelock && s.senders[0].wake == Signalled && s.senders[1].pc == SLock
  {
    s := SenderWaits(cfg);
    s := Go(cfg, s, Receive(0, {}));
    s := Go(cfg, s, Receive(0, {}));
    assert IsWaiting(s, 0);
    s := Go(cfg, s, Receive(0, {0}));
    s := Go(cfg, s, Receive(0, {}));
  }

  /** Before it gets the lock back, sender 1 locks and takes the flag. */
  lemma FlagStolen(cfg: Config) returns (s: State)
    requires cfg.senders >= 2 && cfg.receivers >= 1
    ensures Arises(cfg, s) && |s.senders| == cfg.senders && s.holder == Nobody && !s.flag
    ensures s.senders[0].pc == SRelock && s.senders[0].wake == Signalled
  {
    s := SenderSignalled(cfg);
    s := Go(cfg, s, Send(1));
    s := Go(cfg, s, Send(1));
    s := Go(cfg, s, Send(1));
    s := Go(cfg, s, Send(1));
    s := Go(cfg, s, Send(1));
  }

  /** "timeout, retry" is printed only after the time limit, in every run, exactly in the settings of
      WaitsOnce. */
  lemma TimeoutIsHonest(cfg: Config)
    ensures WaitsOnce(cfg) <==> forall s, i :: Arises(cfg, s) && 0 <= i < |s.senders| ==> !FalseTimeout(s.senders[i])
  {
    if WaitsOnce(cfg) {
      forall s, i | Arises(cfg, s) && 0 <= i < |s.senders| ensures !FalseTimeout(s.senders[i]) {
        NoFalseTimeout(cfg, s, i);
      }
    } else if cfg.spurious {
      var s := SenderWaits(cfg);
      s := Go(cfg, s, Stray(0));
      s := WokenInVain(cfg, s);
    } else {
      var s := FlagStolen(cfg);
      s := WokenInVain(cfg, s);
    }
  }

  // ---------- one sender ----------

  /** Until the only sender has cleared the flag, the flag says whether there was a set. */
  ghost predicate Alone(s: State) {
    |s.senders| == 1 && (s.senders[0].pc != SUnlock && s.senders[0].pc != SDone ==> (s.flag <==> Sets(s) > 0))
  }

  lemma ReceiverKeepsAlone(cfg: Config, s: State, r: nat, wakes: set<nat>)
    requires Inv(cfg, s) && Alone(s) && ReceiverNext(s, r, wakes).Some?
    ensures Alone(ReceiverNext(s, r, wakes).value)
  {
    var s' := ReceiverNext(s, r, wakes).value;
    assert SenderOk(s, 0) && ReceiverOk(s, r);
    CountUpdate(s.receivers, r, s'.receivers[r], pc => pc == RSignal || pc == RUnlock || pc == RDone);
    hide Balanced, MayWake;
  }

  lemma SenderKeepsAlone(cfg: Config, s: State, m: Move)
    requires Inv(cfg, s) && Alone(s) && !m.Receive? && Next(cfg, s, m).Some?
    ensures Alone(Next(cfg, s, m).value)
  {
    assert SenderOk(s, 0);
    hide Balanced;
  }

  lemma LoneFlag(cfg: Config, s: State)
    requires cfg.senders == 1 && Arises(cfg, s)
    ensures Alone(s)
  {
    InitInv(cfg);
    forall s, m | Inv(cfg, s) && Alone(s) && Next(cfg, s, m).Some?
      ensures Inv(cfg, Next(cfg, s, m).value) && Alone(Next(cfg, s, m).value)
    {
      StepKeepsInv(cfg, s, m);
      match m
      case Receive(r, wakes) => ReceiverKeepsAlone(cfg, s, r, wakes);
      case _ => SenderKeepsAlone(cfg, s, m);
    }
    ReachableInv(Behaviour(cfg), Init(cfg), s => Inv(cfg, s) && Alone(s), s);
  }

  /** A single sender that holds the lock for the last time will report success exactly when a set came
      before, whatever woke it, whatever the number of receivers and whatever they still do. */
  lemma LoneSenderReportsSets(cfg: Config, s: State, moves: seq<Move>)
    requires cfg.senders == 1 && Arises(cfg, s) && |s.senders| == 1
    requires s.senders[0].pc == SCopy || (s.senders[0].pc == SCheck && s.flag)
    requires Exec(Behaviour(cfg), s, moves).Some?
    ensures var s' := Exec(Behaviour(cfg), s, moves).value;
      |s'.senders| == 1 && (s'.senders[0].pc == SDone ==> (s'.senders[0].copy <==> Sets(s) > 0))
  {
    LoneFlag(cfg, s);
    LastLockDecides(cfg, s, 0, moves);
    ExecLengths(cfg, s, moves);
  }

  lemma {:induction false} ExecLengths(cfg: Config, s: State, moves: seq<Move>)
    requires Exec(Behaviour(cfg), s, moves).Some?
    ensures |Exec(Behaviour(cfg), s, moves).value.senders| == |s.senders|
  {
    if moves != [] {
      ExecLengths(cfg, s, moves[..|moves| - 1]);
    }
  }
}
