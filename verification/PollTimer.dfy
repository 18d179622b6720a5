/** The elapsed times printed by poll_timer.c. */
module PollTimer {
  import opened Options
  import opened Sequences

  const BILLION := 1_000_000_000
  const ULONG := 0x1_0000_0000_0000_0000  // values of unsigned long

  datatype Timespec = Timespec(sec: int, nsec: int) {
    ghost predicate Valid() {
      0 <= nsec < BILLION
    }

    function Nanos(): int {
      sec * BILLION + nsec
    }
  }

  /** What poll answered, and in the case of a timeout what the clock then said. */
  datatype Answer = Failed | Readable | TimedOut(now: Option<Timespec>)

  /** The clock readings the loop acts on: those of the timeouts before poll or the clock fails. */
  function Readings(answers: seq<Answer>): seq<Timespec> {
    if answers == [] then []
    else match answers[0]
      case Failed => []
      case Readable => Readings(answers[1..])
      case TimedOut(now) => if now.None? then [] else [now.value] + Readings(answers[1..])
  }

  ghost function Timeouts(answers: seq<Answer>): nat {
    Count(answers, (a: Answer) => a.TimedOut?)
  }

  predicate Ends(answer: Answer) {
    answer.Failed? || (answer.TimedOut? && answer.now.None?)
  }

  /** They are what the clock said at each timeout among the first n answers, in order, where the answer
      behind these is the first to end the loop or there is none. */
  lemma {:induction false} ReadingsOf(answers: seq<Answer>, n: nat)
    requires n <= |answers| && (n == |answers| || Ends(answers[n]))
    requires forall i :: 0 <= i < n ==> !Ends(answers[i])
    ensures |Readings(answers)| == Timeouts(answers[..n])
    ensures forall i :: 0 <= i < n && answers[i].TimedOut? ==>
      && Timeouts(answers[..i]) < |Readings(answers)|
      && Some(Readings(answers)[Timeouts(answers[..i])]) == answers[i].now
  {
    if n > 0 {
      ReadingsOf(answers[1..], n - 1);
      forall i | 0 < i <= n
        ensures Timeouts(answers[..i]) == Timeouts(answers[1..][..i - 1]) + Timeouts(answers[..1])
      {
        assert answers[..i][1..] == answers[1..][..i - 1];
      }
    }
  }

  function Last(start: Timespec, readings: seq<Timespec>): Timespec {
    if readings == [] then start else readings[|readings| - 1]
  }

  /** The difference of the whole seconds between two readings, as an unsigned long. */
  function Difference(before: Timespec, now: Timespec): nat {
    (now.sec - before.sec) % ULONG
  }

  function Differences(start: Timespec, readings: seq<Timespec>): (r: seq<nat>)
    ensures |r| == |readings|
  {
    if readings == [] then []
    else
      var earlier := readings[..|readings| - 1];
      Differences(start, earlier) + [Difference(Last(start, earlier), readings[|readings| - 1])]
  }

  lemma DifferencesNone(start: Timespec)
    ensures Differences(start, []) == [] && Last(start, []) == start
  {
  }

  lemma ReadingsNone(readings: seq<Timespec>)
    ensures readings + Readings([]) == readings
  {
  }

  lemma DifferencesStep(start: Timespec, readings: seq<Timespec>, now: Timespec)
    ensures Differences(start, readings + [now])
         == Differences(start, readings) + [Difference(Last(start, readings), now)]
    ensures Last(start, readings + [now]) == now
  {
    assert (readings + [now])[..|readings|] == readings;
  }

  lemma ReadingsStep(answers: seq<Answer>, i: nat, readings: seq<Timespec>)
    requires i < |answers|
    ensures readings + Readings(answers[i..]) ==
      match answers[i]
      case Failed => readings
      case Readable => readings + Readings(answers[i + 1..])
      case TimedOut(now) => if now.None? then readings else (readings + [now.value]) + Readings(answers[i + 1..])
  {
    assert answers[i..][1..] == answers[i + 1..];
  }

  /** The loop of main on any sequence of answers: ts_start always holds the last reading. */
  method Loop(start: Timespec, answers: seq<Answer>) returns (printed: seq<nat>, tsStart: Timespec)
    ensures printed == Differences(start, Readings(answers)) && tsStart == Last(start, Readings(answers))
  {
    hide Readings, Differences, Difference, Last;
    DifferencesNone(start);
    printed, tsStart := [], start;
    ghost var readings: seq<Timespec> := [];
    var i := 0;
    assert answers[0..] == answers;
    while i < |answers|
      invariant 0 <= i <= |answers|
      invariant printed == Differences(start, readings) && tsStart == Last(start, readings)
      invariant readings + Readings(answers[i..]) == Readings(answers)
    {
      ReadingsStep(answers, i, readings);
      match answers[i] {
        case Failed =>
          return;
        case Readable =>
        case TimedOut(now) =>
          if now.None? {
            return;
          }
          printed := printed + [Difference(tsStart, now.value)];
          tsStart := now.value;
          DifferencesStep(start, readings, now.value);
          readings := readings + [now.value];
      }
      i := i + 1;
    }
    assert answers[i..] == [];
    ReadingsNone(readings);
  }

  ghost function Elapsed(start: Timespec, readings: seq<Timespec>): nat {
    Sum(Differences(start, readings), n => n)
  }

  lemma ElapsedStep(start: Timespec, readings: seq<Timespec>)
    requires readings != []
    ensures var earlier := readings[..|readings| - 1];
      Elapsed(start, readings) == Elapsed(start, earlier) + Difference(Last(start, earlier), Last(start, readings))
  {
    var earlier := readings[..|readings| - 1];
    SumAppend(Differences(start, earlier), Difference(Last(start, earlier), Last(start, readings)), n => n);
  }

  /** Whatever the clock does, the printed values add up, modulo the range of unsigned long, to the whole
      seconds between the start and the last timeout. */
  lemma {:induction false} SumTelescopes(start: Timespec, readings: seq<Timespec>)
    ensures (Elapsed(start, readings) - (Last(start, readings).sec - start.sec)) % ULONG == 0
  {
    if readings != [] {
      var earlier := readings[..|readings| - 1];
      SumTelescopes(start, earlier);
      ElapsedStep(start, readings);
    }
  }

  ghost predicate Monotone(start: Timespec, readings: seq<Timespec>) {
    && start.Valid() && (forall r :: r in readings ==> r.Valid())
    && forall i :: 0 <= i < |readings| ==> Last(start, readings[..i]).Nanos() <= readings[i].Nanos()
  }

  lemma MonotonePrefix(start: Timespec, readings: seq<Timespec>, n: nat)
    requires Monotone(start, readings) && n <= |readings|
    ensures Monotone(start, readings[..n])
  {
    assert forall i :: 0 <= i < n ==> readings[..n][..i] == readings[..i];
    assert forall r :: r in readings[..n] ==> r in readings;
  }

  /** Whole seconds never run backwards. */
  lemma {:induction false} SecondsGrow(start: Timespec, readings: seq<Timespec>)
    requires Monotone(start, readings)
    ensures Last(start, readings).Valid() && start.sec <= Last(start, readings).sec
    ensures readings != [] ==> Last(start, readings[..|readings| - 1]).sec <= Last(start, readings).sec
  {
    if readings != [] {
      var n := |readings| - 1;
      MonotonePrefix(start, readings, n);
      SecondsGrow(start, readings[..n]);
      assert readings[n] in readings;
    }
  }

  /** A printed value is less than a second off the time between its two readings. */
  ghost predicate Close(printed: int, before: Timespec, now: Timespec) {
    -BILLION < printed * BILLION - (now.Nanos() - before.Nanos()) < BILLION
  }

  lemma DifferenceIsClose(before: Timespec, now: Timespec)
    requires before.Valid() && now.Valid() && 0 <= now.sec - before.sec < ULONG
    ensures Difference(before, now) == now.sec - before.sec && Close(now.sec - before.sec, before, now)
  {
  }

  lemma {:induction false} SecondsBetween(start: Timespec, readings: seq<Timespec>, i: nat)
    requires Monotone(start, readings) && i < |readings|
    ensures Last(start, readings[..i]).Valid() && readings[i].Valid()
    ensures start.sec <= Last(start, readings[..i]).sec <= readings[i].sec <= Last(start, readings).sec
  {
    var n := |readings| - 1;
    MonotonePrefix(start, readings, n);
    SecondsGrow(start, readings);
    if i < n {
      SecondsBetween(start, readings[..n], i);
      assert readings[..n][..i] == readings[..i];
    } else {
      SecondsGrow(start, readings[..n]);
    }
    hide Monotone;
  }

  lemma {:induction false} DifferenceAt(start: Timespec, readings: seq<Timespec>, i: nat)
    requires i < |readings|
    ensures Differences(start, readings)[i] == Difference(Last(start, readings[..i]), readings[i])
  {
    var n := |readings| - 1;
    if i < n {
      DifferenceAt(start, readings[..n], i);
      assert readings[..n][..i] == readings[..i];
    }
  }

  lemma {:induction false} SumIsExact(start: Timespec, readings: seq<Timespec>)
    requires Monotone(start, readings) && Last(start, readings).sec - start.sec < ULONG
    ensures Elapsed(start, readings) == Last(start, readings).sec - start.sec
  {
    if readings != [] {
      var n := |readings| - 1;
      MonotonePrefix(start, readings, n);
      SecondsBetween(start, readings, n);
      SumIsExact(start, readings[..n]);
      DifferenceIsClose(Last(start, readings[..n]), readings[n]);
      ElapsedStep(start, readings);
    }
  }

  /** On a monotone clock that runs for less than 2^64 seconds the printed values add up exactly, and each
      of them and their sum are less than a second off: resetting ts_start adds no error. */
  lemma NoErrorAccumulates(start: Timespec, readings: seq<Timespec>)
    requires Monotone(start, readings) && Last(start, readings).sec - start.sec < ULONG
    ensures Elapsed(start, readings) == Last(start, readings).sec - start.sec
    ensures Close(Elapsed(start, readings), start, Last(start, readings))
    ensures forall i :: 0 <= i < |readings| ==>
      Close(Differences(start, readings)[i], Last(start, readings[..i]), readings[i])
  {
    SumIsExact(start, readings);
    SecondsGrow(start, readings);
    DifferenceIsClose(start, Last(start, readings));
    forall i | 0 <= i < |readings|
      ensures Close(Differences(start, readings)[i], Last(start, readings[..i]), readings[i])
    {
      SecondsBetween(start, readings, i);
      DifferenceAt(start, readings, i);
      DifferenceIsClose(Last(start, readings[..i]), readings[i]);
    }
  }
}
