/** The descriptor tables of fork-pipe-exec.c: which ends of its two pipes parent and child hold after
    each of their pipe, close and dup2 calls. */
module PipeWiring {
  /** ToChild is writepipe, ToParent is readpipe. */
  datatype Pipe = ToChild | ToParent

  datatype End = Reading(pipe: Pipe) | Writing(pipe: Pipe) | Other

  type Table = map<nat, End>

  ghost predicate Holds(t: Table, end: End) {
    exists fd :: fd in t && t[fd] == end
  }

  // ---------- the calls ----------

  /** The lowest descriptor that is not open (POSIX, section 2.14 of the System Interfaces). */
  function LowestFree(open: set<nat>, from: nat): (fd: nat)
    ensures from <= fd && fd !in open && forall k :: from <= k < fd ==> k in open
    decreases open
  {
    if from !in open then from else LowestFree(open - {from}, from + 1)
  }

  function Close(t: Table, fd: nat): Table {
    t - {fd}
  }

  function Dup2(t: Table, from: nat, to: nat): Table {
    if from in t then t[to := t[from]] else t
  }

  /** pipe(2) on p, its read end first. */
  function OpenPipe(t: Table, p: Pipe): (r: (Table, nat, nat))
    ensures r.1 < r.2 && r.1 !in t && r.2 !in t && r.0 == t[r.1 := Reading(p)][r.2 := Writing(p)]
    ensures forall k: nat :: k < r.2 && k != r.1 ==> k in t
  {
    var i := LowestFree(t.Keys, 0);
    var o := LowestFree(t.Keys + {i}, 0);
    (t[i := Reading(p)][o := Writing(p)], i, o)
  }

  /** The descriptors of the four ends, named as in the source. */
  datatype Ends = Ends(childRead: nat, parentWrite: nat, parentRead: nat, childWrite: nat)

  /** The table both processes start from after fork. */
  function Forked(t: Table): (r: (Table, Ends))
    ensures var e := r.1;
      && e.childRead < e.parentWrite < e.parentRead < e.childWrite
      && {e.childRead, e.parentWrite, e.parentRead, e.childWrite} !! t.Keys
      && r.0 == t[e.childRead := Reading(ToChild)][e.parentWrite := Writing(ToChild)]
                 [e.parentRead := Reading(ToParent)][e.childWrite := Writing(ToParent)]
      && (forall k: nat :: k < e.childRead ==> k in t)
  {
    var (t1, childRead, parentWrite) := OpenPipe(t, ToChild);
    var (t2, parentRead, childWrite) := OpenPipe(t1, ToParent);
    (t2, Ends(childRead, parentWrite, parentRead, childWrite))
  }

  // ---------- the two sides ----------

  const SETUP := 6

  /** The child's table after its first n calls. */
  function ChildTable(t: Table, e: Ends, n: nat): Table
    requires n <= SETUP
  {
    if n == 0 then t
    else
      var before := ChildTable(t, e, n - 1);
      match n
      case 1 => Close(before, e.parentWrite)
      case 2 => Close(before, e.parentRead)
      case 3 => Dup2(before, e.childRead, 0)
      case 4 => Close(before, e.childRead)
      case 5 => Dup2(before, e.childWrite, 1)
      case _ => Close(before, e.childWrite)
  }

  /** Nothing that was open before the pipes is an end of one. */
  ghost predicate NoPipes(t: Table) {
    forall fd :: fd in t ==> t[fd] == Other
  }

  /** stdin and stdout are the child's ends of the pipes, and it holds no other end. */
  ghost predicate Wired(t: Table) {
    && 0 in t && t[0] == Reading(ToChild) && 1 in t && t[1] == Writing(ToParent)
    && forall fd :: fd in t && fd > 1 ==> t[fd] == Other
  }

  /** The child starts its program on the pipes exactly when descriptor 0 was open at the start; else
      CHILD_READ is 0 itself and the close after dup2 takes stdin away again. */
  lemma ChildWired(t: Table)
    requires NoPipes(t)
    ensures Wired(ChildTable(Forked(t).0, Forked(t).1, SETUP)) <==> 0 in t
  {
    var (f, e) := Forked(t);
    var t2 := ChildTable(f, e, 2);
    assert t2 == f - {e.parentWrite} - {e.parentRead} by {
      assert ChildTable(f, e, 1) == f - {e.parentWrite};
    }
    var t4 := ChildTable(f, e, 4);
    assert t4 == Close(Dup2(t2, e.childRead, 0), e.childRead) by {
      assert ChildTable(f, e, 3) == Dup2(t2, e.childRead, 0);
    }
    assert ChildTable(f, e, 5) == Dup2(t4, e.childWrite, 1);
    assert ChildTable(f, e, 6) == Close(Dup2(t4, e.childWrite, 1), e.childWrite);
    if 0 in t {
      assert e.childRead > 0;
    } else {
      assert e.childRead == 0;
    }
  }

  /** Until its program runs, the child always holds a write end of the pipe to the parent; after its
      first call it holds none of the pipe to itself. */
  lemma ChildHolds(t: Table, n: nat)
    requires NoPipes(t) && 0 in t && n <= SETUP
    ensures Holds(ChildTable(Forked(t).0, Forked(t).1, n), Writing(ToParent))
    ensures n > 0 ==> !Holds(ChildTable(Forked(t).0, Forked(t).1, n), Writing(ToChild))
  {
    var (f, e) := Forked(t);
    assert e.childRead > 0;
    if n == 0 {
      assert f[e.childWrite] == Writing(ToParent);
    } else {
      ChildHolds(t, n - 1);
      if n <= 5 {
        ChildKeepsWrite(t, n);
        assert ChildTable(f, e, n)[e.childWrite] == Writing(ToParent);
      } else {
        ChildWired(t);
        assert ChildTable(f, e, n)[1] == Writing(ToParent);
      }
    }
  }

  lemma {:induction false} ChildKeepsWrite(t: Table, n: nat)
    requires NoPipes(t) && 0 in t && n <= 5
    ensures var c := ChildTable(Forked(t).0, Forked(t).1, n); var w := Forked(t).1.childWrite;
      w in c && c[w] == Writing(ToParent)
  {
    if n > 0 {
      ChildKeepsWrite(t, n - 1);
    }
  }

  /** The parent's table after its first n of: close CHILD_READ, close CHILD_WRITE (unless that call is
      dropped), the read loop, fclose on PARENT_READ, close PARENT_WRITE, close PARENT_READ and exit. */
  function ParentTable(t: Table, e: Ends, closesChildWrite: bool, n: nat): Table
    requires n <= 6
  {
    if n == 0 then t
    else
      var before := ParentTable(t, e, closesChildWrite, n - 1);
      match n
      case 1 => Close(before, e.childRead)
      case 2 => if closesChildWrite then Close(before, e.childWrite) else before
      case 3 => before
      case 4 => Close(before, e.parentRead)
      case 5 => Close(before, e.parentWrite)
      case _ => map[]
  }

  lemma ParentHolds(t: Table, closesChildWrite: bool, n: nat)
    requires NoPipes(t) && n <= 6
    ensures var p := ParentTable(Forked(t).0, Forked(t).1, closesChildWrite, n);
      && (Holds(p, Writing(ToParent)) <==> n < 2 || (n < 6 && !closesChildWrite))
      && (Holds(p, Writing(ToChild)) <==> n < 5)
      && (Holds(p, Reading(ToParent)) <==> n < 4)
      && (Holds(p, Reading(ToChild)) <==> n < 1)
  {
    var (f, e) := Forked(t);
    ParentEntries(f, e, closesChildWrite, n);
    var p := ParentTable(f, e, closesChildWrite, n);
    assert n < 2 || (n < 6 && !closesChildWrite) ==> p[e.childWrite] == Writing(ToParent);
    assert n < 5 ==> p[e.parentWrite] == Writing(ToChild);
    assert n < 4 ==> p[e.parentRead] == Reading(ToParent);
    assert n < 1 ==> p[e.childRead] == Reading(ToChild);
  }

  /** Once the parent has closed CHILD_WRITE and the child has finished its calls, the child's stdout is
      the only write end of the pipe to the parent. */
  lemma OnlyWriteEnd(t: Table, n: nat)
    requires NoPipes(t) && 0 in t && 2 <= n <= 6
    ensures !Holds(ParentTable(Forked(t).0, Forked(t).1, true, n), Writing(ToParent))
    ensures var c := ChildTable(Forked(t).0, Forked(t).1, SETUP);
      forall fd :: fd in c && c[fd] == Writing(ToParent) <==> fd == 1
  {
    ParentHolds(t, true, n);
    ChildWired(t);
  }

  function ClosedEnds(e: Ends, closesChildWrite: bool, n: nat): set<nat> {
    (if n >= 1 then {e.childRead} else {}) + (if n >= 2 && closesChildWrite then {e.childWrite} else {})
    + (if n >= 4 then {e.parentRead} else {}) + (if n >= 5 then {e.parentWrite} else {})
  }

  /** Until it exits, the parent's table is the forked one without the ends closed so far. */
  lemma {:induction false} ParentEntries(f: Table, e: Ends, closesChildWrite: bool, n: nat)
    requires n <= 6
    ensures ParentTable(f, e, closesChildWrite, n) == if n == 6 then map[] else f - ClosedEnds(e, closesChildWrite, n)
  {
    if n > 0 {
      ParentEntries(f, e, closesChildWrite, n - 1);
    }
  }
}
