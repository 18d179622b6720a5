/** The event loop of poll_socket.c over a small contract of the kernel calls it makes. */
module PollServer {
  import opened Options
  import opened PollSpec
  import opened PollWorld

  const EWOULDBLOCK := 11
  const SLOTS := 32

  datatype PollFd = PollFd(fd: int, events: int, revents: int)

  /** The kernel as its contracts describe it; callers know nothing else about the answers.
      `clients` and `chunks` bound what can still happen, so one object stands for every finite run. */
  class Kernel {
    var open: map<int, nat>  // open descriptors and the connection behind each
    var conns: seq<Conn>     // all connections, in order of acceptance
    var pending: nat         // connections queued on the listener
    var clients: nat         // connections that can still be accepted
    var chunks: nat          // chunks that can still arrive
    var reports: seq<seq<int>>  // what each poll reported, slot by slot; nothing if it failed
    var broken: bool         // the last poll failed, or the last accept failed and would not block

    ghost predicate Valid()
      reads this
    {
      pending <= clients && Consistent(open, conns)
    }

    /** Fills revents of the first nfds entries with any flags, and with none on a timeout. */
    method Poll(fds: array<PollFd>, nfds: nat) returns (rc: int)
      requires Valid() && nfds <= fds.Length
      requires forall i :: 0 <= i < nfds ==> fds[i].fd in open && fds[i].events == POLLIN
      modifies fds, this`pending, this`reports, this`broken
      ensures Valid() && old(pending) <= pending && (broken <==> rc < 0)
      ensures reports == old(reports) + [if rc < 0 then [] else Revents(fds[..nfds])]
      ensures forall i :: 0 <= i < fds.Length ==> fds[i].fd == old(fds[i].fd) && fds[i].events == old(fds[i].events)
      ensures rc == 0 ==> forall i :: 0 <= i < nfds ==> fds[i].revents == 0
    {
      pending, broken := clients, *;
      if broken {
        reports := reports + [[]];
        return -1;
      }
      var quiet: bool := *;
      for i := 0 to nfds
        modifies fds
        invariant forall k :: 0 <= k < fds.Length ==> fds[k].fd == old(fds[k].fd) && fds[k].events == old(fds[k].events)
        invariant quiet ==> forall k :: 0 <= k < i ==> fds[k].revents == 0
      {
        var flags: int := *;
        fds[i] := fds[i].(revents := if quiet then 0 else flags);
      }
      rc := if quiet then 0 else nfds;
      if rc == 0 && !quiet {
        rc := 1;
      }
      reports := reports + [Revents(fds[..nfds])];
    }

    /** Takes one queued connection, on a descriptor that was not open. More may queue up meanwhile. */
    method Accept(ghost listener: int) returns (fd: int, errno: int)
      requires Valid() && listener in open
      modifies this
      ensures Valid() && chunks == old(chunks) && reports == old(reports)
      ensures broken <==> fd < 0 && errno != EWOULDBLOCK
      ensures fd < 0 ==> fd == -1 && open == old(open) && conns == old(conns) && clients == old(clients)
      ensures fd < 0 && errno == EWOULDBLOCK ==> pending == 0
      ensures fd >= 0 ==> fd !in old(open) && open == old(open)[fd := |old(conns)|]
      ensures fd >= 0 ==> conns == old(conns) + [NewConn(fd)] && clients + 1 == old(clients)
    {
      fd, errno, broken := *, *, false;
      if pending == 0 {
        return -1, EWOULDBLOCK;
      }
      if fd < 0 || fd in open {
        broken := true;
        return -1, EWOULDBLOCK + 1;
      }
      open := open[fd := |conns|];
      conns := conns + [NewConn(fd)];
      pending, clients := pending - 1, clients - 1;
    }

    /** Puts at least one byte and at most the whole buffer, or reports end of stream or an error. */
    method Recv(fd: int, buffer: array<Byte>) returns (rc: int, errno: int)
      requires Valid() && fd in open
      modifies this`conns, this`chunks, buffer
      ensures Valid() && rc <= buffer.Length
      ensures rc <= 0 ==> chunks == old(chunks)
      ensures rc <= 0 ==> conns == old(conns)[open[fd] := RanDry(old(conns[open[fd]]), rc == 0 || errno != EWOULDBLOCK)]
      ensures rc > 0 ==> chunks < old(chunks)
      ensures rc > 0 ==>
        var c := old(conns[open[fd]]);
        conns == old(conns)[open[fd] := c.(received := c.received + [buffer[..rc]])]
      ensures forall k :: (if rc < 0 then 0 else rc) <= k < buffer.Length ==> buffer[k] == old(buffer[k])
    {
      rc, errno := *, *;
      if chunks == 0 || rc > buffer.Length {
        rc, errno := -1, EWOULDBLOCK;
      }
      var id := open[fd];
      if rc <= 0 {
        conns := conns[id := RanDry(conns[id], rc == 0 || errno != EWOULDBLOCK)];
        return;
      }
      for i := 0 to rc
        modifies buffer
        invariant forall k :: i <= k < buffer.Length ==> buffer[k] == old(buffer[k])
      {
        buffer[i] := *;
      }
      chunks := chunks - 1;
      conns := conns[id := conns[id].(received := conns[id].received + [buffer[..rc]])];
    }

    /** Takes some of the bytes, possibly not all of them, or fails. What it was offered is recorded. */
    method Send(fd: int, bytes: seq<Byte>) returns (rc: int)
      requires Valid() && fd in open
      modifies this`conns
      ensures Valid() && rc <= |bytes|
      ensures
        var c := old(conns[open[fd]]);
        var c' := c.(offered := c.offered + [bytes]);
        conns == old(conns)[open[fd] := if rc < 0 then c'.(over := true) else c'.(sent := c.sent + [bytes[..rc]])]
    {
      rc := *;
      if rc > |bytes| {
        rc := -1;
      }
      var id := open[fd];
      var c := conns[id];
      c := c.(offered := c.offered + [bytes]);
      conns := conns[id := if rc < 0 then c.(over := true) else c.(sent := c.sent + [bytes[..rc]])];
    }

    method Close(fd: int)
      requires Valid() && fd in open
      modifies this`open, this`conns
      ensures Valid()
      ensures open == old(open) - {fd}
      ensures conns == old(conns)[old(open[fd]) := old(conns[open[fd]]).(closes := 1)]
    {
      var id := open[fd];
      conns := conns[id := conns[id].(closes := conns[id].closes + 1)];
      open := open - {fd};
    }
  }

  function Fds(table: seq<PollFd>): (r: seq<int>)
    ensures |r| == |table| && forall i :: 0 <= i < |r| ==> r[i] == table[i].fd
  {
    seq(|table|, i requires 0 <= i < |table| => table[i].fd)
  }

  function Revents(table: seq<PollFd>): (r: seq<int>)
    ensures |r| == |table| && forall i :: 0 <= i < |r| ==> r[i] == table[i].revents
  {
    seq(|table|, i requires 0 <= i < |table| => table[i].revents)
  }

  datatype Verdict = Keep | Drop | Overrun

  /** One connection, c before, as reading and echoing leaves it: open, up to date and read dry; to be
      closed; or past a chunk on which strlen is undefined. */
  ghost predicate Served(c: Conn, c': Conn, verdict: Verdict) {
    match verdict
    case Keep => Echoed(c') && !c'.over && c'.dry > c.dry
    case Drop => Echoed(c') && c'.over
    case Overrun => Unterminated(c')
  }

  ghost predicate Unterminated(c: Conn) {
    c.received != [] && StrLen(c.received[|c.received| - 1]) == BUFFER_SIZE
  }

  /** The zeroed rest of the buffer terminates a short chunk. */
  lemma BufferedStrLen(buffer: seq<Byte>, rc: nat)
    requires rc <= |buffer| && (forall k :: rc <= k < |buffer| ==> buffer[k] == NUL)
    ensures StrLen(buffer[..rc]) == StrLen(buffer) <= rc
  {
    var n, chunk := StrLen(buffer), buffer[..rc];
    if rc < |buffer| {
      StrLenAtMost(buffer, rc);
    }
    assert chunk[..n] == buffer[..n];
    StrLenUnique(chunk, n);
  }

  /** So the string in the buffer, with its NUL, is the chunk's echo. */
  lemma BufferedEcho(buffer: seq<Byte>, chunk: seq<Byte>, n: nat)
    requires chunk <= buffer && n == StrLen(chunk) < |buffer| && buffer[n] == NUL
    ensures buffer[..n + 1] == Echo(chunk)
  {
    assert chunk[..n] == buffer[..n];
  }

  lemma CutOut(live: seq<int>, i: nat, shorter: seq<int>)
    requires i < |live| == |shorter| + 1
    requires forall k :: 0 <= k < i ==> shorter[k] == live[k]
    requires forall k :: i <= k < |shorter| ==> shorter[k] == live[k + 1]
    ensures shorter == live[..i] + live[i + 1..]
  {
    var rest := live[i + 1..];
    assert shorter[..i] == live[..i];
    forall k | 0 <= k < |rest| ensures shorter[i..][k] == rest[k] {
      assert shorter[i + k] == live[i + k + 1];
    }
  }

  /** How a run ends: through `out` after a failed poll or accept, in the undefined strlen of a full
      buffer without a NUL, or not yet. */
  datatype Ending = Running | PollFailed | AcceptFailed | Undefined

  /** The turns had the flags that poll reported, one poll a turn. */
  ghost predicate ReportedIn(turns: seq<Turn>, before: seq<seq<int>>, reports: seq<seq<int>>) {
    && before <= reports && |before| + |turns| <= |reports|
    && forall k :: 0 <= k < |turns| ==> turns[k].flags == reports[|before| + k]
  }

  predicate ListenerReported(flags: seq<int>) {
    flags != [] && flags[0] == POLLIN
  }

  class EventLoop {
    const kernel: Kernel
    const fds: array<PollFd>
    const buffer: array<Byte>
    const listenSd: int
    var nfds: nat
    var newSd: int
    ghost var drains: nat  // rounds in which accept was called

    ghost function Live(): (live: seq<int>)
      requires nfds <= fds.Length
      reads this, fds
      ensures |live| == nfds && forall i :: 0 <= i < nfds ==> live[i] == fds[i].fd
    {
      Fds(fds[..nfds])
    }

    ghost function Now(): World
      requires nfds <= fds.Length
      reads this, fds, kernel
    {
      World(Live(), kernel.open, kernel.conns)
    }

    /** The live slots wait for input, and the 32-slot table has room for every client that can still
        come, with one slot to spare for the compaction. */
    ghost predicate Shaped()
      reads this, kernel, fds
    {
      && fds.Length == SLOTS && buffer.Length == BUFFER_SIZE && kernel.pending <= kernel.clients
      && 1 <= nfds && nfds + kernel.clients < SLOTS && fds[0].fd == listenSd
      && (forall i :: 0 <= i < nfds ==> fds[i].events == POLLIN)
    }

    /** Between rounds, moreover, no live slot holds a tombstone, neither poll nor accept has failed, and
        accept was called in at most one round so far, in none unless new_sd is -1 now. */
    ghost predicate Valid()
      reads this, kernel, fds
    {
      Shaped() && Sound(Now()) && TOMBSTONE !in Live() && Latched() && !kernel.broken
    }

    /** What the code after `out` relies on. */
    ghost predicate Closable()
      reads this, kernel, fds
    {
      Shaped() && Sound(Now()) && TOMBSTONE !in Live()
    }

    ghost predicate Latched()
      reads this
    {
      drains == if newSd == -1 then 1 else 0
    }

    /** What poll reported, slot by slot; nothing but poll writes revents. */
    ghost predicate Reported(flags: seq<int>)
      reads fds
    {
      |flags| <= fds.Length && forall k :: 0 <= k < |flags| ==> fds[k].revents == flags[k]
    }

    ghost function Flags(): (flags: seq<int>)
      requires nfds <= fds.Length
      reads this, fds
      ensures |flags| == nfds && Reported(flags)
    {
      Revents(fds[..nfds])
    }

    constructor (kernel: Kernel, listenSd: int)
      requires kernel.Valid() && !kernel.broken && kernel.open == map[listenSd := 0] && |kernel.conns| == 1
      requires Faithful(kernel.conns[0]) && kernel.clients <= SLOTS - 2
      ensures Valid() && fresh(fds) && fresh(buffer)
      ensures this.kernel == kernel && nfds == 1 && newSd == 0
    {
      this.kernel, this.listenSd := kernel, listenSd;
      fds := new PollFd[SLOTS](_ => PollFd(0, 0, 0));
      buffer := new Byte[BUFFER_SIZE](_ => 0);
      nfds, newSd, drains := 1, 0, 0;
      new;
      fds[0] := PollFd(listenSd, POLLIN, 0);
      assert Live() == [listenSd];
    }

    /** One accept and, when it succeeds, the new slot at the end of the table. */
    method AcceptOne() returns (errno: int)
      requires Shaped() && Sound(Now())
      modifies this`newSd, this`nfds, kernel, fds
      ensures Shaped() && kernel.reports == old(kernel.reports)
      ensures kernel.broken <==> newSd < 0 && errno != EWOULDBLOCK
      ensures newSd < 0 ==> newSd == -1 && Now() == old(Now()) && (errno == EWOULDBLOCK ==> kernel.pending == 0)
      ensures newSd >= 0 ==> newSd !in old(kernel.open) && Now() == Accepted(old(Now()), newSd)
      ensures newSd >= 0 ==> kernel.clients < old(kernel.clients)
      ensures forall k :: 0 <= k < fds.Length ==> fds[k].revents == old(fds[k].revents)
    {
      ghost var live := Live();
      assert listenSd == live[0];
      newSd, errno := kernel.Accept(listenSd);
      if newSd >= 0 {
        fds[nfds] := fds[nfds].(fd := newSd, events := POLLIN);
        nfds := nfds + 1;
      }
      assert Live() == if newSd >= 0 then live + [newSd] else live;
    }

    /** Accepts until accept fails, but not at all once new_sd is -1. Fails unless the last answer was
        that accept would block. */
    method AcceptAll(ghost start: World, ghost flags: seq<int>) returns (failed: bool, ghost taken: seq<int>)
      requires Shaped() && InRound(start, flags, 0, Now()) && Reported(flags) && !kernel.broken
      modifies this, kernel, fds
      ensures Shaped() && Now() == AcceptedAll(old(Now()), taken)
      ensures nfds == old(nfds) + |taken| && |kernel.conns| == |old(kernel.conns)| + |taken|
      ensures InRound(start, flags, 0, Now()) && Reported(flags)
      ensures kernel.reports == old(kernel.reports) && (failed <==> kernel.broken)
      ensures old(newSd) == -1 ==>
        !failed && taken == [] && newSd == -1 && drains == old(drains) && kernel.pending == old(kernel.pending)
      ensures old(newSd) != -1 ==> newSd == -1 && drains == old(drains) + 1 && (failed || kernel.pending == 0)
    {
      hide Lists, Faithful, Consistent, Untouched, Handled;
      failed, taken := false, [];
      if newSd != -1 {
        drains := drains + 1;
      }
      while newSd != -1
        invariant Shaped() && Now() == AcceptedAll(old(Now()), taken)
        invariant nfds == old(nfds) + |taken| && |kernel.conns| == |old(kernel.conns)| + |taken|
        invariant InRound(start, flags, 0, Now()) && Reported(flags)
        invariant kernel.reports == old(kernel.reports) && !kernel.broken && !failed
        invariant old(newSd) == -1 ==>
          taken == [] && newSd == -1 && drains == old(drains) && kernel.pending == old(kernel.pending)
        invariant old(newSd) != -1 ==> newSd != -1 && drains == old(drains) + 1
        decreases kernel.clients
      {
        ghost var now := Now();
        var errno := AcceptOne();
        if newSd < 0 {
          failed := errno != EWOULDBLOCK;
          return;
        }
        RoundAccepts(start, flags, now, newSd);
        assert (taken + [newSd])[..|taken|] == taken;
        taken := taken + [newSd];
      }
    }

    /** The variant that clears new_sd first drains the backlog on every call. */
    method AcceptAllAfterReset(ghost start: World, ghost flags: seq<int>) returns (failed: bool, ghost taken: seq<int>)
      requires Shaped() && InRound(start, flags, 0, Now()) && Reported(flags) && !kernel.broken
      modifies this, kernel, fds
      ensures Shaped() && Now() == AcceptedAll(old(Now()), taken)
      ensures nfds == old(nfds) + |taken| && |kernel.conns| == |old(kernel.conns)| + |taken|
      ensures InRound(start, flags, 0, Now()) && Reported(flags)
      ensures (failed <==> kernel.broken) && (failed || kernel.pending == 0)
    {
      newSd := 0;
      failed, taken := AcceptAll(start, flags);
    }

    /** strlen on the buffer; without a NUL in it the C call would read on past its end. */
    method BufferStrLen() returns (n: nat)
      ensures n == StrLen(buffer[..])
    {
      n := 0;
      while n < buffer.Length && buffer[n] != NUL
        invariant n <= buffer.Length && NUL !in buffer[..n]
      {
        n := n + 1;
      }
      StrLenUnique(buffer[..], n);
    }

    /** Receives one chunk and echoes it; None when it did and there may be more. */
    method EchoOne(fd: int) returns (verdict: Option<Verdict>)
      requires kernel.Valid() && fd in kernel.open && buffer.Length == BUFFER_SIZE
      requires Echoed(kernel.conns[kernel.open[fd]]) && !kernel.conns[kernel.open[fd]].over
      modifies kernel`conns, kernel`chunks, buffer
      ensures kernel.Valid() && |kernel.conns| == |old(kernel.conns)|
      ensures kernel.conns == old(kernel.conns)[kernel.open[fd] := kernel.conns[kernel.open[fd]]]
      ensures verdict.None? ==> Echoed(kernel.conns[kernel.open[fd]]) && !kernel.conns[kernel.open[fd]].over
      ensures verdict.None? ==> kernel.chunks < old(kernel.chunks)
      ensures verdict.None? ==> kernel.conns[kernel.open[fd]].dry == old(kernel.conns[kernel.open[fd]].dry)
      ensures verdict.Some? ==> Served(old(kernel.conns[kernel.open[fd]]), kernel.conns[kernel.open[fd]], verdict.value)
    {
      hide StrLen, Echo, Echoed;
      forall k | 0 <= k < buffer.Length {
        buffer[k] := NUL;
      }
      ghost var c := kernel.conns[kernel.open[fd]];
      EchoedDry(c);
      var rc, errno := kernel.Recv(fd, buffer);
      if rc < 0 {
        return Some(if errno != EWOULDBLOCK then Drop else Keep);
      }
      if rc == 0 {
        return Some(Drop);
      }
      var n := BufferStrLen();
      BufferedStrLen(buffer[..], rc);
      assert buffer[..][..rc] == buffer[..rc];
      if n == buffer.Length {
        return Some(Overrun);
      }
      BufferedEcho(buffer[..], buffer[..rc], n);
      EchoedNext(c, buffer[..rc]);
      rc := kernel.Send(fd, buffer[..n + 1]);
      return if rc < 0 then Some(Drop) else None;
    }

    /** Receives and echoes chunks until there is no more input or the connection is over. */
    method ReadAndEcho(fd: int) returns (verdict: Verdict)
      requires kernel.Valid() && fd in kernel.open && buffer.Length == BUFFER_SIZE
      requires Echoed(kernel.conns[kernel.open[fd]]) && !kernel.conns[kernel.open[fd]].over
      modifies kernel`conns, kernel`chunks, buffer
      ensures kernel.Valid() && |kernel.conns| == |old(kernel.conns)|
      ensures kernel.conns == old(kernel.conns)[kernel.open[fd] := kernel.conns[kernel.open[fd]]]
      ensures Served(old(kernel.conns[kernel.open[fd]]), kernel.conns[kernel.open[fd]], verdict)
    {
      while true
        invariant kernel.Valid() && |kernel.conns| == |old(kernel.conns)|
        invariant kernel.conns == old(kernel.conns)[kernel.open[fd] := kernel.conns[kernel.open[fd]]]
        invariant Echoed(kernel.conns[kernel.open[fd]]) && !kernel.conns[kernel.open[fd]].over
        invariant kernel.conns[kernel.open[fd]].dry == old(kernel.conns[kernel.open[fd]].dry)
        decreases kernel.chunks
      {
        var answer := EchoOne(fd);
        if answer.Some? {
          return answer.value;
        }
      }
    }

    /** One readable connection: echo, and when it is over close it and leave a tombstone in its slot. */
    method Serve(i: nat) returns (verdict: Verdict, ghost c: Conn)
      requires Shaped() && Sound(Now()) && 0 < i < nfds && fds[i].fd in kernel.open
      modifies kernel`conns, kernel`chunks, kernel`open, buffer, fds
      ensures Shaped() && c.fd == old(fds[i].fd) && c.closes == 0
      ensures Served(old(kernel.conns[kernel.open[fds[i].fd]]), c, verdict)
      ensures verdict == Drop ==> Now() == Dropped(old(Now()), i, c)
      ensures verdict != Drop ==> Now() == Continued(old(Now()), i, c)
      ensures |kernel.conns| == |old(kernel.conns)|
      ensures forall k :: 0 <= k < fds.Length ==> fds[k].revents == old(fds[k].revents)
    {
      ghost var live := Live();
      var fd := fds[i].fd;
      verdict := ReadAndEcho(fd);
      c := kernel.conns[kernel.open[fd]];
      if verdict == Drop {
        kernel.Close(fd);
        fds[i] := fds[i].(fd := TOMBSTONE);
      }
      assert Live() == if verdict == Drop then live[i := TOMBSTONE] else live;
    }

    /** Moves the fd values of all later slots one slot down; events and revents stay where they are. */
    method ShiftDown(i: nat)
      requires i < nfds < fds.Length
      modifies fds
      ensures forall k :: i <= k < nfds ==> fds[k].fd == old(fds[k + 1].fd)
      ensures forall k :: 0 <= k < i || nfds <= k < fds.Length ==> fds[k] == old(fds[k])
      ensures forall k :: 0 <= k < fds.Length ==> fds[k] == old(fds[k]).(fd := fds[k].fd)
    {
      var j := i;
      while j < nfds
        invariant i <= j <= nfds
        invariant forall k :: i <= k < j ==> fds[k].fd == old(fds[k + 1].fd)
        invariant forall k :: 0 <= k < i || j <= k < fds.Length ==> fds[k] == old(fds[k])
        invariant forall k :: 0 <= k < fds.Length ==> fds[k] == old(fds[k]).(fd := fds[k].fd)
      {
        fds[j] := fds[j].(fd := fds[j + 1].fd);
        j := j + 1;
      }
    }

    /** Takes slot i out of the table; the stale slot behind the live range never gets into it. */
    method RemoveSlot(i: nat)
      requires i < nfds < fds.Length
      modifies this`nfds, fds
      ensures nfds == old(nfds) - 1 && Live() == old(Live())[..i] + old(Live())[i + 1..]
      ensures forall k :: 0 <= k < fds.Length ==> fds[k] == old(fds[k]).(fd := fds[k].fd)
    {
      ghost var live := Live();
      ShiftDown(i);
      nfds := nfds - 1;
      ghost var shorter := Live();
      assert forall k :: i <= k < |shorter| ==> shorter[k] == live[k + 1];
      CutOut(live, i, shorter);
    }

    /** Removes the tombstones in place. The body steps i back, yet nfds - i falls on every turn. */
    method Compact()
      requires nfds < fds.Length
      modifies this`nfds, fds
      ensures nfds <= old(nfds) && Live() == Surviving(old(Live()))
      ensures forall k :: 0 <= k < fds.Length ==> fds[k] == old(fds[k]).(fd := fds[k].fd)
    {
      var i: int := 0;
      while i < nfds
        invariant 0 <= i <= nfds <= old(nfds)
        invariant forall k :: 0 <= k < fds.Length ==> fds[k] == old(fds[k]).(fd := fds[k].fd)
        invariant TOMBSTONE !in Live()[..i]
        invariant Surviving(Live()) == Surviving(old(Live()))
        decreases nfds - i
      {
        ghost var live := Live();
        assert live[..i + 1] == live[..i] + [live[i]];
        if fds[i].fd == TOMBSTONE {
          SurvivingDrop(live, i);
          RemoveSlot(i);
          assert Live()[..i] == live[..i];
          i := i - 1;
        }
        i := i + 1;
      }
      assert Live()[..i] == Live();
      SurvivingAll(Live());
    }

    /** Compaction ends the round with a valid table. */
    method Settle()
      requires Shaped() && Sound(Now()) && Latched() && !kernel.broken
      modifies this`nfds, fds
      ensures Valid() && nfds <= old(nfds)
      ensures forall k :: 0 <= k < fds.Length ==> fds[k].revents == old(fds[k].revents)
    {
      ghost var now := Now();
      CompactedSound(now);
      Compact();
      assert Now() == now.(live := Surviving(now.live));
      assert fds[0].fd == Live()[0] == now.live[0] by {
        assert now.live[0] in now.live;
      }
    }

    /** The body of the for loop over the slots poll knew of. The listener comes first, so accept can
        only fail while there is no tombstone. */
    method ServeSlot(i: nat, ghost start: World, ghost flags: seq<int>) returns (ending: Ending)
      requires Shaped() && Latched() && i < |flags|
      requires InRound(start, flags, i, Now()) && Reported(flags) && !kernel.broken
      modifies this, kernel, fds, buffer
      ensures kernel.reports == old(kernel.reports) && (ending == AcceptFailed <==> kernel.broken)
      ensures Shaped() && Latched() && Reported(flags) && ending != PollFailed
      ensures ending == Running ==> InRound(start, flags, i + 1, Now())
      ensures ending == AcceptFailed ==> InRound(start, flags, 0, Now()) && flags[0] == POLLIN && old(newSd) != -1
      ensures ending == Undefined ==> exists c :: c in kernel.conns && Unterminated(c)
      ensures |old(kernel.conns)| <= |kernel.conns|
      ensures if i == 0 && flags[0] == POLLIN && old(newSd) != -1
        then newSd == -1 && (ending == AcceptFailed || kernel.pending == 0)
        else (newSd == old(newSd) && nfds == old(nfds)
              && |kernel.conns| == |old(kernel.conns)| && kernel.pending == old(kernel.pending))
    {
      hide Sound, InRound, Faithful, Consistent;
      ending := Running;
      ghost var now := Now();
      RoundFacts(start, flags, i, now);
      assert fds[0].fd == now.live[0];
      if fds[i].revents != POLLIN {
        if i > 0 {
          RoundSkips(start, flags, i, now);
        }
      } else if fds[i].fd == listenSd {
        assert i == 0;
        var failed, taken := AcceptAll(start, flags);
        ending := if failed then AcceptFailed else Running;
      } else {
        var verdict, c := Serve(i);
        match verdict
        case Keep => RoundEchoes(start, flags, i, now, c);
        case Drop => RoundDrops(start, flags, i, now, c);
        case Overrun =>
          assert kernel.conns[Behind(now, i)] == c;
          ending := Undefined;
      }
      if ending == AcceptFailed || (i == 0 && ending == Running) {
        RoundFacts(start, flags, 0, Now());
      }
      if i == 0 && ending == Running {
        RoundPassesListener(start, flags, Now());
      }
    }

    /** The for loop over the slots poll knew of: a connection accepted meanwhile is not read yet. */
    method ServeSlots(ghost flags: seq<int>) returns (ending: Ending)
      requires Valid() && |flags| == nfds && Reported(flags)
      modifies this, kernel, fds, buffer
      ensures kernel.reports == old(kernel.reports) && (ending == AcceptFailed <==> kernel.broken)
      ensures Shaped() && Latched() && Reported(flags) && ending != PollFailed
      ensures ending == Running ==> InRound(old(Now()), flags, |flags|, Now())
      ensures ending == AcceptFailed ==>
        InRound(old(Now()), flags, 0, Now()) && flags[0] == POLLIN && old(newSd) != -1
      ensures ending == Undefined ==> exists c :: c in kernel.conns && Unterminated(c)
      ensures |old(kernel.conns)| <= |kernel.conns|
      ensures if flags[0] == POLLIN && old(newSd) != -1
        then newSd == -1 && (ending == Running ==> kernel.pending == 0)
        else (newSd == old(newSd) && nfds == old(nfds)
              && |kernel.conns| == |old(kernel.conns)| && kernel.pending == old(kernel.pending))
    {
      ghost var start := Now();
      RoundStarts(start, flags);
      var currentSize := nfds;
      var i := 0;
      while i < currentSize
        invariant 0 <= i <= currentSize == |flags| && Shaped() && Latched() && Reported(flags)
        invariant InRound(start, flags, i, Now()) && kernel.reports == old(kernel.reports) && !kernel.broken
        invariant if i > 0 && flags[0] == POLLIN && old(newSd) != -1
          then newSd == -1 && kernel.pending == 0
          else (newSd == old(newSd) && nfds == old(nfds)
                && |kernel.conns| == |old(kernel.conns)| && kernel.pending == old(kernel.pending))
      {
        ending := ServeSlot(i, start, flags);
        if ending != Running {
          return;
        }
        i := i + 1;
      }
      ending := Running;
    }

    /** The call of poll: every live slot names an open descriptor and waits for input. */
    method PollSlots() returns (rc: int)
      requires Valid()
      modifies fds, kernel`pending, kernel`reports, kernel`broken
      ensures Shaped() && Now() == old(Now()) && old(kernel.pending) <= kernel.pending && (kernel.broken <==> rc < 0)
      ensures kernel.reports == old(kernel.reports) + [if rc < 0 then [] else Flags()]
    {
      ghost var live := Live();
      assert forall k :: 0 <= k < nfds ==> live[k] in live;
      rc := kernel.Poll(fds, nfds);
      assert Live() == live;
    }

    /** One turn of the server loop. Exactly the connections reported readable are read, each until recv
        has no more or it is closed. A readable listener is drained, if accept never failed before. */
    method Round() returns (ending: Ending, ghost turn: Turn)
      requires Valid()
      modifies this, kernel, fds, buffer
      ensures turn.before == old(Now()) && turn.newSd == old(newSd)
      ensures kernel.reports == old(kernel.reports) + [turn.flags]
      ensures ending == Running ==> Valid() && Serves(turn)
      ensures ending == Running ==>
        turn.after == Now() && turn.newSdAfter == newSd && turn.pending == kernel.pending
      ensures ending == PollFailed || ending == AcceptFailed ==> Closable()
      ensures ending == PollFailed || ending == AcceptFailed <==> kernel.broken
      ensures ending == PollFailed ==> Now() == old(Now()) && turn.flags == []
      ensures ending == AcceptFailed ==> ListenerReported(turn.flags) && old(newSd) != -1
      ensures ending == AcceptFailed ==>
        old(kernel.conns) <= kernel.conns && Untouched(kernel.conns[|old(kernel.conns)|..])
      ensures ending == Undefined ==> exists c :: c in kernel.conns && Unterminated(c)
      ensures |kernel.conns| >= |old(kernel.conns)| && drains <= 1
      ensures old(newSd) == -1 ==> newSd == -1 && nfds <= old(nfds) && |kernel.conns| == |old(kernel.conns)|
      ensures old(newSd) == -1 ==> old(kernel.pending) <= kernel.pending
    {
      hide Sound, InRound, Faithful, Consistent, Serves;
      ghost var start, sd := Now(), newSd;
      var rc := PollSlots();
      if rc < 0 {
        return PollFailed, Turn(start, [], start, sd, sd, kernel.pending);
      }
      ghost var flags := Flags();
      ending := ServeSlots(flags);
      if ending == AcceptFailed {
        RoundFacts(start, flags, 0, Now());
        RoundOnlyAccepted(start, flags, Now());
      }
      if ending == Running {
        ghost var served := Now();
        RoundEnds(start, flags, served);
        Settle();
        turn := Turn(start, flags, Now(), sd, newSd, kernel.pending);
        RoundServed(turn, served);
      } else {
        turn := Turn(start, flags, start, sd, sd, 0);
      }
    }

    /** The code after `out`: the guard on the descriptor is always true. */
    method CloseAll()
      requires Closable()
      modifies kernel`open, kernel`conns
      ensures kernel.open == map[] && |kernel.conns| == |old(kernel.conns)| && AllClosedOnce(kernel.conns)
      ensures forall id :: 0 <= id < |kernel.conns| ==> kernel.conns[id] == old(kernel.conns[id]).(closes := 1)
    {
      hide OnlyClosed, AllClosedOnce;
      ghost var live, before := Live(), kernel.conns;
      assert live[0..] == live;
      assert OnlyClosed(before, kernel.conns) by {
        OnlyClosedStart(before);
      }
      var i := 0;
      while i < nfds
        invariant 0 <= i <= nfds && kernel.pending <= kernel.clients
        invariant Closing(live[i..], kernel.open, kernel.conns) && OnlyClosed(before, kernel.conns)
      {
        assert fds[i].fd == live[i..][0] && live[i] in live && live[i..][1..] == live[i + 1..];
        ClosingStep(live[i..], kernel.open, kernel.conns);
        OnlyClosedStep(before, kernel.conns, kernel.open[live[i]]);
        assert fds[i].fd >= 0;
        if fds[i].fd >= 0 {
          kernel.Close(fds[i].fd);
        }
        i := i + 1;
      }
      ClosingEnds(live[i..], kernel.open, kernel.conns);
      OnlyClosedEnds(before, kernel.conns);
    }

    /** The server for a given number of turns. `turns` are the completed ones, which lead to `last` and
        new_sd to `sd`; after a failure all connections are closed as they were then. */
    method Run(rounds: nat) returns (ending: Ending, ghost turns: seq<Turn>, ghost last: World, ghost sd: int)
      requires Valid()
      modifies this, kernel, fds, buffer
      ensures Leads(turns, old(Now()), old(newSd), last, sd)
      ensures ReportedIn(turns, old(kernel.reports), kernel.reports)
      ensures |kernel.reports| == |old(kernel.reports)| + |turns| + if ending == Running then 0 else 1
      ensures ending == Running ==> |turns| == rounds && Valid() && last == Now() && sd == newSd
      ensures ending == PollFailed || ending == AcceptFailed <==> kernel.broken
      ensures kernel.broken ==> kernel.open == map[] && AllClosedOnce(kernel.conns) && Shut(last.conns, kernel.conns)
      ensures ending == PollFailed ==> |kernel.conns| == |last.conns|
      ensures ending == AcceptFailed ==> sd != -1 && ListenerReported(kernel.reports[|kernel.reports| - 1])
      ensures ending == Undefined ==> exists c :: c in kernel.conns && Unterminated(c)
      ensures drains <= 1
      ensures old(newSd) == -1 ==> nfds <= old(nfds) && |kernel.conns| == |old(kernel.conns)|
      ensures old(newSd) == -1 ==> old(kernel.pending) <= kernel.pending
    {
      hide Leads, Serves, Faithful, Consistent, Sound;
      ending, turns, last, sd := Running, [], Now(), newSd;
      NoTurns(last, sd);
      for n := 0 to rounds
        invariant ending == Running && Valid() && |turns| == n && last == Now() && sd == newSd
        invariant Leads(turns, old(Now()), old(newSd), last, sd)
        invariant ReportedIn(turns, old(kernel.reports), kernel.reports)
        invariant |kernel.reports| == |old(kernel.reports)| + n
        invariant old(newSd) == -1 ==> newSd == -1 && nfds <= old(nfds) && |kernel.conns| == |old(kernel.conns)|
        invariant old(newSd) == -1 ==> old(kernel.pending) <= kernel.pending
      {
        ghost var turn;
        ending, turn := Round();
        if ending == Undefined {
          return;
        }
        if ending != Running {
          CloseAll();
          return;
        }
        LeadsOn(turns, old(Now()), old(newSd), turn);
        turns, last, sd := turns + [turn], Now(), newSd;
      }
    }
  }

  /** Nothing is open but the listener, on which one client is queued; accept has failed before. */
  method OneClient() returns (loop: EventLoop)
    ensures fresh(loop) && fresh(loop.kernel) && fresh(loop.fds) && fresh(loop.buffer) && loop.Valid()
    ensures loop.nfds == 1 && loop.newSd == -1 && loop.kernel.pending == 1 && |loop.kernel.conns| == 1
  {
    var kernel := new Kernel;
    kernel.open, kernel.conns := map[3 := 0], [NewConn(3)];
    kernel.pending, kernel.clients, kernel.broken := 1, 1, false;
    loop := new EventLoop(kernel, 3);
    loop.newSd, loop.drains := -1, 1;
  }

  /** Once accept would have blocked, a client that connects stays in the queue although poll reports
      the listener readable. */
  method ClientIgnored() returns (readable: bool, waiting: nat, kernel: Kernel)
    ensures readable && waiting == kernel.pending == 1 && |kernel.conns| == 1
  {
    var loop := OneClient();
    kernel := loop.kernel;
    ghost var live := loop.Live();
    loop.fds[0] := loop.fds[0].(revents := POLLIN);
    assert loop.Live() == live;
    var ending := loop.ServeSlots([POLLIN]);
    readable, waiting := loop.fds[0].revents == POLLIN, kernel.pending;
  }
}
