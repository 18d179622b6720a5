/** The state of poll_socket.c as a value: which descriptors the table lists, which are open, and what
    happened on every connection. Each event of a round is a function on it; what they keep is proved here. */
module PollWorld {
  import opened PollSpec

  const BUFFER_SIZE := 64

  const POLLIN := 1

  /** Everything that ever happened on one connection (or on the listener, connection 0): the descriptor
      it was given, how often it was closed, the chunks received, what each send was offered and what each
      send that did not fail took of it, how often recv had nothing more to give, and whether it is over:
      recv reported end of stream or an error, or send failed. */
  datatype Conn = Conn(fd: int, closes: nat, received: seq<seq<Byte>>, offered: seq<seq<Byte>>,
                       sent: seq<seq<Byte>>, dry: nat, over: bool)

  function NewConn(fd: int): Conn {
    Conn(fd, 0, [], [], [], 0, false)
  }

  /** recv had nothing more to give, and the connection may be over. */
  function RanDry(c: Conn, over: bool): Conn {
    c.(dry := c.dry + 1, over := c.over || over)
  }

  /** The fd values of the live slots, the open descriptors with the connection behind each, and all
      connections in order of acceptance. */
  datatype World = World(live: seq<int>, open: map<int, nat>, conns: seq<Conn>)

  /** A descriptor is open exactly as long as its connection has not been closed. */
  ghost predicate Consistent(open: map<int, nat>, conns: seq<Conn>) {
    && (forall fd :: fd in open ==>
      0 <= fd && open[fd] < |conns| && conns[open[fd]].fd == fd && conns[open[fd]].closes == 0)
    && (forall id :: 0 <= id < |conns| ==> conns[id].closes <= 1)
    && (forall id :: 0 <= id < |conns| && conns[id].closes == 0 ==> conns[id].fd in open && open[conns[id].fd] == id)
  }

  /** Each chunk in order was answered by one send, which was offered the whole echo; only the last send
      can have failed, and then the connection is over. No chunk fills the buffer without a NUL. */
  ghost predicate Echoed(c: Conn) {
    && |c.offered| == |c.received| && |c.sent| <= |c.offered| <= |c.sent| + (if c.over then 1 else 0)
    && (forall k :: 0 <= k < |c.received| ==> StrLen(c.received[k]) < BUFFER_SIZE)
    && (forall k :: 0 <= k < |c.offered| ==> c.offered[k] == Echo(c.received[k]))
    && (forall k :: 0 <= k < |c.sent| ==> c.sent[k] <= c.offered[k])
  }

  /** Moreover a connection that is over has been closed. */
  ghost predicate Faithful(c: Conn) {
    Echoed(c) && (c.over ==> c.closes == 1)
  }

  /** One more chunk is answered by offering its whole echo; the kernel takes a prefix of it, or send fails
      and the connection is over. */
  lemma EchoedNext(c: Conn, chunk: seq<Byte>)
    requires Echoed(c) && !c.over && StrLen(chunk) < BUFFER_SIZE
    ensures var c' := c.(received := c.received + [chunk], offered := c.offered + [Echo(chunk)]);
      Echoed(c'.(over := true)) && forall part :: part <= Echo(chunk) ==> Echoed(c'.(sent := c.sent + [part]))
  {
    hide Echo, StrLen;
  }

  /** A recv without data changes nothing of that, whether the connection is then over or not. */
  lemma EchoedDry(c: Conn)
    requires Echoed(c)
    ensures forall over :: Echoed(RanDry(c, over))
  {
    assert forall over :: RanDry(c, over).received == c.received && RanDry(c, over).sent == c.sent
                          && RanDry(c, over).offered == c.offered;
  }

  /** Slot 0 is the open listener, the table lists the open descriptors, every echo is faithful. */
  ghost predicate Sound(w: World) {
    && Consistent(w.open, w.conns) && Lists(w.live, w.open.Keys)
    && w.live != [] && w.live[0] in w.open && w.open[w.live[0]] == 0
    && (forall id :: 0 <= id < |w.conns| ==> Faithful(w.conns[id]))
  }

  ghost predicate AllClosedOnce(conns: seq<Conn>) {
    forall c :: c in conns ==> c.closes == 1 && Faithful(c)
  }

  // ---------- the events ----------

  /** accept returned fd. */
  function Accepted(w: World, fd: int): World {
    World(w.live + [fd], w.open[fd := |w.conns|], w.conns + [NewConn(fd)])
  }

  function AcceptedAll(w: World, taken: seq<int>): (w': World)
    ensures |w'.live| == |w.live| + |taken| && |w'.conns| == |w.conns| + |taken|
  {
    if taken == [] then w
    else Accepted(AcceptedAll(w, taken[..|taken| - 1]), taken[|taken| - 1])
  }

  /** The connection of slot i went on to be c. */
  function Continued(w: World, i: nat, c: Conn): World
    requires i < |w.live| && w.live[i] in w.open && w.open[w.live[i]] < |w.conns|
  {
    w.(conns := w.conns[w.open[w.live[i]] := c])
  }

  /** The connection of slot i went on to be c and was closed. */
  function Dropped(w: World, i: nat, c: Conn): World
    requires i < |w.live| && w.live[i] in w.open && w.open[w.live[i]] < |w.conns|
  {
    World(w.live[i := TOMBSTONE], w.open - {w.live[i]}, w.conns[w.open[w.live[i]] := c.(closes := 1)])
  }

  // ---------- what they keep ----------

  lemma AcceptedSound(w: World, fd: int)
    requires Sound(w) && fd >= 0 && fd !in w.open
    ensures Sound(Accepted(w, fd))
  {
    var w' := Accepted(w, fd);
    ListsAppend(w.live, w.open.Keys, fd);
    assert w'.open.Keys == w.open.Keys + {fd};
    assert w.live[0] in w.open && Faithful(NewConn(fd));
    hide Faithful, Echoed, Lists;
  }

  lemma ContinuedSound(w: World, i: nat, c: Conn)
    requires Sound(w) && i < |w.live| && w.live[i] in w.open
    requires Faithful(c) && c.fd == w.live[i] && c.closes == 0
    ensures Sound(Continued(w, i, c))
  {
  }

  lemma DroppedSound(w: World, i: nat, c: Conn)
    requires Sound(w) && 0 < i < |w.live| && w.live[i] in w.open
    requires Echoed(c) && c.fd == w.live[i]
    ensures Sound(Dropped(w, i, c))
  {
    var w' := Dropped(w, i, c);
    ListsBury(w.live, w.open.Keys, i);
    assert w'.open.Keys == w.open.Keys - {w.live[i]};
    assert w.live[0] != w.live[i];
  }

  lemma CompactedSound(w: World)
    requires Sound(w)
    ensures Sound(w.(live := Surviving(w.live))) && TOMBSTONE !in Surviving(w.live)
  {
    SurvivingLists(w.live, w.open.Keys);
  }

  // ---------- one round ----------

  /** Nothing happened on these connections since they were accepted. */
  ghost predicate Untouched(conns: seq<Conn>) {
    forall c :: c in conns ==> c == NewConn(c.fd)
  }

  /** The listener and the closed connections are as they were. */
  ghost predicate Settled(before: seq<Conn>, after: seq<Conn>) {
    |before| <= |after|
    && forall id :: 0 <= id < |before| && (id == 0 || before[id].closes == 1) ==> after[id] == before[id]
  }

  /** The connection behind slot k. */
  ghost function Behind(w: World, k: nat): (id: nat)
    requires Sound(w) && k < |w.live| && w.live[k] != TOMBSTONE
    ensures id < |w.conns| && w.conns[id].fd == w.live[k] && w.conns[id].closes == 0 && w.live[k] in w.open
  {
    assert w.live[k] in w.live;
    w.open[w.live[k]]
  }

  /** What a round owes a connection: one that poll reported readable is read until recv has no more, and
      closed exactly when it is over; any other is left alone. */
  ghost predicate Handled(flags: int, before: Conn, after: Conn) {
    if flags == POLLIN then (after.closes == 1 <==> after.over) && (after.over || after.dry > before.dry)
    else after == before
  }

  /** When slot i is next in a round that began in `start`, with `flags` from poll: the slots before i
      are handled, the slots from i on are as poll left them, and so are the listener, what was closed
      earlier and what was accepted since. Until slot 0 has been served there is no tombstone. */
  ghost predicate InRound(start: World, flags: seq<int>, i: nat, w: World) {
    && Sound(start) && TOMBSTONE !in start.live && |flags| == |start.live|
    && Sound(w) && (i == 0 ==> TOMBSTONE !in w.live)
    && i <= |start.live| <= |w.live| && Settled(start.conns, w.conns)
    && Untouched(w.conns[|start.conns|..])
    && (forall k :: i <= k < |start.live| ==>
      && w.live[k] == start.live[k] && w.open[w.live[k]] == Behind(start, k)
      && w.conns[Behind(start, k)] == start.conns[Behind(start, k)])
    && (forall k :: 0 < k < i ==> Handled(flags[k], start.conns[Behind(start, k)], w.conns[Behind(start, k)]))
  }

  lemma RoundStarts(w: World, flags: seq<int>)
    requires Sound(w) && TOMBSTONE !in w.live && |flags| == |w.live|
    ensures InRound(w, flags, 0, w)
  {
  }

  /** Different slots have different connections. */
  lemma BehindDistinct(w: World, j: nat, k: nat)
    requires Sound(w) && TOMBSTONE !in w.live && j < |w.live| && k < |w.live| && j != k
    ensures Behind(w, j) != Behind(w, k)
  {
  }

  lemma RoundFacts(start: World, flags: seq<int>, i: nat, w: World)
    requires InRound(start, flags, i, w) && i < |flags|
    ensures Sound(start) && Sound(w) && (i == 0 ==> TOMBSTONE !in w.live) && |start.conns| <= |w.conns|
    ensures i < |w.live| && w.live[i] != TOMBSTONE && w.live[i] in w.open && (w.live[i] == w.live[0] <==> i == 0)
  {
  }

  lemma RoundEnds(start: World, flags: seq<int>, w: World)
    requires InRound(start, flags, |flags|, w)
    ensures Sound(start) && Sound(w) && Settled(start.conns, w.conns) && Untouched(w.conns[|start.conns|..])
    ensures |flags| == |start.live| && TOMBSTONE !in start.live
    ensures forall k :: 0 < k < |flags| ==> Handled(flags[k], start.conns[Behind(start, k)], w.conns[Behind(start, k)])
  {
  }

  /** Until slot 0 has been served the round has done nothing but accept. */
  lemma RoundOnlyAccepted(start: World, flags: seq<int>, w: World)
    requires InRound(start, flags, 0, w)
    ensures start.conns <= w.conns && Untouched(w.conns[|start.conns|..])
  {
    forall id | 0 <= id < |start.conns| ensures w.conns[id] == start.conns[id] {
      var fd := start.conns[id].fd;
      if start.conns[id].closes == 0 {
        assert fd in start.open.Keys && fd in start.live;
        var k :| 0 <= k < |start.live| && start.live[k] == fd;
        assert Behind(start, k) == id;
      }
    }
  }

  lemma UntouchedAppend(before: seq<Conn>, conns: seq<Conn>, fd: int)
    requires Settled(before, conns) && Untouched(conns[|before|..])
    ensures Settled(before, conns + [NewConn(fd)]) && Untouched((conns + [NewConn(fd)])[|before|..])
  {
    assert (conns + [NewConn(fd)])[|before|..] == conns[|before|..] + [NewConn(fd)];
  }

  lemma SlotsAccept(start: World, flags: seq<int>, w: World, fd: int)
    requires InRound(start, flags, 0, w) && fd >= 0 && fd !in w.open
    ensures var w' := Accepted(w, fd);
      && TOMBSTONE !in w'.live && |start.live| <= |w'.live|
      && forall k :: 0 <= k < |start.live| ==>
        && w'.live[k] == start.live[k] && w'.live[k] in w'.open && w'.open[w'.live[k]] == Behind(start, k)
        && w'.conns[Behind(start, k)] == start.conns[Behind(start, k)]
  {
    var w' := Accepted(w, fd);
    forall k | 0 <= k < |start.live| ensures w'.live[k] == w.live[k] && w.live[k] in w.open {
      assert w.live[k] in w.live;
    }
    hide Settled, Untouched, Handled;
  }

  lemma RoundAccepts(start: World, flags: seq<int>, w: World, fd: int)
    requires InRound(start, flags, 0, w) && fd >= 0 && fd !in w.open
    ensures InRound(start, flags, 0, Accepted(w, fd))
  {
    AcceptedSound(w, fd);
    UntouchedAppend(start.conns, w.conns, fd);
    SlotsAccept(start, flags, w, fd);
    hide Sound, Handled, Settled, Untouched;
  }

  /** Nothing but slot i and its connection differs. */
  ghost predicate OnlySlot(w: World, i: nat, w': World)
    requires Sound(w) && i < |w.live| && w.live[i] != TOMBSTONE
  {
    && |w'.conns| == |w.conns| && (forall id :: 0 <= id < |w.conns| && id != Behind(w, i) ==>
      w'.conns[id] == w.conns[id])
    && |w'.live| == |w.live| && (forall k :: 0 <= k < |w.live| && k != i ==> w'.live[k] == w.live[k])
    && (forall fd :: fd in w.open && fd != w.live[i] ==> fd in w'.open && w'.open[fd] == w.open[fd])
  }

  /** Serving slot i changes its own connection only, so the rest of the round is not disturbed. */
  lemma RoundServes(start: World, flags: seq<int>, i: nat, w: World, w': World)
    requires InRound(start, flags, i, w) && 0 < i < |flags| && Sound(w') && OnlySlot(w, i, w')
    requires Handled(flags[i], start.conns[Behind(start, i)], w'.conns[Behind(start, i)])
    ensures InRound(start, flags, i + 1, w')
  {
    SettledServes(start, flags, i, w, w');
    hide Sound, Handled, Untouched, OnlySlot, Lists, Consistent, Settled;
    OtherConnections(start, flags, i, w, w');
    LaterSlots(start, flags, i, w, w');
  }

  lemma SettledServes(start: World, flags: seq<int>, i: nat, w: World, w': World)
    requires InRound(start, flags, i, w) && 0 < i < |flags| && OnlySlot(w, i, w')
    ensures Settled(start.conns, w'.conns)
  {
    BehindDistinct(start, 0, i);
    assert Behind(w, i) == Behind(start, i) && Behind(start, 0) == 0;
  }

  lemma OtherConnections(start: World, flags: seq<int>, i: nat, w: World, w': World)
    requires InRound(start, flags, i, w) && i < |flags| && OnlySlot(w, i, w')
    ensures |w'.conns| == |w.conns| && |w'.live| == |w.live| && w'.conns[|start.conns|..] == w.conns[|start.conns|..]
    ensures forall k :: 0 <= k < |flags| && k != i ==> w'.conns[Behind(start, k)] == w.conns[Behind(start, k)]
  {
    forall k | 0 <= k < |flags| && k != i ensures w'.conns[Behind(start, k)] == w.conns[Behind(start, k)] {
      BehindDistinct(start, i, k);
    }
  }

  lemma LaterSlots(start: World, flags: seq<int>, i: nat, w: World, w': World)
    requires InRound(start, flags, i, w) && i < |flags| && OnlySlot(w, i, w')
    ensures forall k :: i < k < |flags| ==>
      w'.live[k] == start.live[k] && w'.live[k] in w'.open && w'.open[w'.live[k]] == Behind(start, k)
  {
    forall k | i < k < |flags|
      ensures w'.live[k] == start.live[k] && w'.live[k] in w'.open && w'.open[w'.live[k]] == Behind(start, k)
    {
      assert w.live[k] in w.live && w.live[k] != w.live[i];
    }
  }

  lemma ContinuedOnlySlot(w: World, i: nat, c: Conn)
    requires Sound(w) && i < |w.live| && w.live[i] != TOMBSTONE
    ensures w.live[i] in w.open && OnlySlot(w, i, Continued(w, i, c)) && Continued(w, i, c).conns[Behind(w, i)] == c
  {
    assert w.live[i] in w.live;
  }

  lemma RoundEchoes(start: World, flags: seq<int>, i: nat, w: World, c: Conn)
    requires InRound(start, flags, i, w) && 0 < i < |flags| && flags[i] == POLLIN
    requires Echoed(c) && !c.over && c.fd == w.live[i] && c.closes == 0 && c.dry > w.conns[Behind(w, i)].dry
    ensures InRound(start, flags, i + 1, Continued(w, i, c))
  {
    ContinuedSound(w, i, c);
    ContinuedOnlySlot(w, i, c);
    hide Sound, OnlySlot;
    RoundServes(start, flags, i, w, Continued(w, i, c));
  }

  lemma DroppedOnlySlot(w: World, i: nat, c: Conn)
    requires Sound(w) && i < |w.live| && w.live[i] != TOMBSTONE
    ensures w.live[i] in w.open && OnlySlot(w, i, Dropped(w, i, c))
    ensures Dropped(w, i, c).conns[Behind(w, i)] == c.(closes := 1)
  {
    assert w.live[i] in w.live;
  }

  lemma RoundDrops(start: World, flags: seq<int>, i: nat, w: World, c: Conn)
    requires InRound(start, flags, i, w) && 0 < i < |flags| && flags[i] == POLLIN
    requires Echoed(c) && c.over && c.fd == w.live[i]
    ensures InRound(start, flags, i + 1, Dropped(w, i, c))
  {
    DroppedSound(w, i, c);
    DroppedOnlySlot(w, i, c);
    RoundServes(start, flags, i, w, Dropped(w, i, c));
  }

  lemma RoundSkips(start: World, flags: seq<int>, i: nat, w: World)
    requires InRound(start, flags, i, w) && 0 < i < |flags| && flags[i] != POLLIN
    ensures InRound(start, flags, i + 1, w)
  {
    RoundServes(start, flags, i, w, w);
  }

  /** The listener is never read, and after slot 0 the round goes on with slot 1. */
  lemma RoundPassesListener(start: World, flags: seq<int>, w: World)
    requires InRound(start, flags, 0, w)
    ensures InRound(start, flags, 1, w)
  {
  }

  // ---------- the turns of a run ----------

  /** One completed turn: the world before it, what poll reported, the world after it, new_sd before and
      after, and how many clients were then left in the queue. */
  datatype Turn = Turn(before: World, flags: seq<int>, after: World, newSd: int, newSdAfter: int, pending: nat)

  /** Each connection reported readable was handled and all others left alone; a readable listener was
      drained, unless new_sd was -1; otherwise nobody was accepted. The table is exact before and after. */
  ghost predicate Serves(turn: Turn) {
    var before, after, flags := turn.before, turn.after, turn.flags;
    && Sound(before) && TOMBSTONE !in before.live && Sound(after) && TOMBSTONE !in after.live
    && |flags| == |before.live| && Settled(before.conns, after.conns)
    && (forall k :: 0 < k < |flags| ==>
      Handled(flags[k], before.conns[Behind(before, k)], after.conns[Behind(before, k)]))
    && Untouched(after.conns[|before.conns|..])
    && (if flags[0] == POLLIN && turn.newSd != -1 then turn.newSdAfter == -1 && turn.pending == 0
        else turn.newSdAfter == turn.newSd && |after.conns| == |before.conns|)
  }

  /** What is left of a round when compaction has changed the table only. */
  lemma RoundServed(turn: Turn, w: World)
    requires InRound(turn.before, turn.flags, |turn.flags|, w) && turn.after.conns == w.conns
    requires Sound(turn.after) && TOMBSTONE !in turn.after.live
    requires turn.flags != [] &&
      if turn.flags[0] == POLLIN && turn.newSd != -1 then turn.newSdAfter == -1 && turn.pending == 0
      else turn.newSdAfter == turn.newSd && |w.conns| == |turn.before.conns|
    ensures Serves(turn)
  {
    RoundEnds(turn.before, turn.flags, w);
    hide Sound, Settled, Untouched, Handled, InRound;
  }

  /** These turns follow each other from one state of the world and of new_sd to another. */
  ghost predicate Leads(turns: seq<Turn>, first: World, newSd: int, last: World, newSdLast: int) {
    && (forall k :: 0 <= k < |turns| ==> Serves(turns[k]))
    && (forall k :: 0 < k < |turns| ==>
      turns[k].before == turns[k - 1].after && turns[k].newSd == turns[k - 1].newSdAfter)
    && (if turns == [] then last == first && newSdLast == newSd
        else var n := |turns| - 1;
          && turns[0].before == first && turns[0].newSd == newSd
          && turns[n].after == last && turns[n].newSdAfter == newSdLast)
  }

  lemma NoTurns(world: World, newSd: int)
    ensures Leads([], world, newSd, world, newSd)
  {
  }

  lemma LeadsOn(turns: seq<Turn>, first: World, newSd: int, turn: Turn)
    requires Leads(turns, first, newSd, turn.before, turn.newSd) && Serves(turn)
    ensures Leads(turns + [turn], first, newSd, turn.after, turn.newSdAfter)
  {
    hide Serves;
  }

  /** The connections after `out`: those of the last turn, and those accepted since, all closed. */
  ghost predicate Shut(last: seq<Conn>, conns: seq<Conn>) {
    |last| <= |conns| && forall id :: 0 <= id < |conns| ==>
      conns[id] == (if id < |last| then last[id] else NewConn(conns[id].fd)).(closes := 1)
  }

  // ---------- the final close ----------

  /** What is left to close is exactly what is open. */
  ghost predicate Closing(left: seq<int>, open: map<int, nat>, conns: seq<Conn>) {
    Consistent(open, conns) && Lists(left, open.Keys) && forall id :: 0 <= id < |conns| ==> Faithful(conns[id])
  }

  /** Nothing but closing happened. */
  ghost predicate OnlyClosed(before: seq<Conn>, conns: seq<Conn>) {
    |conns| == |before| && forall id :: 0 <= id < |conns| ==> conns[id] == before[id].(closes := conns[id].closes)
  }

  lemma OnlyClosedStart(conns: seq<Conn>)
    ensures OnlyClosed(conns, conns)
  {
  }

  lemma OnlyClosedStep(before: seq<Conn>, conns: seq<Conn>, id: nat)
    requires OnlyClosed(before, conns) && id < |conns|
    ensures OnlyClosed(before, conns[id := conns[id].(closes := 1)])
  {
  }

  lemma OnlyClosedEnds(before: seq<Conn>, conns: seq<Conn>)
    requires OnlyClosed(before, conns) && AllClosedOnce(conns)
    ensures |conns| == |before| && forall id :: 0 <= id < |conns| ==> conns[id] == before[id].(closes := 1)
  {
    assert forall id :: 0 <= id < |conns| ==> conns[id] in conns;
  }

  lemma ClosingStep(left: seq<int>, open: map<int, nat>, conns: seq<Conn>)
    requires Closing(left, open, conns) && left != [] && left[0] != TOMBSTONE
    ensures left[0] in open && open[left[0]] < |conns|
    ensures Closing(left[1..], open - {left[0]}, conns[open[left[0]] := conns[open[left[0]]].(closes := 1)])
  {
    ListsFirst(left, open.Keys);
    assert (open - {left[0]}).Keys == open.Keys - {left[0]};
  }

  lemma ClosingEnds(left: seq<int>, open: map<int, nat>, conns: seq<Conn>)
    requires Closing(left, open, conns) && left == []
    ensures open == map[] && AllClosedOnce(conns)
  {
    assert forall fd :: fd !in open.Keys;
  }

  // ---------- what a client gets back ----------

  /** The kernel took all it was offered by each send that did not fail. */
  ghost predicate TookAll(c: Conn)
    requires |c.sent| <= |c.offered|
  {
    forall k :: 0 <= k < |c.sent| ==> c.sent[k] == c.offered[k]
  }

  /** When the kernel takes all it is offered, a client gets each of its answered chunks back followed by
      one NUL, in order; without the NULs these are the bytes it sent exactly when it sent no NUL itself.
      Only a connection that is over can have a chunk unanswered, and then one. */
  lemma ClientGetsItsBytes(c: Conn)
    requires Faithful(c) && TookAll(c)
    ensures |c.sent| <= |c.received| <= |c.sent| + (if c.over then 1 else 0)
    ensures var answered := c.received[..|c.sent|];
      && c.sent == Echoes(answered)
      && |Flatten(c.sent)| == |StripNul(Flatten(c.sent))| + |answered|
      && (StripNul(Flatten(c.sent)) == Flatten(answered) <==> forall k :: 0 <= k < |answered| ==> NUL !in answered[k])
  {
    var answered := c.received[..|c.sent|];
    forall k | 0 <= k < |answered| ensures c.sent[k] == Echo(answered[k]) {
      assert c.sent[k] == c.offered[k];
    }
    EchoLengths(answered);
    EchoRoundTrip(answered);
  }
}
