/** The loop of work_as_server in socket_tcp.c that looks for an address to listen on. */
module AddressSelection {
  datatype Family = Inet | Inet6 | Other

  /** One entry of the list, and how inet_ntop, socket, setsockopt and bind answer for it. */
  datatype Entry = Entry(family: Family, ntopOk: bool, socketOk: bool, setsockoptOk: bool, bindOk: bool)

  /** exit(1) inside the loop; the list exhausted; or rp at an entry. */
  datatype Outcome = Exited | NotFound | Selected(rp: nat)

  /** The loop ends the process: an unknown family, or an address that cannot be printed. */
  predicate Aborts(e: Entry) {
    e.family == Other || !e.ntopOk
  }

  /** The loop stops at this entry: bound, or through the break after setsockopt. */
  predicate Stops(e: Entry) {
    !Aborts(e) && e.family == Inet6 && e.socketOk && (!e.setsockoptOk || e.bindOk)
  }

  /** Nothing earlier stopped the loop: an IPv4 entry, or an IPv6 entry on which socket or bind failed. */
  ghost predicate Reached(entries: seq<Entry>, i: nat)
    requires i <= |entries|
  {
    forall k :: 0 <= k < i ==>
      var e := entries[k];
      e.ntopOk && (e.family == Inet || (e.family == Inet6 && (!e.socketOk || (e.setsockoptOk && !e.bindOk))))
  }

  /** A descriptor that is not open. */
  method Socket(open: map<int, nat>, ok: bool) returns (fd: int)
    ensures if ok then fd >= 0 && fd !in open else fd == -1
  {
    fd := -1;
    if ok {
      fd := 0;
      ghost var left := open.Keys;
      while fd in open
        invariant fd >= 0 && left <= open.Keys && forall k :: k in open && k >= fd ==> k in left
        decreases left
      {
        left := left - {fd};
        fd := fd + 1;
      }
    }
  }

  /** `open` are the sockets the loop opened and did not close, with the entry each was opened for; bound
      says whether the last bind succeeded on sfd. */
  method Select(entries: seq<Entry>) returns (outcome: Outcome, sfd: int, open: map<int, nat>, bound: bool)
    ensures outcome.Selected? <==> exists i :: 0 <= i < |entries| && Reached(entries, i) && Stops(entries[i])
    ensures outcome == Exited <==> exists i :: 0 <= i < |entries| && Reached(entries, i) && Aborts(entries[i])
    ensures outcome.Selected? ==> outcome.rp < |entries| && Reached(entries, outcome.rp) && Stops(entries[outcome.rp])
    ensures outcome.Selected? ==> open == map[sfd := outcome.rp] && (bound <==> entries[outcome.rp].setsockoptOk)
    ensures outcome == NotFound <==> forall k :: 0 <= k < |entries| ==> !Stops(entries[k]) && !Aborts(entries[k])
    ensures !outcome.Selected? ==> open == map[] && !bound
  {
    sfd, open, bound := -1, map[], false;
    var rp := 0;
    while rp < |entries|
      invariant 0 <= rp <= |entries| && Reached(entries, rp) && open == map[] && !bound
    {
      var e := entries[rp];
      if e.family == Other || !e.ntopOk {
        return Exited, sfd, open, bound;
      }
      if e.family != Inet {
        sfd := Socket(open, e.socketOk);
        if sfd != -1 {
          open := open[sfd := rp];
          if !e.setsockoptOk {
            return Selected(rp), sfd, open, bound;
          }
          if e.bindOk {
            bound := true;
            return Selected(rp), sfd, open, bound;
          }
          open := open - {sfd};
        }
      }
      rp := rp + 1;
    }
    outcome := NotFound;
  }
}
