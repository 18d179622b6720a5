/** What the poll server of poll_socket.c is meant to do, on plain values: the descriptor table as a
    sequence of fd values, and the bytes echoed to one client. */
module PollSpec {
  import opened Sequences

  newtype Byte = b: int | 0 <= b < 0x100

  const NUL: Byte := 0

  /** The fd value that marks a closed connection until the table is compacted. */
  const TOMBSTONE := -1

  // ---------- the descriptor table ----------

  /** The table lists every open descriptor exactly once; its other entries are tombstones. */
  ghost predicate Lists(live: seq<int>, open: set<int>) {
    && (forall i, j :: 0 <= i < j < |live| && live[i] != TOMBSTONE ==> live[i] != live[j])
    && (forall fd :: fd in open <==> fd in live && fd != TOMBSTONE)
  }

  /** The entries that survive compaction, in their old order. */
  function Surviving(live: seq<int>): (kept: seq<int>)
    ensures |kept| <= |live|
    ensures forall fd :: fd in kept <==> fd in live && fd != TOMBSTONE
  {
    if live == [] then []
    else if live[0] == TOMBSTONE then Surviving(live[1..])
    else [live[0]] + Surviving(live[1..])
  }

  /** Shifting a tombstone out of the table loses no survivor and keeps their order. */
  lemma {:induction false} SurvivingDrop(live: seq<int>, i: nat)
    requires i < |live| && live[i] == TOMBSTONE
    ensures Surviving(live[..i] + live[i + 1..]) == Surviving(live)
  {
    var shifted := live[..i] + live[i + 1..];
    if i == 0 {
      assert shifted == live[1..];
    } else {
      SurvivingDrop(live[1..], i - 1);
      assert shifted[1..] == live[1..][..i - 1] + live[1..][i..];
    }
  }

  lemma {:induction false} SurvivingAll(live: seq<int>)
    requires TOMBSTONE !in live
    ensures Surviving(live) == live
  {
    if live != [] {
      SurvivingAll(live[1..]);
    }
  }

  /** Compaction keeps the table exact and leaves no tombstone in it. */
  lemma {:induction false} SurvivingLists(live: seq<int>, open: set<int>)
    requires Lists(live, open)
    ensures Lists(Surviving(live), open) && TOMBSTONE !in Surviving(live)
  {
    if live != [] {
      var rest := live[1..];
      assert live == [live[0]] + rest;
      if live[0] == TOMBSTONE {
        assert Lists(rest, open);
        SurvivingLists(rest, open);
      } else {
        assert live[0] !in rest;
        assert Lists(rest, open - {live[0]});
        SurvivingLists(rest, open - {live[0]});
      }
    }
  }

  /** Appending a descriptor that was not open keeps the table exact. */
  lemma ListsAppend(live: seq<int>, open: set<int>, fd: int)
    requires Lists(live, open) && fd !in open && fd >= 0
    ensures Lists(live + [fd], open + {fd})
  {
    var longer := live + [fd];
    forall d ensures d in open + {fd} <==> d in longer && d != TOMBSTONE {
      assert d in longer <==> d in live || d == fd;
    }
  }

  /** Closing the descriptor of one slot and putting a tombstone there keeps the table exact. */
  lemma ListsBury(live: seq<int>, open: set<int>, i: nat)
    requires Lists(live, open) && i < |live| && live[i] != TOMBSTONE
    ensures Lists(live[i := TOMBSTONE], open - {live[i]})
  {
    var after := live[i := TOMBSTONE];
    forall d ensures d in open - {live[i]} <==> d in after && d != TOMBSTONE {
      if d in live && d != TOMBSTONE && d != live[i] {
        var k :| 0 <= k < |live| && live[k] == d;
        assert after[k] == d;
      }
      if d in after && d != TOMBSTONE {
        var k :| 0 <= k < |after| && after[k] == d;
        assert live[k] == d;
      }
    }
  }

  /** Closing the descriptor of the first slot leaves the others. */
  lemma ListsFirst(live: seq<int>, open: set<int>)
    requires Lists(live, open) && live != [] && live[0] != TOMBSTONE
    ensures live[0] in open && Lists(live[1..], open - {live[0]})
  {
    assert live == [live[0]] + live[1..];
  }

  // ---------- the bytes echoed to one client ----------

  /** The length of the C string at the start of s: the index of its first NUL, or |s| without one. */
  function StrLen(s: seq<Byte>): (n: nat)
    ensures n <= |s| && NUL !in s[..n] && (n < |s| ==> s[n] == NUL)
  {
    if s == [] || s[0] == NUL then 0 else 1 + StrLen(s[1..])
  }

  lemma {:induction false} StrLenUnique(s: seq<Byte>, n: nat)
    requires n <= |s| && NUL !in s[..n] && (n < |s| ==> s[n] == NUL)
    ensures n == StrLen(s)
  {
    if s != [] && s[0] != NUL {
      assert n > 0;
      assert s[1..][..n - 1] == s[..n][1..];
      StrLenUnique(s[1..], n - 1);
    }
  }

  lemma StrLenAtMost(s: seq<Byte>, k: nat)
    requires k < |s| && s[k] == NUL
    ensures StrLen(s) <= k
  {
    var n := StrLen(s);
    assert forall j :: 0 <= j < n ==> s[j] == s[..n][j];
  }

  /** What the server sends back for one received chunk when the whole send succeeds. */
  function Echo(chunk: seq<Byte>): seq<Byte> {
    chunk[..StrLen(chunk)] + [NUL]
  }

  function Flatten(parts: seq<seq<Byte>>): seq<Byte> {
    if parts == [] then [] else parts[0] + Flatten(parts[1..])
  }

  function Echoes(chunks: seq<seq<Byte>>): (r: seq<seq<Byte>>)
    ensures |r| == |chunks| && forall k :: 0 <= k < |r| ==> r[k] == Echo(chunks[k])
  {
    seq(|chunks|, k requires 0 <= k < |chunks| => Echo(chunks[k]))
  }

  function StripNul(s: seq<Byte>): seq<Byte> {
    if s == [] then []
    else if s[0] == NUL then StripNul(s[1..])
    else [s[0]] + StripNul(s[1..])
  }

  lemma {:induction false} StripNulAppend(a: seq<Byte>, b: seq<Byte>)
    ensures StripNul(a + b) == StripNul(a) + StripNul(b)
  {
    if a == [] {
      assert a + b == b;
    } else {
      StripNulAppend(a[1..], b);
      assert (a + b)[1..] == a[1..] + b;
      AppendAssoc([a[0]], StripNul(a[1..]), StripNul(b));
    }
  }

  lemma {:induction false} StripNulClean(s: seq<Byte>)
    requires NUL !in s
    ensures StripNul(s) == s
  {
    if s != [] {
      StripNulClean(s[1..]);
    }
  }

  lemma StripNulEcho(chunk: seq<Byte>)
    ensures StripNul(Echo(chunk)) == chunk[..StrLen(chunk)]
  {
    var text := chunk[..StrLen(chunk)];
    StripNulAppend(text, [NUL]);
    StripNulClean(text);
  }

  /** A client that drops the NULs gets back at most the bytes it sent, and one NUL came per chunk. */
  lemma {:induction false} EchoLengths(chunks: seq<seq<Byte>>)
    ensures |StripNul(Flatten(Echoes(chunks)))| <= |Flatten(chunks)|
    ensures |Flatten(Echoes(chunks))| == |StripNul(Flatten(Echoes(chunks)))| + |chunks|
  {
    if chunks != [] {
      var head, tail := chunks[0], chunks[1..];
      assert Echoes(chunks)[1..] == Echoes(tail);
      StripNulAppend(Echo(head), Flatten(Echoes(tail)));
      StripNulEcho(head);
      EchoLengths(tail);
    }
  }

  /** Dropping the NULs from the echo gives back the client's bytes exactly when the client sent none. */
  lemma {:induction false} EchoRoundTrip(chunks: seq<seq<Byte>>)
    ensures StripNul(Flatten(Echoes(chunks))) == Flatten(chunks)
            <==> (forall k :: 0 <= k < |chunks| ==> NUL !in chunks[k])
  {
    if chunks != [] {
      var head, tail := chunks[0], chunks[1..];
      assert Echoes(chunks)[1..] == Echoes(tail);
      StripNulAppend(Echo(head), Flatten(Echoes(tail)));
      StripNulEcho(head);
      EchoRoundTrip(tail);
      EchoLengths(tail);
      var n := StrLen(head);
      var back := StripNul(Flatten(Echoes(tail)));
      assert StripNul(Flatten(Echoes(chunks))) == head[..n] + back;
      if n == |head| {
        assert head[..n] == head;
        if head + back == head + Flatten(tail) {
          assert back == (head + back)[n..] == Flatten(tail);
        }
        assert forall k :: 1 <= k < |chunks| ==> chunks[k] == tail[k - 1];
        assert forall k :: 0 <= k < |tail| ==> tail[k] == chunks[k + 1];
      } else {
        assert NUL in chunks[0];
      }
    }
  }
}
