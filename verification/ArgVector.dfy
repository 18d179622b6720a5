/** The argument vector of fork-pipe-exec.c: its copy loop and dealloc_all, with every allocation able to
    fail and every block tracked from calloc to free. */
module ArgVector {
  const WORDS_SIZE := 32
  const NUL := '\0'

  /** At most the first 31 characters. */
  function Clip(s: string): string {
    if |s| < WORDS_SIZE then s else s[..WORDS_SIZE - 1]
  }

  /** A block as calloc and strncpy leave it: the clipped argument and then only NULs. */
  function WordOf(s: string): (block: string)
    ensures |block| == WORDS_SIZE
  {
    Clip(s) + seq(WORDS_SIZE - |Clip(s)|, _ => NUL)
  }

  /** The C string in a block: everything before its first NUL. */
  function CString(block: string): string {
    if block == "" || block[0] == NUL then "" else [block[0]] + CString(block[1..])
  }

  lemma {:induction false} CStringPadded(text: string, pad: string)
    requires NUL !in text && pad != "" && pad[0] == NUL
    ensures CString(text + pad) == text
  {
    if text == "" {
      assert text + pad == pad;
    } else {
      assert (text + pad)[1..] == text[1..] + pad;
      CStringPadded(text[1..], pad);
    }
  }

  /** Every word reads as its argument, of which at most the first 31 characters are kept, and is filled up
      with at least one NUL. */
  lemma WordReadsAsClip(s: string)
    requires NUL !in s
    ensures CString(WordOf(s)) <= s && |CString(WordOf(s))| == if |s| < 31 then |s| else 31
    ensures forall k :: |CString(WordOf(s))| <= k < |WordOf(s)| ==> WordOf(s)[k] == NUL
  {
    CStringPadded(Clip(s), seq(WORDS_SIZE - |Clip(s)|, _ => NUL));
  }

  /** The blocks named by the slots. */
  ghost function Blocks(slots: seq<array?<char>>): set<object> {
    if slots == [] then {}
    else Blocks(slots[1..]) + if slots[0] == null then {} else {slots[0] as object}
  }

  ghost predicate Distinct(slots: seq<array?<char>>) {
    forall i, j :: 0 <= i < j < |slots| && slots[i] != null ==> slots[i] != slots[j]
  }

  lemma {:induction false} NotInBlocks(slots: seq<array?<char>>, block: object)
    requires forall k :: 0 <= k < |slots| && slots[k] != null ==> slots[k] as object != block
    ensures block !in Blocks(slots)
  {
    if slots != [] {
      NotInBlocks(slots[1..], block);
    }
  }

  lemma {:induction false} BlocksNone(slots: seq<array?<char>>)
    requires forall k :: 0 <= k < |slots| ==> slots[k] == null
    ensures Blocks(slots) == {}
  {
    if slots != [] {
      BlocksNone(slots[1..]);
    }
  }

  /** Filling an empty slot adds its block. */
  lemma {:induction false} BlocksFill(slots: seq<array?<char>>, i: nat, word: array<char>)
    requires i < |slots| && slots[i] == null
    ensures Blocks(slots[i := word]) == Blocks(slots) + {word as object}
  {
    if i == 0 {
      assert slots[0 := word][1..] == slots[1..];
    } else {
      BlocksFill(slots[1..], i - 1, word);
      assert slots[i := word][1..] == slots[1..][i - 1 := word];
    }
  }

  /** The set-up ends with the vector ready; or the process ends, in exit or in dealloc_all reading
      through a null args_dup. */
  datatype Outcome = Ready | Exited(status: nat) | NullDereference

  /** How a process with a vector ends: main returns; the handler collected the child; or fork, execvp or
      the handler's waitpid fails. */
  datatype Leaving = Returned | Collected | Failed

  /** main reports an error before it has a vector. */
  predicate NoVector(argc: nat, pipesOk: bool, vectorOk: bool) {
    argc < 2 || !pipesOk || !vectorOk
  }

  class Process {
    var argsDup: array?<array?<char>>
    var argcDup: nat
    var live: set<object>  // blocks allocated and not yet freed

    /** The vector, if any, has argc slots; it and its words are exactly the live blocks. */
    ghost predicate Valid()
      reads this, argsDup
    {
      if argsDup == null then live == {}
      else
        && argsDup.Length == argcDup && Distinct(argsDup[..])
        && live == {argsDup as object} + Blocks(argsDup[..])
    }

    constructor (argc: nat)
      ensures Valid() && argsDup == null && argcDup == argc
    {
      argsDup, argcDup, live := null, argc, {};
    }

    /** Each block can be freed only while it is live, so no block is freed twice. */
    method Free(block: object)
      requires block in live
      modifies this`live
      ensures live == old(live) - {block}
    {
      live := live - {block};
    }

    /** Frees every word and the vector; with no vector the loop reads through a null pointer, unless
        argc is 0. */
    method DeallocAll() returns (nullDereference: bool)
      requires Valid()
      modifies this`live
      ensures nullDereference <==> argsDup == null && argcDup > 0
      ensures live == {}
    {
      var i := 0;
      while i < argcDup
        invariant 0 <= i <= argcDup && argsDup == old(argsDup) && argcDup == old(argcDup)
        invariant argsDup == null ==> i == 0 && live == {}
        invariant argsDup != null ==> live == {argsDup as object} + Blocks(argsDup[i..])
      {
        if argsDup == null {
          return true;
        }
        assert argsDup[i..][1..] == argsDup[i + 1..];
        if argsDup[i] != null {
          NotInBlocks(argsDup[i + 1..], argsDup[i]);
          NotInBlocks(argsDup[i + 1..], argsDup);
          Free(argsDup[i]);
        }
        i := i + 1;
      }
      if argsDup != null {
        Free(argsDup);
      }
      nullDereference := false;
    }

    /** strncpy of at most n characters into a block of NULs. */
    method CopyInto(block: array<char>, s: string, n: nat)
      requires n < block.Length
      requires forall k :: 0 <= k < block.Length ==> block[k] == NUL
      modifies block
      ensures forall k :: 0 <= k < block.Length ==> block[k] == if k < n && k < |s| then s[k] else NUL
    {
      var k := 0;
      while k < n && k < |s|
        invariant 0 <= k <= n && k <= |s|
        invariant forall j :: 0 <= j < block.Length ==> block[j] == if j < k then s[j] else NUL
      {
        block[k] := s[k];
        k := k + 1;
      }
    }

    /** One turn of the copy loop whose calloc succeeds. */
    method CopyOne(slot: nat, arg: string)
      requires Valid() && argsDup != null && slot < argcDup && argsDup[slot] == null
      modifies this`live, argsDup
      ensures Valid() && argsDup[slot] != null && fresh(argsDup[slot]) && argsDup[slot][..] == WordOf(arg)
      ensures forall k :: 0 <= k < argcDup && k != slot ==> argsDup[k] == old(argsDup[k])
    {
      var word := new char[WORDS_SIZE](_ => NUL);
      CopyInto(word, arg, WORDS_SIZE - 1);
      assert word[..] == WordOf(arg);
      ghost var slots := argsDup[..];
      argsDup[slot] := word;
      live := live + {word};
      BlocksFill(slots, slot, word);
      assert argsDup[..] == slots[slot := word];
    }

    /** The allocations and the copy loop of main; the vector's calloc answers vectorOk, and the calloc
        for the word in slot failAt fails. */
    method CopyArgs(args: seq<string>, vectorOk: bool, failAt: nat) returns (ok: bool)
      requires Valid() && argsDup == null && argcDup == |args| >= 2
      modifies this`argsDup, this`live
      ensures Valid() && (argsDup == null <==> !vectorOk)
      ensures ok <==> vectorOk && failAt >= |args| - 1
      ensures ok ==> argsDup[|args| - 1] == null
      ensures ok ==> forall k :: 0 <= k < |args| - 1 ==> argsDup[k] != null && argsDup[k][..] == WordOf(args[k + 1])
    {
      if !vectorOk {
        return false;
      }
      argsDup := new array?<char>[|args|](_ => null);
      live := {argsDup as object};
      BlocksNone(argsDup[..]);
      var i := 1;
      while i < |args|
        invariant 1 <= i <= |args| == argcDup && argsDup != null && Valid() && failAt >= i - 1
        invariant fresh(argsDup)
        invariant forall k :: i - 1 <= k < argcDup ==> argsDup[k] == null
        invariant forall k :: 0 <= k < i - 1 ==> argsDup[k] != null && argsDup[k][..] == WordOf(args[k + 1])
        modifies this`live, argsDup
      {
        if failAt == i - 1 {
          return false;
        }
        CopyOne(i - 1, args[i]);
        i := i + 1;
      }
      ok := true;
    }

    /** Frees everything, unless vasprintf has no buffer for the message: then exit comes first. */
    method PrintErrorAndExit(messageOk: bool) returns (outcome: Outcome)
      requires Valid()
      modifies this`live
      ensures outcome != Ready && (outcome == NullDereference <==> messageOk && argsDup == null && argcDup > 0)
      ensures outcome.Exited? ==> outcome.status == if messageOk then 2 else 1
      ensures live == if messageOk then {} else old(live)
    {
      if !messageOk {
        return Exited(1);
      }
      var nullDereference := DeallocAll();
      outcome := if nullDereference then NullDereference else Exited(2);
    }

    /** main up to fork. messageOk says how vasprintf answers, pipesOk whether both calls of pipe succeed. */
    method SetUp(args: seq<string>, messageOk: bool, pipesOk: bool, vectorOk: bool, failAt: nat)
        returns (outcome: Outcome)
      requires Valid() && argsDup == null && argcDup == |args|
      modifies this`argsDup, this`live
      ensures outcome == Ready <==> !NoVector(|args|, pipesOk, vectorOk) && failAt >= |args| - 1
      ensures outcome == NullDereference <==> messageOk && |args| > 0 && NoVector(|args|, pipesOk, vectorOk)
      ensures outcome.Exited? ==> outcome.status == if messageOk then 2 else 1
      ensures outcome == Ready ==> Valid() && argsDup != null && argsDup[|args| - 1] == null
      ensures outcome == Ready ==> forall k :: 0 <= k < |args| - 1 ==>
        argsDup[k] != null && argsDup[k][..] == WordOf(args[k + 1])
      ensures outcome != Ready ==> (live == {} <==> messageOk || NoVector(|args|, pipesOk, vectorOk))
    {
      var ok := false;
      if |args| >= 2 && pipesOk {
        ok := CopyArgs(args, vectorOk, failAt);
      }
      if ok {
        return Ready;
      }
      outcome := PrintErrorAndExit(messageOk);
    }

    /** The end of a process that has its vector. main returns without dealloc_all. */
    method Leave(way: Leaving, messageOk: bool) returns (outcome: Outcome)
      requires Valid() && argsDup != null
      modifies this`live
      ensures outcome == Exited(if way != Failed then 0 else if messageOk then 2 else 1)
      ensures live == {} <==> way == Collected || (way == Failed && messageOk)
      ensures live != {} ==> live == old(live)
    {
      match way
      case Returned =>
        outcome := Exited(0);
      case Collected =>
        var nullDereference := DeallocAll();
        assert !nullDereference;
        outcome := Exited(0);
      case Failed =>
        outcome := PrintErrorAndExit(messageOk);
    }
  }

  /** Started without an argument, the program ends in dealloc_all instead of in exit. */
  method NoArgument() returns (outcome: Outcome)
    ensures outcome == NullDereference
  {
    var process := new Process(1);
    outcome := process.SetUp(["app_tracker"], true, true, true, 0);
  }

  /** With an argument it does so when pipe fails. */
  method NoPipe() returns (outcome: Outcome)
    ensures outcome == NullDereference
  {
    var process := new Process(2);
    outcome := process.SetUp(["app_tracker", "ls"], true, false, true, 1);
  }
}
