/** getaddr of sigaction.c, which cuts the offset out of a line of backtrace_symbols. */
module SymbolAddress {
  import opened Options
  import opened Sequences

  const NUL := '\0'

  /** The index of the last c in s. */
  function LastIndex(s: string, c: char): (r: Option<nat>)
    ensures r.Some? ==> r.value < |s| && s[r.value] == c && c !in s[r.value + 1..]
    ensures r.None? ==> c !in s
  {
    if s == "" then None
    else if s[|s| - 1] == c then Some(|s| - 1)
    else
      var r := LastIndex(s[..|s| - 1], c);
      assert s == s[..|s| - 1] + [s[|s| - 1]];
      assert r.Some? ==> s[r.value + 1..] == s[..|s| - 1][r.value + 1..] + [s[|s| - 1]];
      r
  }

  lemma {:induction false} LastIndexUnique(s: string, c: char, i: nat)
    requires i < |s| && s[i] == c && c !in s[i + 1..]
    ensures LastIndex(s, c) == Some(i)
  {
    var n := |s| - 1;
    if i < n {
      assert s[i + 1..][n - i - 1] == s[n];
      assert s[i + 1..] == s[..n][i + 1..] + [s[n]];
      LastIndexUnique(s[..n], c, i);
    }
  }

  /** c is last at position |before| exactly when it does not occur behind it. */
  lemma LastIndexIs(before: string, c: char, after: string)
    ensures LastIndex(before + [c] + after, c) == Some(|before|) <==> c !in after
  {
    var s := before + [c] + after;
    assert s[|before|] == c && s[|before| + 1..] == after;
    if c !in after {
      LastIndexUnique(s, c, |before|);
    }
  }

  /** The text between the last '+' and the last ')', if they are there in this order. */
  function Field(line: string): Option<string> {
    var plus, paren := LastIndex(line, '+'), LastIndex(line, ')');
    if plus.Some? && paren.Some? && plus.value < paren.value then Some(line[plus.value + 1..paren.value]) else None
  }

  /** strrchr. */
  method StrRChr(s: string, c: char) returns (r: Option<nat>)
    ensures r == LastIndex(s, c)
  {
    r := None;
    var i := 0;
    while i < |s|
      invariant 0 <= i <= |s| && r == LastIndex(s[..i], c)
    {
      assert s[..i + 1][..i] == s[..i];
      if s[i] == c {
        r := Some(i);
      }
      i := i + 1;
    }
    assert s[..i] == s;
  }

  /** memcpy of s[begin..end] and the terminating NUL. */
  method CopyTerminated(to: array<char>, s: string, begin: nat, end: nat)
    requires begin <= end <= |s| && end - begin < to.Length
    modifies to
    ensures to[..] == s[begin..end] + [NUL] + old(to[..])[end - begin + 1..]
  {
    var k := 0;
    while k < end - begin
      invariant 0 <= k <= end - begin
      invariant forall j :: 0 <= j < to.Length ==> to[j] == if j < k then s[begin + j] else old(to[j])
    {
      to[k] := s[begin + k];
      k := k + 1;
    }
    to[k] := NUL;
  }

  /** getaddr returned 1; it returned 0; or C gives its pointer arithmetic, its memcpy or the final write
      no meaning. */
  datatype Outcome = Copied | Rejected | Undefined

  /** getaddr on a line, or a null pointer, and a buffer of `size` characters. The text must be shorter
      than the buffer; when it just fills it the size check lets it pass, and the NUL goes past the end. */
  method GetAddr(line: Option<string>, address: array<char>, size: nat) returns (outcome: Outcome)
    requires address.Length == size
    modifies address
    ensures outcome == Copied <==> line.Some? && Field(line.value).Some? && |Field(line.value).value| < size
    ensures outcome == Rejected <==> line.None? || (Field(line.value).Some? && |Field(line.value).value| > size)
    ensures outcome == Copied ==> var text := Field(line.value).value;
      address[..] == text + [NUL] + old(address[..])[|text| + 1..]
    ensures outcome != Copied ==> address[..] == old(address[..])
  {
    if line.None? {
      return Rejected;
    }
    hide LastIndex;
    var s := line.value;
    var plus := StrRChr(s, '+');
    var paren := StrRChr(s, ')');
    if plus.None? || paren.None? || paren.value < plus.value {
      return Undefined;
    }
    var begin, end := plus.value + 1, paren.value;
    if end - begin > size {
      return Rejected;
    }
    if end - begin == size {
      return Undefined;
    }
    CopyTerminated(address, s, begin, end);
    outcome := Copied;
  }

  /** A line as backtrace_symbols prints it. */
  function Printed(path: string, func: string, off: string, tail: string): string {
    (path + "(" + func) + ['+'] + (off + [')'] + tail)
  }

  /** Whatever path and function are called, getaddr finds the offset where it was printed exactly when
      neither it nor the tail contains a '+', and the tail no ')'. */
  lemma FieldIsOffset(path: string, func: string, off: string, tail: string)
    ensures var line := Printed(path, func, off, tail); var at := |path| + 1 + |func|;
      LastIndex(line, '+') == Some(at) && LastIndex(line, ')') == Some(at + 1 + |off|)
      <==> '+' !in off && '+' !in tail && ')' !in tail
  {
    PlusIsLast(path, func, off, tail);
    ParenIsLast(path, func, off, tail);
    hide LastIndex, Printed;
  }

  lemma PlusIsLast(path: string, func: string, off: string, tail: string)
    ensures LastIndex(Printed(path, func, off, tail), '+') == Some(|path| + 1 + |func|) <==> '+' !in off && '+' !in tail
  {
    var before, after := path + "(" + func, off + [')'] + tail;
    LastIndexIs(before, '+', after);
    hide LastIndex;
    assert '+' in after <==> '+' in off || '+' in tail;
    assert |before| == |path| + 1 + |func|;
  }

  /** The line as the parenthesis cuts it. */
  lemma PrintedByParen(path: string, func: string, off: string, tail: string)
    ensures Printed(path, func, off, tail) == (((path + "(" + func) + ['+']) + off) + [')'] + tail
  {
    var stem := (path + "(" + func) + ['+'];
    AppendAssoc(stem, off + [')'], tail);
    AppendAssoc(stem, off, [')']);
  }

  lemma ParenIsLast(path: string, func: string, off: string, tail: string)
    ensures LastIndex(Printed(path, func, off, tail), ')') == Some(|path| + 2 + |func| + |off|) <==> ')' !in tail
  {
    var before := ((path + "(" + func) + ['+']) + off;
    PrintedByParen(path, func, off, tail);
    LastIndexIs(before, ')', tail);
    hide LastIndex, Printed;
    assert |before| == |path| + 2 + |func| + |off|;
  }

  lemma Middle(x: string, y: string, z: string)
    ensures (x + y + z)[|x|..|x| + |y|] == y
  {
  }

  /** So parsing gives back what was printed. */
  lemma PrintParse(path: string, func: string, off: string, tail: string)
    requires '+' !in off && '+' !in tail && ')' !in tail
    ensures Field(Printed(path, func, off, tail)) == Some(off)
  {
    FieldIsOffset(path, func, off, tail);
    PrintedByParen(path, func, off, tail);
    var stem := (path + "(" + func) + ['+'];
    AppendAssoc(stem + off, [')'], tail);
    Middle(stem, off, [')'] + tail);
    hide LastIndex, Printed;
    assert |stem| == |path| + 2 + |func|;
  }

  /** An offset of three characters in a buffer of three. */
  method NulPastTheEnd() returns (outcome: Outcome)
    ensures outcome == Undefined
  {
    var line := Printed("app", "main", "0x1", " [0x40052d]");
    PrintParse("app", "main", "0x1", " [0x40052d]");
    var address := new char[3](_ => NUL);
    outcome := GetAddr(Some(line), address, 3);
  }
}
