/** The nested strtok_r loops of str_ncpy-casecmp-chr-rchr-fry-tok_r.c, on one buffer changed in place. */
module Tokenizer {
  import opened Options
  import opened Tokens

  lemma {:induction false} SkipUnique(t: string, i: nat, hi: nat, c: char, s: nat)
    requires i <= s <= hi <= |t| && (s < hi ==> t[s] != c) && forall k :: i <= k < s ==> t[k] == c
    ensures Skip(t, i, hi, c) == s
    decreases s - i
  {
    if i < s {
      SkipUnique(t, i + 1, hi, c, s);
    }
  }

  lemma {:induction false} FindUnique(t: string, i: nat, hi: nat, c: char, e: nat)
    requires i <= e <= hi <= |t| && (e < hi ==> t[e] == c) && forall k :: i <= k < e ==> t[k] != c
    ensures Find(t, i, hi, c) == e
    decreases e - i
  {
    if i < e {
      FindUnique(t, i + 1, hi, c, e);
    }
  }

  /** strtok_r with a single delimiter c: continues at saved when str is null. When the string from there
      is t[start..hi], the next run of it becomes the token; the delimiter behind it becomes NUL, and
      nothing else changes. */
  method StrtokR(buf: array<char>, str: Option<nat>, c: char, saved: nat, ghost t: string, ghost hi: nat)
    returns (token: Option<nat>, save: nat)
    requires c != NUL && HoldsString(buf[..], if str.Some? then str.value else saved, hi, t)
    modifies buf
    ensures var start := if str.Some? then str.value else saved;
      var s := Skip(t, start, hi, c);
      if s == hi then
        token == None && save == hi && buf[..] == old(buf[..])
      else
        var e := Find(t, s, hi, c);
        token == Some(s) && save == After(e, hi) && buf[..] == Terminated(old(buf[..]), e, hi)
  {
    var start := if str.Some? then str.value else saved;
    var s := start;
    while buf[s] == c
      invariant start <= s <= hi && forall k :: start <= k < s ==> t[k] == c
      decreases hi - s
    {
      s := s + 1;
    }
    SkipUnique(t, start, hi, c, s);
    if buf[s] == NUL {
      return None, s;
    }
    var e := s;
    while buf[e] != NUL && buf[e] != c
      invariant s <= e <= hi && forall k :: s <= k < e ==> t[k] != c
      decreases hi - e
    {
      e := e + 1;
    }
    FindUnique(t, s, hi, c, e);
    token := Some(s);
    if buf[e] == NUL {
      save := e;
    } else {
      buf[e] := NUL;
      save := e + 1;
    }
  }

  /** The C string that starts at lo. */
  method CString(buf: array<char>, lo: nat, ghost hi: nat, ghost t: string) returns (text: string)
    requires HoldsString(buf[..], lo, hi, t)
    ensures text == t[lo..hi]
  {
    text := "";
    var k := lo;
    while buf[k] != NUL
      invariant lo <= k <= hi && text == t[lo..k]
      decreases hi - k
    {
      text := text + [buf[k]];
      k := k + 1;
    }
  }

  /** The inner loop on the word that is t[lo..hi]: prints its pieces and cuts the buffer inside the word
      only, so the outer scan does not notice. */
  method PrintPieces(buf: array<char>, lo: nat, ghost hi: nat, ghost t: string) returns (printed: seq<Line>)
    requires HoldsString(buf[..], lo, hi, t) && (lo > 0 ==> lo <= |t| && t[lo - 1] == SPACE)
    requires forall k :: lo <= k < hi ==> t[k] != SPACE
    modifies buf
    ensures printed == InnerLines(t, Spans(t, lo, hi, COMMA))
    ensures CutTo(buf[..], old(buf[..]), t, lo, hi)
  {
    hide Spans, InnerLines, Cut, IsCut, Skip, Find, HoldsString;
    printed := [];
    var str, save: nat := Some(lo), 0;
    ghost var pos, before := lo, buf[..];
    HoldsFacts(before, lo, hi, t);
    while true
      invariant pos == if str.Some? then str.value else save
      invariant lo <= pos <= hi && HoldsString(buf[..], pos, hi, t) && CutTo(buf[..], before, t, lo, pos)
      invariant pos == hi || if pos == lo then lo == 0 || t[lo - 1] == SPACE else t[pos - 1] == COMMA
      invariant printed + InnerLines(t, Spans(t, pos, hi, COMMA)) == InnerLines(t, Spans(t, lo, hi, COMMA))
      decreases hi - pos
    {
      ghost var b, s := buf[..], Skip(t, pos, hi, COMMA);
      var token;
      token, save := StrtokR(buf, str, COMMA, save, t, hi);
      if token.None? {
        InnerCutEnd(b, before, t, lo, pos, hi);
        return;
      }
      TokenHolds(b, t, pos, hi, COMMA);
      InnerLinesStep(t, pos, hi);
      InnerCutStep(b, before, t, lo, pos, hi);
      var text := CString(buf, token.value, Find(t, s, hi, COMMA), t);
      printed := printed + [Inner(text)];
      str, pos := None, save;
    }
  }

  /** strchr: whether c occurs in the string at lo. */
  method HasChar(buf: array<char>, lo: nat, c: char, ghost hi: nat, ghost t: string) returns (found: bool)
    requires c != NUL && HoldsString(buf[..], lo, hi, t)
    ensures found <==> c in t[lo..hi]
  {
    var k := lo;
    while buf[k] != NUL
      invariant lo <= k <= hi && c !in t[lo..k]
      decreases hi - k
    {
      if buf[k] == c {
        assert t[lo..hi][k - lo] == c;
        return true;
      }
      assert t[lo..k + 1] == t[lo..k] + [t[k]];
      k := k + 1;
    }
    found := false;
  }

  /** The body of the outer loop: one word, and its pieces if it has a comma. */
  method PrintWord(buf: array<char>, lo: nat, ghost hi: nat, ghost t: string) returns (printed: seq<Line>)
    requires HoldsString(buf[..], lo, hi, t) && (lo > 0 ==> lo <= |t| && t[lo - 1] == SPACE)
    requires forall k :: lo <= k < hi ==> t[k] != SPACE
    modifies buf
    ensures printed == WordLines(t, Span(lo, hi))
    ensures if COMMA in t[lo..hi] then CutTo(buf[..], old(buf[..]), t, lo, hi) else buf[..] == old(buf[..])
  {
    hide Spans, InnerLines, CutTo;
    var text := CString(buf, lo, hi, t);
    printed := [Outer(text)];
    var hasComma := HasChar(buf, lo, COMMA, hi, t);
    if hasComma {
      var pieces := PrintPieces(buf, lo, hi, t);
      printed := printed + pieces;
    }
  }

  /** The outer loop. For every string t without NUL it prints each word of t, in order, and after a word
      with a comma its pieces; at the end exactly the delimiters behind words and pieces are NUL. */
  method Tokenize(buf: array<char>, ghost t: string) returns (printed: seq<Line>)
    requires HoldsString(buf[..], 0, |t|, t)
    modifies buf
    ensures printed == Lines(t, Spans(t, 0, |t|, SPACE)) && PrintsRuns(t, printed)
    ensures forall k :: 0 <= k < buf.Length ==> buf[k] == if k < |t| then Cut(t, k) else old(buf[k])
  {
    hide Spans, Lines, WordLines, Cut, IsCut, Skip, Find, HoldsString, CutTo, PrintsRuns;
    printed := [];
    var str, save: nat := Some(0), 0;
    ghost var pos, before := 0, buf[..];
    HoldsFacts(before, 0, |t|, t);
    CutToStart(before, t);
    while true
      invariant pos == if str.Some? then str.value else save
      invariant 0 <= pos <= |t| && HoldsString(buf[..], pos, |t|, t) && CutTo(buf[..], before, t, 0, pos)
      invariant pos == 0 || pos == |t| || t[pos - 1] == SPACE
      invariant printed + Lines(t, Spans(t, pos, |t|, SPACE)) == Lines(t, Spans(t, 0, |t|, SPACE))
      decreases |t| - pos
    {
      ghost var b, s := buf[..], Skip(t, pos, |t|, SPACE);
      var token1;
      token1, save := StrtokR(buf, str, SPACE, save, t, |t|);
      if token1.None? {
        OuterCutEnd(b, before, t, pos);
        CutToEnd(b, before, t);
        LinesAreRuns(t);
        return;
      }
      TokenHolds(b, t, pos, |t|, SPACE);
      OuterLinesStep(t, pos);
      ghost var e := Find(t, s, |t|, SPACE);
      var lines := PrintWord(buf, token1.value, e, t);
      printed := printed + lines;
      OuterCutStep(b, buf[..], before, t, pos);
      str, pos := None, save;
    }
  }

  lemma CutToStart(b: string, t: string)
    ensures CutTo(b, b, t, 0, 0)
  {
  }

  lemma CutToEnd(b: string, b0: string, t: string)
    requires CutTo(b, b0, t, 0, |t|)
    ensures |b| == |b0| && forall k :: 0 <= k < |b| ==> b[k] == if k < |t| then Cut(t, k) else b0[k]
  {
  }
}
