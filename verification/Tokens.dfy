/** Splitting a string into its maximal runs without a delimiter, and what the nested loops over strtok_r
    print and leave behind. */
module Tokens {
  const NUL := '\0'
  const SPACE := ' '
  const COMMA := ','

  /** The first index from i on that is not c, or hi. */
  function Skip(t: string, i: nat, hi: nat, c: char): (s: nat)
    requires i <= hi <= |t|
    ensures i <= s <= hi && (s < hi ==> t[s] != c) && forall k :: i <= k < s ==> t[k] == c
    decreases hi - i
  {
    if i < hi && t[i] == c then Skip(t, i + 1, hi, c) else i
  }

  /** The first index from i on that is c, or hi. */
  function Find(t: string, i: nat, hi: nat, c: char): (e: nat)
    requires i <= hi <= |t|
    ensures i <= e <= hi && (e < hi ==> t[e] == c) && forall k :: i <= k < e ==> t[k] != c
    decreases hi - i
  {
    if i < hi && t[i] != c then Find(t, i + 1, hi, c) else i
  }

  datatype Span = Span(lo: nat, hi: nat)

  /** The runs of t between lo and hi, found from left to right. */
  function Spans(t: string, lo: nat, hi: nat, c: char): (spans: seq<Span>)
    requires lo <= hi <= |t|
    ensures forall k :: 0 <= k < |spans| ==> lo <= spans[k].lo < spans[k].hi <= hi
    decreases hi - lo
  {
    var s := Skip(t, lo, hi, c);
    if s == hi then []
    else
      var e := Find(t, s, hi, c);
      [Span(s, e)] + Spans(t, e, hi, c)
  }

  /** A maximal run: nonempty, free of c, and with c or a bound on either side. */
  ghost predicate IsRun(t: string, lo: nat, hi: nat, c: char, r: Span)
    requires lo <= hi <= |t|
  {
    && lo <= r.lo < r.hi <= hi && (forall k :: r.lo <= k < r.hi ==> t[k] != c)
    && (r.lo == lo || t[r.lo - 1] == c) && (r.hi == hi || t[r.hi] == c)
  }

  lemma SpansUnfold(t: string, lo: nat, hi: nat, c: char)
    requires lo <= hi <= |t|
    ensures lo < hi && t[lo] == c ==> Spans(t, lo, hi, c) == Spans(t, lo + 1, hi, c)
  {
  }

  /** Spans finds exactly the maximal runs, in order. */
  lemma {:induction false} SpansAreRuns(t: string, lo: nat, hi: nat, c: char)
    requires lo <= hi <= |t|
    ensures forall r :: r in Spans(t, lo, hi, c) <==> IsRun(t, lo, hi, c, r)
    ensures forall j, k :: 0 <= j < k < |Spans(t, lo, hi, c)| ==> Spans(t, lo, hi, c)[j].hi < Spans(t, lo, hi, c)[k].lo
    decreases hi - lo
  {
    var s := Skip(t, lo, hi, c);
    if s < hi {
      var e := Find(t, s, hi, c);
      SpansAreRuns(t, e, hi, c);
      var rest := Spans(t, e, hi, c);
      assert Spans(t, lo, hi, c) == [Span(s, e)] + rest;
      forall r ensures r in Spans(t, lo, hi, c) <==> IsRun(t, lo, hi, c, r) {
        if IsRun(t, lo, hi, c, r) && r != Span(s, e) {
          RunIsLater(t, lo, hi, c, r);
        }
        if r in rest {
          assert IsRun(t, e, hi, c, r);
        }
      }
      forall k | 0 <= k < |rest| ensures e < rest[k].lo {
        assert rest[k] in rest;
        assert IsRun(t, e, hi, c, rest[k]);
      }
    } else {
      forall r ensures !IsRun(t, lo, hi, c, r) {
        assert lo <= r.lo < hi ==> t[r.lo] == c;
      }
    }
  }

  /** A run that is not the first one lies behind it. */
  lemma RunIsLater(t: string, lo: nat, hi: nat, c: char, r: Span)
    requires lo <= hi <= |t| && Skip(t, lo, hi, c) < hi && IsRun(t, lo, hi, c, r)
    ensures var s := Skip(t, lo, hi, c); var e := Find(t, s, hi, c);
      r == Span(s, e) || IsRun(t, e, hi, c, r)
  {
    var s := Skip(t, lo, hi, c);
    var e := Find(t, s, hi, c);
    assert t[r.lo] != c;
    assert r.lo == lo || t[r.lo - 1] == c;
    assert (e == hi || t[e] == c) && (r.hi == hi || t[r.hi] == c);
  }

  // ---------- what the nested loops print ----------

  datatype Line = Outer(text: string) | Inner(text: string)

  function InnerLines(t: string, spans: seq<Span>): seq<Line>
    requires forall k :: 0 <= k < |spans| ==> spans[k].lo <= spans[k].hi <= |t|
  {
    if spans == [] then [] else [Inner(t[spans[0].lo..spans[0].hi])] + InnerLines(t, spans[1..])
  }

  /** A word, followed by its pieces if it contains a comma. */
  function WordLines(t: string, r: Span): seq<Line>
    requires r.lo <= r.hi <= |t|
  {
    [Outer(t[r.lo..r.hi])] + if COMMA in t[r.lo..r.hi] then InnerLines(t, Spans(t, r.lo, r.hi, COMMA)) else []
  }

  function Lines(t: string, words: seq<Span>): seq<Line>
    requires forall k :: 0 <= k < |words| ==> words[k].lo <= words[k].hi <= |t|
  {
    if words == [] then [] else WordLines(t, words[0]) + Lines(t, words[1..])
  }

  /** All maximal runs of t between lo and hi, from left to right. */
  ghost predicate AreRuns(t: string, lo: nat, hi: nat, c: char, runs: seq<Span>)
    requires lo <= hi <= |t|
  {
    && (forall r :: r in runs <==> IsRun(t, lo, hi, c, r))
    && (forall j, k :: 0 <= j < k < |runs| ==> runs[j].hi < runs[k].lo)
  }

  /** These lines are the comma-free runs of a word that contains a comma, or none. */
  ghost predicate PrintsPieces(t: string, word: Span, lines: seq<Line>)
    requires word.lo <= word.hi <= |t|
  {
    if exists k :: word.lo <= k < word.hi && t[k] == COMMA then
      exists pieces :: AreRuns(t, word.lo, word.hi, COMMA, pieces) && InnerTexts(t, pieces, lines)
    else lines == []
  }

  ghost predicate InnerTexts(t: string, pieces: seq<Span>, lines: seq<Line>) {
    && |lines| == |pieces| && (forall j :: 0 <= j < |pieces| ==> pieces[j].lo <= pieces[j].hi <= |t|)
    && (forall j :: 0 <= j < |pieces| ==> lines[j] == Inner(t[pieces[j].lo..pieces[j].hi]))
  }

  /** Line at[k] is the k-th word, and the lines from there to line at[k + 1] are its pieces. */
  ghost predicate PrintsWords(t: string, words: seq<Span>, at: seq<nat>, lines: seq<Line>) {
    && |at| == |words| + 1 && at[0] == 0 && at[|words|] == |lines|
    && forall k :: 0 <= k < |words| ==> PrintsWord(t, words[k], at[k], at[k + 1], lines)
  }

  ghost predicate PrintsWord(t: string, word: Span, from: nat, to: nat, lines: seq<Line>) {
    && from < to <= |lines| && word.lo <= word.hi <= |t|
    && lines[from] == Outer(t[word.lo..word.hi]) && PrintsPieces(t, word, lines[from + 1..to])
  }

  /** The lines are the maximal space-free runs of t in order, each followed by its pieces. */
  ghost predicate PrintsRuns(t: string, lines: seq<Line>) {
    exists words, at :: AreRuns(t, 0, |t|, SPACE, words) && PrintsWords(t, words, at, lines)
  }

  lemma {:induction false} InnerLinesAt(t: string, spans: seq<Span>)
    requires forall k :: 0 <= k < |spans| ==> spans[k].lo <= spans[k].hi <= |t|
    ensures InnerTexts(t, spans, InnerLines(t, spans))
  {
    if spans != [] {
      InnerLinesAt(t, spans[1..]);
    }
  }

  lemma CommaInside(t: string, r: Span)
    requires r.lo <= r.hi <= |t|
    ensures COMMA in t[r.lo..r.hi] <==> exists k :: r.lo <= k < r.hi && t[k] == COMMA
  {
    assert forall k :: r.lo <= k < r.hi ==> t[r.lo..r.hi][k - r.lo] == t[k];
  }

  lemma PiecesPrinted(t: string, r: Span)
    requires r.lo <= r.hi <= |t|
    ensures WordLines(t, r) != [] && WordLines(t, r)[0] == Outer(t[r.lo..r.hi])
    ensures PrintsPieces(t, r, WordLines(t, r)[1..])
  {
    CommaInside(t, r);
    var pieces := Spans(t, r.lo, r.hi, COMMA);
    SpansAreRuns(t, r.lo, r.hi, COMMA);
    InnerLinesAt(t, pieces);
    hide Spans, InnerLines, IsRun, InnerTexts;
    assert WordLines(t, r)[1..] == if COMMA in t[r.lo..r.hi] then InnerLines(t, pieces) else [];
  }

  lemma PrintedLater(t: string, word: Span, from: nat, to: nat, first: seq<Line>, rest: seq<Line>)
    requires PrintsWord(t, word, from, to, rest)
    ensures PrintsWord(t, word, |first| + from, |first| + to, first + rest)
  {
    assert (first + rest)[|first| + from + 1..|first| + to] == rest[from + 1..to];
    hide PrintsPieces;
  }

  function Shifted(at: seq<nat>, n: nat): (r: seq<nat>)
    ensures |r| == |at| && forall k :: 0 <= k < |r| ==> r[k] == n + at[k]
  {
    seq(|at|, k requires 0 <= k < |at| => n + at[k])
  }

  lemma PrintedBefore(t: string, word: Span, first: seq<Line>, rest: seq<Line>)
    requires first != [] && PrintsWord(t, word, 0, |first|, first)
    ensures PrintsWord(t, word, 0, |first|, first + rest)
  {
    assert (first + rest)[1..|first|] == first[1..|first|];
    hide PrintsPieces;
  }

  /** One more word in front. */
  lemma PrintedFirst(t: string, words: seq<Span>, later: seq<nat>, first: seq<Line>, rest: seq<Line>)
    requires words != [] && PrintsWords(t, words[1..], later, rest)
    requires first != [] && PrintsWord(t, words[0], 0, |first|, first)
    ensures PrintsWords(t, words, [0] + Shifted(later, |first|), first + rest)
  {
    var at := [0] + Shifted(later, |first|);
    PrintedBefore(t, words[0], first, rest);
    hide PrintsWord;
    forall k | 0 <= k < |words| ensures PrintsWord(t, words[k], at[k], at[k + 1], first + rest) {
      if k > 0 {
        assert PrintsWord(t, words[1..][k - 1], later[k - 1], later[k], rest);
        PrintedLater(t, words[k], later[k - 1], later[k], first, rest);
      }
    }
  }

  lemma {:induction false} WordsPrinted(t: string, words: seq<Span>) returns (at: seq<nat>)
    requires forall k :: 0 <= k < |words| ==> words[k].lo <= words[k].hi <= |t|
    ensures PrintsWords(t, words, at, Lines(t, words))
  {
    at := [0];
    if words != [] {
      var first := WordLines(t, words[0]);
      var later := WordsPrinted(t, words[1..]);
      PiecesPrinted(t, words[0]);
      assert first[1..|first|] == first[1..];
      PrintedFirst(t, words, later, first, Lines(t, words[1..]));
      at := [0] + Shifted(later, |first|);
      hide PrintsPieces, WordLines, PrintsWords;
    }
  }

  /** What nested scans print from left to right is what PrintsRuns asks for. */
  lemma LinesAreRuns(t: string)
    ensures PrintsRuns(t, Lines(t, Spans(t, 0, |t|, SPACE)))
  {
    var words := Spans(t, 0, |t|, SPACE);
    SpansAreRuns(t, 0, |t|, SPACE);
    var at := WordsPrinted(t, words);
    assert AreRuns(t, 0, |t|, SPACE, words);
  }

  // ---------- what they leave in the buffer ----------

  /** The delimiters that become NUL: a space after a word, and a comma after a piece. */
  predicate IsCut(t: string, k: nat)
    requires k < |t|
  {
    k > 0 && t[k - 1] != SPACE && (t[k] == SPACE || (t[k] == COMMA && t[k - 1] != COMMA))
  }

  /** They are those directly behind a word, and inside a word those directly behind a piece. */
  lemma CutsEndRuns(t: string, k: nat)
    requires k < |t|
    ensures IsCut(t, k) <==>
      || (exists word :: IsRun(t, 0, |t|, SPACE, word) && word.hi == k)
      || (exists word, piece :: IsRun(t, 0, |t|, SPACE, word)
                                && IsRun(t, word.lo, word.hi, COMMA, piece) && piece.hi == k < word.hi)
  {
    if IsCut(t, k) {
      var word := RunAround(t, 0, |t|, SPACE, k - 1);
      if t[k] != SPACE {
        var piece := RunAround(t, word.lo, word.hi, COMMA, k - 1);
      }
    }
  }

  /** The run that contains position k. */
  lemma RunAround(t: string, lo: nat, hi: nat, c: char, k: nat) returns (r: Span)
    requires lo <= k < hi <= |t| && t[k] != c
    ensures IsRun(t, lo, hi, c, r) && r.lo <= k < r.hi
  {
    var first := k;
    while first > lo && t[first - 1] != c
      invariant lo <= first <= k && forall j :: first <= j <= k ==> t[j] != c
    {
      first := first - 1;
    }
    r := Span(first, Find(t, k, hi, c));
  }

  function Cut(t: string, k: nat): char
    requires k < |t|
  {
    if IsCut(t, k) then NUL else t[k]
  }

  /** The buffer b0 held the word t[lo..hi]; b is it after the inner scan has come to pos. */
  ghost predicate CutTo(b: string, b0: string, t: string, lo: nat, pos: nat)
    requires pos <= |t|
  {
    |b| == |b0| && forall k :: 0 <= k < |b| ==> b[k] == if lo <= k < pos then Cut(t, k) else b0[k]
  }

  /** The position a scan continues from after a token that ends at e. */
  function After(e: nat, hi: nat): nat {
    if e < hi then e + 1 else hi
  }

  /** What strtok_r does to the buffer behind a token that ends at e. */
  function Terminated(b: string, e: nat, hi: nat): string
    requires hi < |b|
  {
    if e < hi then b[e := NUL] else b
  }

  /** The buffer holds the string t[lo..hi] from lo on. */
  ghost predicate HoldsString(b: string, lo: nat, hi: nat, t: string) {
    && lo <= hi <= |t| && hi < |b| && b[hi] == NUL
    && forall k :: lo <= k < hi ==> b[k] == t[k] && t[k] != NUL
  }

  lemma HoldsFacts(b: string, lo: nat, hi: nat, t: string)
    requires HoldsString(b, lo, hi, t)
    ensures lo <= hi <= |t| && hi < |b| && forall k :: lo <= k < hi ==> b[k] == t[k]
  {
  }

  /** After strtok_r the buffer holds the token and, behind it, the rest of the string. */
  lemma TokenHolds(b: string, t: string, pos: nat, hi: nat, c: char)
    requires HoldsString(b, pos, hi, t) && Skip(t, pos, hi, c) < hi
    ensures var s := Skip(t, pos, hi, c); var e := Find(t, s, hi, c);
      HoldsString(Terminated(b, e, hi), s, e, t) && HoldsString(Terminated(b, e, hi), After(e, hi), hi, t)
  {
  }

  lemma InnerLinesStep(t: string, pos: nat, hi: nat)
    requires pos <= hi <= |t| && Skip(t, pos, hi, COMMA) < hi
    ensures var s := Skip(t, pos, hi, COMMA); var e := Find(t, s, hi, COMMA);
      InnerLines(t, Spans(t, pos, hi, COMMA)) == [Inner(t[s..e])] + InnerLines(t, Spans(t, After(e, hi), hi, COMMA))
  {
    var e := Find(t, Skip(t, pos, hi, COMMA), hi, COMMA);
    SpansUnfold(t, e, hi, COMMA);
  }

  /** Inside a word, the commas from pos to the end of the next piece are exactly the delimiters skipped,
      which follow a delimiter, and then the one behind the piece. */
  lemma InnerCutStep(b: string, b0: string, t: string, lo: nat, pos: nat, hi: nat)
    requires lo <= pos <= hi <= |t| && hi < |b| && CutTo(b, b0, t, lo, pos) && Skip(t, pos, hi, COMMA) < hi
    requires forall k :: lo <= k < hi ==> t[k] != SPACE && b0[k] == t[k]
    requires if pos == lo then lo == 0 || t[lo - 1] == SPACE else t[pos - 1] == COMMA
    ensures var e := Find(t, Skip(t, pos, hi, COMMA), hi, COMMA);
      CutTo(Terminated(b, e, hi), b0, t, lo, After(e, hi)) && (e < hi ==> t[After(e, hi) - 1] == COMMA)
  {
    var s := Skip(t, pos, hi, COMMA);
    var e := Find(t, s, hi, COMMA);
    assert forall k :: pos <= k < s ==> !IsCut(t, k);
    assert forall k :: s <= k < e ==> !IsCut(t, k);
    assert e < hi ==> t[e - 1] != COMMA && IsCut(t, e);
  }

  /** Behind the last piece nothing is cut. */
  lemma InnerCutEnd(b: string, b0: string, t: string, lo: nat, pos: nat, hi: nat)
    requires lo <= pos <= hi <= |t| && hi < |b| && CutTo(b, b0, t, lo, pos) && Skip(t, pos, hi, COMMA) == hi
    requires forall k :: lo <= k < hi ==> t[k] != SPACE && b0[k] == t[k]
    requires pos == hi || if pos == lo then lo == 0 || t[lo - 1] == SPACE else t[pos - 1] == COMMA
    ensures CutTo(b, b0, t, lo, hi) && InnerLines(t, Spans(t, pos, hi, COMMA)) == []
  {
    assert forall k :: pos <= k < hi ==> !IsCut(t, k);
  }

  /** A piece or a word ends before it begins to be cut: t[s..e] is free of cuts when it has no comma. */
  lemma OuterLinesStep(t: string, pos: nat)
    requires pos <= |t| && Skip(t, pos, |t|, SPACE) < |t|
    ensures var s := Skip(t, pos, |t|, SPACE); var e := Find(t, s, |t|, SPACE);
      Lines(t, Spans(t, pos, |t|, SPACE)) == WordLines(t, Span(s, e)) + Lines(t, Spans(t, After(e, |t|), |t|, SPACE))
  {
    var e := Find(t, Skip(t, pos, |t|, SPACE), |t|, SPACE);
    SpansUnfold(t, e, |t|, SPACE);
  }

  /** One turn of the outer loop: b1 is the buffer after strtok_r, b2 after the inner loop, if there was
      one. What is behind the word has not been touched. */
  lemma OuterCutStep(b: string, b2: string, b0: string, t: string, pos: nat)
    requires pos <= |t| < |b| && CutTo(b, b0, t, 0, pos)
    requires HoldsString(b, pos, |t|, t) && Skip(t, pos, |t|, SPACE) < |t|
    requires pos == 0 || t[pos - 1] == SPACE
    requires var s := Skip(t, pos, |t|, SPACE); var e := Find(t, s, |t|, SPACE); var b1 := Terminated(b, e, |t|);
      if COMMA in t[s..e] then CutTo(b2, b1, t, s, e) else b2 == b1
    ensures var e := Find(t, Skip(t, pos, |t|, SPACE), |t|, SPACE);
      && CutTo(b2, b0, t, 0, After(e, |t|)) && HoldsString(b2, After(e, |t|), |t|, t)
      && (e < |t| ==> t[After(e, |t|) - 1] == SPACE)
  {
    var n := |t|;
    var s := Skip(t, pos, n, SPACE);
    var e := Find(t, s, n, SPACE);
    assert forall k :: pos <= k < s ==> !IsCut(t, k);
    assert COMMA !in t[s..e] ==> forall k :: s <= k < e ==> t[k] == t[s..e][k - s];
    assert COMMA !in t[s..e] ==> forall k :: s <= k < e ==> !IsCut(t, k);
    assert e < n ==> t[e - 1] != SPACE && IsCut(t, e);
  }

  lemma OuterCutEnd(b: string, b0: string, t: string, pos: nat)
    requires pos <= |t| < |b| && CutTo(b, b0, t, 0, pos)
    requires HoldsString(b, pos, |t|, t) && Skip(t, pos, |t|, SPACE) == |t|
    requires pos == 0 || pos == |t| || t[pos - 1] == SPACE
    requires forall k :: 0 <= k < |t| ==> b0[k] == t[k]
    ensures CutTo(b, b0, t, 0, |t|) && Lines(t, Spans(t, pos, |t|, SPACE)) == []
  {
    assert forall k :: pos <= k < |t| ==> !IsCut(t, k);
  }
}
