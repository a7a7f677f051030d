/** The local extractive summariser `summarizeText` of
    `src/services/aiService.ts`: split the text into sentences, pick a few by
    position, join them with ". " and end with ".". */
module Summarizer {
  import opened Wrappers
  import opened Text
  import Seqs

  /** What the summariser returns for input that is empty or shorter than ten
      characters (the thrown error is caught inside the function). */
  const Fallback: string := "Unable to generate summary at this time."

  /** The label prepended in development builds. */
  const DevLabel: string := "Summary: "

  /** The characters of the class `[.!?]`. */
  predicate IsTerminator(c: char) {
    c == '.' || c == '!' || c == '?'
  }

  predicate NoTerminator(s: string) {
    forall i :: 0 <= i < |s| ==> !IsTerminator(s[i])
  }

  /** The length of the terminator run that starts `s`. */
  function TerminatorRun(s: string): (k: nat)
    ensures k <= |s|
    ensures forall i :: 0 <= i < k ==> IsTerminator(s[i])
    ensures k < |s| ==> !IsTerminator(s[k])
  {
    if |s| == 0 || !IsTerminator(s[0]) then 0 else 1 + TerminatorRun(s[1..])
  }

  /** `s` with every terminator removed. */
  function Strip(s: string): string {
    if |s| == 0 then ""
    else (if IsTerminator(s[0]) then "" else [s[0]]) + Strip(s[1..])
  }

  /** The number of maximal runs of terminators in `s`. */
  function RunCount(s: string): nat
    decreases |s|
  {
    if |s| == 0 then 0
    else if IsTerminator(s[0]) then 1 + RunCount(s[TerminatorRun(s)..])
    else RunCount(s[1..])
  }

  lemma {:induction false} StripAppend(a: string, b: string)
    ensures Strip(a + b) == Strip(a) + Strip(b)
  {
    if |a| > 0 {
      assert (a + b)[1..] == a[1..] + b;
      StripAppend(a[1..], b);
    } else {
      assert a + b == b;
    }
  }

  lemma {:induction false} StripNoTerminator(s: string)
    requires NoTerminator(s)
    ensures Strip(s) == s
  {
    if |s| > 0 {
      StripNoTerminator(s[1..]);
    }
  }

  lemma {:induction false} StripAllTerminators(s: string)
    requires forall i :: 0 <= i < |s| ==> IsTerminator(s[i])
    ensures Strip(s) == ""
  {
    if |s| > 0 {
      StripAllTerminators(s[1..]);
    }
  }

  /** A terminator-free prefix does not change the run count. */
  lemma {:induction false} RunCountSkipsPrefix(s: string, i: nat)
    requires i <= |s| && NoTerminator(s[..i])
    ensures RunCount(s) == RunCount(s[i..])
  {
    if i > 0 {
      assert !IsTerminator(s[..i][0]);
      assert s[1..][..i - 1] == s[..i][1..];
      RunCountSkipsPrefix(s[1..], i - 1);
      assert s[1..][i - 1..] == s[i..];
    }
  }

  /** `text.split(/[.!?]+/)`: the pieces between maximal runs of terminators.
      A leading or trailing run yields an empty first or last piece, and the
      empty text yields one empty piece. */
  function SplitSentences(s: string): (r: seq<string>)
    ensures |r| >= 1
    ensures forall k :: 0 <= k < |r| ==> NoTerminator(r[k])
    decreases |s|
  {
    match Seqs.FindIndex(s, IsTerminator)
    case None => [s]
    case Some(i) =>
      var j := i + TerminatorRun(s[i..]);
      [s[..i]] + SplitSentences(s[j..])
  }

  /** A non-empty string of terminators only. */
  predicate IsRun(s: string) {
    |s| > 0 && forall i :: 0 <= i < |s| ==> IsTerminator(s[i])
  }

  /** The maximal terminator runs of `s`, left to right: what `split`
      removes between consecutive pieces. */
  function SplitRuns(s: string): (runs: seq<string>)
    ensures forall k :: 0 <= k < |runs| ==> IsRun(runs[k])
    decreases |s|
  {
    match Seqs.FindIndex(s, IsTerminator)
    case None => []
    case Some(i) =>
      var j := i + TerminatorRun(s[i..]);
      assert IsRun(s[i..j]) by {
        assert forall k :: 0 <= k < j - i ==> s[i..j][k] == s[i..][k];
      }
      [s[i..j]] + SplitRuns(s[j..])
  }

  /** `pieces[0] + runs[0] + pieces[1] + ... + pieces[|pieces| - 1]`. */
  function Interleave(pieces: seq<string>, runs: seq<string>): string
    requires |pieces| == |runs| + 1
    decreases |runs|
  {
    if |runs| == 0 then pieces[0] else pieces[0] + runs[0] + Interleave(pieces[1..], runs[1..])
  }

  /** A text that starts with a non-terminator and splits into two or more
      pieces has a non-empty first piece. */
  lemma FirstPieceNonEmpty(t: string)
    ensures |SplitSentences(t)| >= 2 ==>
              |t| > 0 && (!IsTerminator(t[0]) ==> SplitSentences(t)[0] != "")
  {
    match Seqs.FindIndex(t, IsTerminator)
    case None =>
    case Some(i) =>
      assert SplitSentences(t)[0] == t[..i];
  }

  /** Prepending a piece keeps the inner pieces non-empty when the old
      first piece becomes an inner one only if it is non-empty. */
  lemma ConsInnerNonEmpty(first: string, rest: seq<string>)
    requires forall k :: 0 < k < |rest| - 1 ==> rest[k] != ""
    requires |rest| >= 2 ==> rest[0] != ""
    ensures forall k :: 0 < k < |[first] + rest| - 1 ==> ([first] + rest)[k] != ""
  {
    var r := [first] + rest;
    forall k | 0 < k < |r| - 1
      ensures r[k] != ""
    {
      assert r[k] == rest[k - 1];
    }
  }

  /** What follows a maximal run of terminators does not start with one. */
  lemma AfterRun(s: string, i: nat)
    requires i <= |s|
    ensures var t := s[i + TerminatorRun(s[i..])..]; |t| > 0 ==> !IsTerminator(t[0])
  {
    var j := i + TerminatorRun(s[i..]);
    if j < |s| {
      assert s[j..][0] == s[i..][j - i];
    }
  }

  /** No piece strictly between the first and the last is empty: a run
      of terminators always ends at a non-terminator or at the end. */
  lemma {:induction false} InnerPiecesNonEmpty(s: string)
    ensures forall k :: 0 < k < |SplitSentences(s)| - 1 ==> SplitSentences(s)[k] != ""
    decreases |s|
  {
    match Seqs.FindIndex(s, IsTerminator)
    case None =>
    case Some(i) =>
      var j := i + TerminatorRun(s[i..]);
      var rest := SplitSentences(s[j..]);
      InnerPiecesNonEmpty(s[j..]);
      FirstPieceNonEmpty(s[j..]);
      AfterRun(s, i);
      ConsInnerNonEmpty(s[..i], rest);
      assert SplitSentences(s) == [s[..i]] + rest;
  }

  /** Putting the runs back between the pieces gives the text back, and no
      piece strictly between the first and the last is empty. Since the
      pieces hold no terminator and each run is a non-empty run of
      terminators, the non-empty inner pieces make every run maximal: the
      pieces are exactly those between the maximal runs. */
  lemma {:induction false} SplitSentencesRoundTrip(s: string)
    ensures |SplitRuns(s)| + 1 == |SplitSentences(s)|
    ensures Interleave(SplitSentences(s), SplitRuns(s)) == s
    ensures forall k :: 0 < k < |SplitSentences(s)| - 1 ==> SplitSentences(s)[k] != ""
    decreases |s|
  {
    InnerPiecesNonEmpty(s);
    match Seqs.FindIndex(s, IsTerminator)
    case None =>
    case Some(i) =>
      var j := i + TerminatorRun(s[i..]);
      var rest, restRuns := SplitSentences(s[j..]), SplitRuns(s[j..]);
      SplitSentencesRoundTrip(s[j..]);
      var r, runs := SplitSentences(s), SplitRuns(s);
      assert r == [s[..i]] + rest;
      assert runs == [s[i..j]] + restRuns;
      assert r[0] == s[..i] && r[1..] == rest;
      assert runs[0] == s[i..j] && runs[1..] == restRuns;
      assert s == s[..i] + s[i..j] + s[j..];
  }

  /** Stripping a terminator-free prefix `s[..i]` followed by the run
      `s[i..j]` keeps the prefix and drops the run. */
  lemma {:induction false} StripStep(s: string, i: nat, j: nat)
    requires i < j <= |s|
    requires NoTerminator(s[..i])
    requires forall k :: i <= k < j ==> IsTerminator(s[k])
    ensures Strip(s) == s[..i] + Strip(s[j..])
  {
    var a, b, c := s[..i], s[i..j], s[j..];
    assert s == (a + b) + c;
    StripAppend(a + b, c);
    StripAppend(a, b);
    StripNoTerminator(a);
    assert forall k :: 0 <= k < |b| ==> b[k] == s[i + k];
    StripAllTerminators(b);
  }

  /** A terminator-free prefix `s[..i]` followed by a maximal run ending at
      `j` accounts for exactly one run. */
  lemma {:induction false} RunStep(s: string, i: nat, j: nat)
    requires i < j <= |s|
    requires NoTerminator(s[..i])
    requires j == i + TerminatorRun(s[i..])
    ensures RunCount(s) == 1 + RunCount(s[j..])
  {
    RunCountSkipsPrefix(s, i);
    assert s[i..][TerminatorRun(s[i..])..] == s[j..];
  }

  /** Joining with "" after a first part is that part before the join of
      the rest. */
  lemma {:induction false} JoinCons(first: string, rest: seq<string>)
    requires |rest| >= 1
    ensures Join([first] + rest, "") == first + Join(rest, "")
  {
    var r := [first] + rest;
    assert r[0] == first && r[1..] == rest;
  }

  /** The split loses only terminators: the pieces spell the text without
      them. */
  lemma {:induction false} SplitSentencesConcat(s: string)
    ensures Join(SplitSentences(s), "") == Strip(s)
    decreases |s|
  {
    match Seqs.FindIndex(s, IsTerminator)
    case None =>
      StripNoTerminator(s);
    case Some(i) =>
      var j := i + TerminatorRun(s[i..]);
      var rest := SplitSentences(s[j..]);
      SplitSentencesConcat(s[j..]);
      StripStep(s, i, j);
      var r := SplitSentences(s);
      assert r == [s[..i]] + rest;
      JoinCons(s[..i], rest);
  }

  /** A terminator-free string has no terminator runs. */
  lemma RunCountNoTerminator(s: string)
    requires NoTerminator(s)
    ensures RunCount(s) == 0
  {
    assert s[..|s|] == s;
    RunCountSkipsPrefix(s, |s|);
    assert s[|s|..] == "";
  }

  /** The split removes one run for each maximal terminator run of the
      text. */
  lemma {:induction false} SplitRunsCount(s: string)
    ensures |SplitRuns(s)| == RunCount(s)
    decreases |s|
  {
    match Seqs.FindIndex(s, IsTerminator)
    case None =>
      assert NoTerminator(s);
      RunCountNoTerminator(s);
    case Some(i) =>
      var j := i + TerminatorRun(s[i..]);
      var rest := SplitRuns(s[j..]);
      SplitRunsCount(s[j..]);
      RunStep(s, i, j);
      assert SplitRuns(s) == [s[i..j]] + rest;
  }

  /** There is exactly one more piece than there are terminator runs, so every
      run separates two pieces and no run is split in two. */
  lemma SplitSentencesCount(s: string)
    ensures |SplitSentences(s)| == 1 + RunCount(s)
  {
    SplitSentencesRoundTrip(s);
    SplitRunsCount(s);
  }

  /** The sentences the summariser works with: the pieces of the split that
      are not blank (`s.trim().length > 0`), in order and untrimmed. */
  function Sentences(text: string): (r: seq<string>)
    ensures forall k :: 0 <= k < |r| ==> NoTerminator(r[k]) && !AllWhitespace(r[k])
    ensures forall f :: f in r <==> f in SplitSentences(text) && !AllWhitespace(f)
    ensures forall f :: multiset(r)[f] == if AllWhitespace(f) then 0 else multiset(SplitSentences(text))[f]
    ensures Seqs.SubseqOf(r, SplitSentences(text))
  {
    var pieces := SplitSentences(text);
    var keep := (f: string) => !AllWhitespace(f);
    var r := Seqs.Filter(pieces, keep);
    assert forall f :: keep(f) == !AllWhitespace(f);
    assert forall k :: 0 <= k < |r| ==> r[k] in pieces;
    r
  }

  /** The positions the summariser picks out of `n` sentences: all of them up
      to three; first, middle and last up to ten; beyond that also the ones at
      a quarter and three quarters (`Math.floor(n * 0.25)` and
      `Math.floor(n * 0.75)`, which are exact in floating point for any length
      a string can have). Every position is in range and they strictly
      increase, so the picked sentences are distinct and keep their order. */
  function PickIndices(n: nat): (idx: seq<nat>)
    ensures forall k :: 0 <= k < |idx| ==> idx[k] < n
    ensures forall k, l :: 0 <= k < l < |idx| ==> idx[k] < idx[l]
    ensures n <= 3 ==> |idx| == n
    ensures 4 <= n <= 10 ==> |idx| == 3
    ensures n > 10 ==> |idx| == 5
    ensures n > 0 ==> idx[0] == 0 && idx[|idx| - 1] == n - 1
  {
    if n <= 3 then seq(n, k => k)
    else if n > 10 then [0, n / 4, n / 2, (3 * n) / 4, n - 1]
    else [0, n / 2, n - 1]
  }

  /** The elements of `s` at the given positions, in the order given. */
  function Select(s: seq<string>, idx: seq<nat>): (r: seq<string>)
    requires forall k :: 0 <= k < |idx| ==> idx[k] < |s|
  {
    seq(|idx|, k requires 0 <= k < |idx| => s[idx[k]])
  }

  /** The summary built from the sentences, without the development label:
      the source's three templates, which are the picked sentences joined by
      ". " with a final ".". */
  function SummaryBody(ss: seq<string>): (r: string)
    ensures r == Join(Select(ss, PickIndices(|ss|)), ". ") + "."
    ensures |r| > 0 && r[|r| - 1] == '.'
  {
    var n := |ss|;
    var picked := Select(ss, PickIndices(n));
    if n <= 3 then
      assert picked == ss;
      Join(ss, ". ") + "."
    else if n > 10 then
      assert picked == [ss[0], ss[n / 4], ss[n / 2], ss[(3 * n) / 4], ss[n - 1]];
      JoinFive(ss[0], ss[n / 4], ss[n / 2], ss[(3 * n) / 4], ss[n - 1]);
      ss[0] + ". " + ss[n / 4] + ". " + ss[n / 2] + ". " + ss[(3 * n) / 4] + ". " + ss[n - 1] + "."
    else
      assert picked == [ss[0], ss[n / 2], ss[n - 1]];
      JoinThree(ss[0], ss[n / 2], ss[n - 1]);
      ss[0] + ". " + ss[n / 2] + ". " + ss[n - 1] + "."
  }

  /** `summarizeText`. Input shorter than ten characters yields the fixed
      fallback string; otherwise the result is the picked sentences joined by
      ". " with a final ".", prefixed by the label in development builds. It
      never fails. */
  function SummarizeText(text: string, dev: bool): (r: string)
    ensures |text| < 10 ==> r == Fallback
    ensures |text| >= 10 ==>
      var ss := Sentences(text);
      r == (if dev then DevLabel else "") + Join(Select(ss, PickIndices(|ss|)), ". ") + "."
    ensures |r| > 0 && r[|r| - 1] == '.'
  {
    if |text| < 10 then Fallback
    else
      var summary := SummaryBody(Sentences(text));
      var prefix := if dev then DevLabel else "";
      assert (prefix + summary)[|prefix + summary| - 1] == summary[|summary| - 1];
      prefix + summary
  }

  lemma JoinThree(a: string, b: string, c: string)
    ensures Join([a, b, c], ". ") == a + ". " + b + ". " + c
  {
    assert [a, b, c][1..] == [b, c];
    assert [b, c][1..] == [c];
    assert Join([b, c], ". ") == b + ". " + c;
    assert a + ". " + (b + ". " + c) == a + ". " + b + ". " + c;
  }

  lemma JoinFive(a: string, b: string, c: string, d: string, e: string)
    ensures Join([a, b, c, d, e], ". ") == a + ". " + b + ". " + c + ". " + d + ". " + e
  {
    assert [a, b, c, d, e][1..] == [b, c, d, e];
    JoinThree(c, d, e);
    assert [b, c, d, e][1..] == [c, d, e];
    assert Join([b, c, d, e], ". ") == b + ". " + (c + ". " + d + ". " + e);
    assert a + ". " + (b + ". " + (c + ". " + d + ". " + e)) ==
           a + ". " + b + ". " + c + ". " + d + ". " + e;
  }
}
