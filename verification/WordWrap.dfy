/**
 Greedy word wrap (`_wrap_text` of backend/app/profiles/status_screen.py, `_wrap_text_w` of
 backend/app/profiles/wallpaper_studio.py): the same loop twice, for any measure of rendered width.
 */
module WordWrap {

  /** The words of a line, separated by single spaces. */
  function Join(ws: seq<string>): string {
    if ws == [] then ""
    else if |ws| == 1 then ws[0]
    else Join(ws[..|ws| - 1]) + " " + ws[|ws| - 1]
  }

  /** `cuts` splits n words into |cuts| - 1 lines; line r is words cuts[r] to cuts[r + 1]. */
  predicate IsSplit(cuts: seq<nat>, n: nat) {
    && cuts != [] && cuts[0] == 0 && cuts[|cuts| - 1] == n
    && forall r, s | 0 <= r < s < |cuts| :: cuts[r] < cuts[s]
  }

  predicate Fits(words: seq<string>, from: nat, to: nat, width: string -> int, maxWidth: int)
    requires from <= to <= |words|
  {
    width(Join(words[from..to])) <= maxWidth
  }

  /** Line r of a split fits, unless it is a single word. */
  predicate LineFits(words: seq<string>, cuts: seq<nat>, r: nat, width: string -> int, maxWidth: int)
    requires IsSplit(cuts, |words|) && r < |cuts| - 1
  {
    cuts[r + 1] - cuts[r] >= 2 ==> Fits(words, cuts[r], cuts[r + 1], width, maxWidth)
  }

  /** A split is acceptable when every line of two or more words fits. */
  predicate Acceptable(words: seq<string>, cuts: seq<nat>, width: string -> int, maxWidth: int) {
    && IsSplit(cuts, |words|)
    && forall r | 0 <= r < |cuts| - 1 :: LineFits(words, cuts, r, width, maxWidth)
  }

  /** No run of the words is rendered wider than a longer run around it. */
  ghost predicate Monotone(words: seq<string>, width: string -> int) {
    forall i, i', j', j | 0 <= i <= i' < j' <= j <= |words| ::
      width(Join(words[i'..j'])) <= width(Join(words[i..j]))
  }

  /** Line r is as long as it can be: the next word would not have fitted. */
  predicate LineFilled(words: seq<string>, cuts: seq<nat>, r: nat, width: string -> int, maxWidth: int)
    requires IsSplit(cuts, |words|) && r < |cuts| - 1
  {
    cuts[r + 1] < |words| ==> !Fits(words, cuts[r], cuts[r + 1] + 1, width, maxWidth)
  }

  predicate Filled(words: seq<string>, cuts: seq<nat>, width: string -> int, maxWidth: int) {
    && IsSplit(cuts, |words|)
    && forall r | 0 <= r < |cuts| - 1 :: LineFilled(words, cuts, r, width, maxWidth)
  }

  /** Greedy stays ahead: the r-th cut of any acceptable split is not past the greedy one. */
  lemma {:induction false} StaysAhead(words: seq<string>, greedy: seq<nat>, other: seq<nat>,
                                      width: string -> int, maxWidth: int, r: nat)
    requires Monotone(words, width) && Filled(words, greedy, width, maxWidth)
    requires Acceptable(words, other, width, maxWidth)
    requires r < |other| && r < |greedy|
    ensures other[r] <= greedy[r]
  {
    if r > 0 {
      StaysAhead(words, greedy, other, width, maxWidth, r - 1);
      assert LineFilled(words, greedy, r - 1, width, maxWidth);
      assert LineFits(words, other, r - 1, width, maxWidth);
      assert other[r - 1] < other[r] && greedy[r - 1] < greedy[r];
    }
  }

  lemma GreedyIsShortest(words: seq<string>, greedy: seq<nat>, other: seq<nat>, width: string -> int, maxWidth: int)
    requires Monotone(words, width) && Filled(words, greedy, width, maxWidth)
    requires Acceptable(words, other, width, maxWidth)
    ensures |greedy| <= |other|
  {
    var r := if |other| <= |greedy| then |other| - 1 else |greedy| - 1;
    StaysAhead(words, greedy, other, width, maxWidth, r);
  }

  lemma {:induction false} JoinAppend(a: seq<string>, b: seq<string>)
    requires a != [] && b != []
    ensures Join(a + b) == Join(a) + " " + Join(b)
  {
    assert (a + b)[..|a + b| - 1] == a + b[..|b| - 1];
    if |b| > 1 {
      JoinAppend(a, b[..|b| - 1]);
    } else {
      assert a + b[..0] == a;
    }
  }

  /** Line r is the words from cut r to cut r + 1, with single spaces between them. */
  predicate LineIs(words: seq<string>, cuts: seq<nat>, lines: seq<string>, r: nat) {
    r < |lines| && r + 1 < |cuts| && cuts[r] < cuts[r + 1] <= |words| && lines[r] == Join(words[cuts[r]..cuts[r + 1]])
  }

  lemma {:induction false} LinesUpTo(words: seq<string>, cuts: seq<nat>, lines: seq<string>, n: nat)
    requires 1 <= n <= |lines| && |cuts| == |lines| + 1 && cuts[0] == 0 && cuts[n] <= |words|
    requires forall r | 0 <= r < n :: LineIs(words, cuts, lines, r)
    ensures Join(lines[..n]) == Join(words[..cuts[n]])
  {
    assert LineIs(words, cuts, lines, n - 1);
    var from, to := cuts[n - 1], cuts[n];
    assert lines[..n] == lines[..n - 1] + [lines[n - 1]];
    if n == 1 {
      assert words[0..to] == words[..to];
    } else {
      assert LineIs(words, cuts, lines, n - 2);
      LinesUpTo(words, cuts, lines, n - 1);
      JoinAppend(lines[..n - 1], [lines[n - 1]]);
      JoinAppend(words[..from], words[from..to]);
      assert words[..to] == words[..from] + words[from..to];
    }
  }

  /** Read one after the other, the lines are the words. */
  lemma LinesSpellTheWords(words: seq<string>, cuts: seq<nat>, lines: seq<string>)
    requires |cuts| == |lines| + 1 && cuts[0] == 0 && cuts[|lines|] == |words|
    requires forall r | 0 <= r < |lines| :: LineIs(words, cuts, lines, r)
    ensures Join(lines) == Join(words)
  {
    var n := |lines|;
    if n > 0 {
      LinesUpTo(words, cuts, lines, n);
      assert lines[..n] == lines && words[..cuts[n]] == words;
    }
  }

  /** The loop so far: full lines up to the last cut. */
  ghost predicate Progress(words: seq<string>, cuts: seq<nat>, lines: seq<string>, width: string -> int,
                           maxWidth: int) {
    && cuts != [] && IsSplit(cuts, cuts[|cuts| - 1]) && cuts[|cuts| - 1] <= |words| && |lines| == |cuts| - 1
    && forall r | 0 <= r < |lines| :: LineDone(words, cuts[r], cuts[r + 1], lines[r], width, maxWidth)
  }

  ghost predicate LineDone(words: seq<string>, from: nat, to: nat, line: string, width: string -> int, maxWidth: int) {
    && from < to <= |words| && line == Join(words[from..to])
    && (to - from >= 2 ==> Fits(words, from, to, width, maxWidth))
    && (to < |words| ==> !Fits(words, from, to + 1, width, maxWidth))
  }

  lemma PushLine(words: seq<string>, cuts: seq<nat>, lines: seq<string>, to: nat, line: string,
                 width: string -> int, maxWidth: int)
    requires Progress(words, cuts, lines, width, maxWidth)
    requires LineDone(words, cuts[|cuts| - 1], to, line, width, maxWidth)
    ensures Progress(words, cuts + [to], lines + [line], width, maxWidth)
  {
    var cuts', lines' := cuts + [to], lines + [line];
    forall r | 0 <= r < |lines'|
      ensures LineDone(words, cuts'[r], cuts'[r + 1], lines'[r], width, maxWidth)
    {
      if r < |lines| {
        assert LineDone(words, cuts[r], cuts[r + 1], lines[r], width, maxWidth);
      }
    }
    forall r, s | 0 <= r < s < |cuts'| ensures cuts'[r] < cuts'[s] {
      assert r < |cuts| - 1 ==> cuts[r] < cuts[|cuts| - 1];
    }
  }

  lemma ProgressIsFilled(words: seq<string>, cuts: seq<nat>, lines: seq<string>, width: string -> int, maxWidth: int)
    requires Progress(words, cuts, lines, width, maxWidth) && cuts[|cuts| - 1] == |words|
    ensures Acceptable(words, cuts, width, maxWidth) && Filled(words, cuts, width, maxWidth)
    ensures forall r | 0 <= r < |lines| :: LineIs(words, cuts, lines, r)
  {
    forall r | 0 <= r < |lines|
      ensures LineFits(words, cuts, r, width, maxWidth) && LineFilled(words, cuts, r, width, maxWidth)
      ensures LineIs(words, cuts, lines, r)
    {
      assert LineDone(words, cuts[r], cuts[r + 1], lines[r], width, maxWidth);
    }
  }

  /** What acceptable and filled lines are, in widths: a line of several words fits, and with the next
      word it would not. */
  lemma LinesFillTheWidth(words: seq<string>, cuts: seq<nat>, lines: seq<string>, width: string -> int, maxWidth: int)
    requires Acceptable(words, cuts, width, maxWidth) && Filled(words, cuts, width, maxWidth)
    requires |lines| == |cuts| - 1 && forall r | 0 <= r < |lines| :: LineIs(words, cuts, lines, r)
    ensures forall r | 0 <= r < |lines| && cuts[r + 1] - cuts[r] >= 2 :: width(lines[r]) <= maxWidth
    ensures forall r | 0 <= r < |lines| - 1 ::
              cuts[r + 1] < |words| && width(lines[r] + " " + words[cuts[r + 1]]) > maxWidth
  {
    forall r | 0 <= r < |lines|
      ensures cuts[r + 1] - cuts[r] >= 2 ==> width(lines[r]) <= maxWidth
      ensures r < |lines| - 1 ==> cuts[r + 1] < |words| && width(lines[r] + " " + words[cuts[r + 1]]) > maxWidth
    {
      assert LineIs(words, cuts, lines, r) && LineFits(words, cuts, r, width, maxWidth);
      if r < |lines| - 1 {
        assert LineIs(words, cuts, lines, r + 1) && LineFilled(words, cuts, r, width, maxWidth);
        var longer := words[cuts[r]..cuts[r + 1] + 1];
        assert longer[..|longer| - 1] == words[cuts[r]..cuts[r + 1]] && longer[|longer| - 1] == words[cuts[r + 1]];
      }
    }
  }

  /** The words of a text, wrapped; `cuts` says where the lines begin. The lines keep the words
      in order, each fits unless it is a single word, and no other such split has fewer lines. */
  method WrapText(words: seq<string>, width: string -> int, maxWidth: int)
    returns (lines: seq<string>, ghost cuts: seq<nat>)
    ensures Acceptable(words, cuts, width, maxWidth) && |lines| == |cuts| - 1
    ensures forall r | 0 <= r < |lines| :: LineIs(words, cuts, lines, r)
    ensures Join(lines) == Join(words)
    ensures forall r | 0 <= r < |lines| && cuts[r + 1] - cuts[r] >= 2 :: width(lines[r]) <= maxWidth
    ensures forall r | 0 <= r < |lines| - 1 :: width(lines[r] + " " + words[cuts[r + 1]]) > maxWidth
    ensures Monotone(words, width) ==>
              forall other | Acceptable(words, other, width, maxWidth) :: |lines| <= |other| - 1
  {
    lines, cuts := [], [0];
    if words == [] {
      return;
    }
    var current := words[0];
    ghost var start := 0;
    for i := 1 to |words|
      invariant Progress(words, cuts, lines, width, maxWidth) && start == cuts[|cuts| - 1] < i
      invariant current == Join(words[start..i])
      invariant i - start >= 2 ==> Fits(words, start, i, width, maxWidth)
    {
      var candidate := current + " " + words[i];
      assert words[start..i + 1][..i - start] == words[start..i];
      if width(candidate) <= maxWidth {
        current := candidate;
      } else {
        PushLine(words, cuts, lines, i, current, width, maxWidth);
        lines := lines + [current];
        current := words[i];
        cuts, start := cuts + [i], i;
      }
    }
    PushLine(words, cuts, lines, |words|, current, width, maxWidth);
    lines := lines + [current];
    cuts := cuts + [|words|];
    ProgressIsFilled(words, cuts, lines, width, maxWidth);
    LinesSpellTheWords(words, cuts, lines);
    LinesFillTheWidth(words, cuts, lines, width, maxWidth);
    if Monotone(words, width) {
      forall other | Acceptable(words, other, width, maxWidth) ensures |lines| <= |other| - 1 {
        GreedyIsShortest(words, cuts, other, width, maxWidth);
      }
    }
  }
}
