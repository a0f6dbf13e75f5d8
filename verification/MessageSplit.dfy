/**
 Splitting a long bot message.  A string counts Unicode characters, as the source's limit
 does.  The specification says what a correct split is without saying how it is found: the
 text is its chunks, in order, with nothing but newlines between and around them.
 */
module MessageSplit {
  import opened Text

  const MAX_LEN := 4000

  // ---------- what a split is ----------

  predicate Newlines(s: string) {
    forall i | 0 <= i < |s| :: s[i] == '\n'
  }

  /** gap, chunk, gap, ..., chunk, gap */
  function Weave(gaps: seq<string>, chunks: seq<string>): string
    requires |gaps| == |chunks| + 1
  {
    if chunks == [] then gaps[0]
    else Weave(gaps[..|gaps| - 1], chunks[..|chunks| - 1]) + chunks[|chunks| - 1] + gaps[|gaps| - 1]
  }

  /** A chunk keeps to the limit unless it is one line that does not. */
  predicate Fits(chunk: string) {
    |chunk| <= MAX_LEN || '\n' !in chunk
  }

  predicate GoodGaps(gaps: seq<string>, least: nat) {
    && (forall i | 0 <= i < |gaps| :: Newlines(gaps[i]))
    && (forall i | 0 < i < |gaps| - 1 :: |gaps[i]| >= least)
  }

  predicate GoodChunks(chunks: seq<string>) {
    forall i | 0 <= i < |chunks| :: chunks[i] != "" && Fits(chunks[i])
  }

  /** No two neighbours could have been sent as one message. */
  predicate Packed(gaps: seq<string>, chunks: seq<string>)
    requires |gaps| == |chunks| + 1
  {
    forall i | 0 < i < |chunks| :: |chunks[i - 1]| + |gaps[i]| + |chunks[i]| > MAX_LEN
  }

  /** The neighbours that could have been sent as one message. */
  function Loose(gaps: seq<string>, chunks: seq<string>): nat
    requires |gaps| == |chunks| + 1
  {
    if |chunks| < 2 then 0
    else
      var n := |chunks| - 1;
      Loose(gaps[..n + 1], chunks[..n]) + if |chunks[n - 1]| + |gaps[n]| + |chunks[n]| <= MAX_LEN then 1 else 0
  }

  lemma {:induction false} NoneLooseIsPacked(gaps: seq<string>, chunks: seq<string>)
    requires |gaps| == |chunks| + 1 && Loose(gaps, chunks) == 0
    ensures Packed(gaps, chunks)
  {
    if |chunks| >= 2 {
      var n := |chunks| - 1;
      NoneLooseIsPacked(gaps[..n + 1], chunks[..n]);
      forall i | 0 < i < |chunks| ensures |chunks[i - 1]| + |gaps[i]| + |chunks[i]| > MAX_LEN {
        if i < n { assert chunks[..n][i] == chunks[i] && chunks[..n][i - 1] == chunks[i - 1] && gaps[..n + 1][i] == gaps[i]; }
      }
    }
  }

  // ---------- paragraphs ----------

  /** Go's strings.Split(s, "\n\n"): leftmost separators, not overlapping. */
  function Paragraphs(s: string): (ps: seq<string>)
    ensures |ps| >= 1
  {
    var i := FirstBreak(s);
    if i == -1 then [s] else [s[..i]] + Paragraphs(s[i + 2..])
  }

  function FirstBreak(s: string): (i: int)
    ensures i == -1 || (0 <= i < |s| - 1 && s[i] == '\n' && s[i + 1] == '\n')
  {
    if |s| < 2 then -1
    else if s[0] == '\n' && s[1] == '\n' then 0
    else
      var rest := FirstBreak(s[1..]);
      if rest == -1 then -1 else rest + 1
  }

  /** Pieces with a separator in front of each but the first. */
  function Glue(pieces: seq<string>, sep: string): string {
    if pieces == [] then ""
    else if |pieces| == 1 then pieces[0]
    else Glue(pieces[..|pieces| - 1], sep) + sep + pieces[|pieces| - 1]
  }

  lemma {:induction false} GlueBack(pieces: seq<string>, sep: string, last: string)
    requires pieces != []
    ensures Glue(pieces + [last], sep) == Glue(pieces, sep) + sep + last
  {
    assert (pieces + [last])[..|pieces|] == pieces;
  }

  lemma Regroup(a: string, b: string, c: string, d: string, e: string)
    ensures a + b + c + d + e == a + b + (c + d + e)
  {
  }

  lemma {:induction false} GlueFront(first: string, rest: seq<string>, sep: string)
    requires rest != []
    ensures Glue([first] + rest, sep) == first + sep + Glue(rest, sep)
  {
    if |rest| == 1 {
      GlueBack([first], sep, rest[0]);
      assert [first] + rest == [first] + [rest[0]];
    } else {
      var init, last := rest[..|rest| - 1], rest[|rest| - 1];
      GlueFront(first, init, sep);
      GlueBack([first] + init, sep, last);
      assert [first] + rest == [first] + init + [last];
      Regroup(first, sep, Glue(init, sep), sep, last);
    }
  }

  lemma {:induction false} ParagraphsGlue(s: string)
    ensures Glue(Paragraphs(s), "\n\n") == s
    decreases |s|
  {
    var i := FirstBreak(s);
    if i != -1 {
      ParagraphsGlue(s[i + 2..]);
      GlueFront(s[..i], Paragraphs(s[i + 2..]), "\n\n");
      assert s[i..i + 2] == "\n\n";
      assert s == s[..i] + s[i..i + 2] + s[i + 2..];
    }
  }

  lemma {:induction false} GlueIsJoin(pieces: seq<string>, sep: char)
    ensures Glue(pieces, [sep]) == Join(pieces, sep)
  {
    if |pieces| > 1 {
      GlueIsJoin(pieces[1..], sep);
      GlueFront(pieces[0], pieces[1..], [sep]);
      assert [pieces[0]] + pieces[1..] == pieces;
    }
  }

  lemma {:induction false} LinesGlue(s: string)
    ensures Glue(Split(s, '\n'), "\n") == s
    ensures forall line | line in Split(s, '\n') :: '\n' !in line
  {
    JoinSplit(s, '\n');
    GlueIsJoin(Split(s, '\n'), '\n');
  }

  // ---------- the split under way ----------

  /** What has been read so far: gaps and chunks, then the chunk under construction. */
  datatype Cut = Cut(gaps: seq<string>, chunks: seq<string>, current: string)

  predicate Shaped(c: Cut) {
    |c.gaps| == |c.chunks| + 1
  }

  function Whole(c: Cut): string
    requires Shaped(c)
  {
    Weave(c.gaps, c.chunks) + c.current
  }

  /** Every chunk so far is good and every gap after a chunk has at least `least` newlines. */
  predicate Good(c: Cut, least: nat) {
    && Shaped(c) && GoodChunks(c.chunks) && Fits(c.current)
    && (forall i | 0 <= i < |c.gaps| :: Newlines(c.gaps[i]))
    && (forall i | 0 < i < |c.gaps| :: |c.gaps[i]| >= least)
  }

  /** The neighbours so far that could have been one, the last chunk and the current one included. */
  function LooseSoFar(c: Cut): nat
    requires Shaped(c)
  {
    var n := |c.chunks|;
    Loose(c.gaps, c.chunks) + if n > 0 && |c.chunks[n - 1]| + |c.gaps[n]| + |c.current| <= MAX_LEN then 1 else 0
  }

  /** Close the chunk under construction and put `sep` behind it. */
  function Flush(c: Cut, sep: string): Cut {
    Cut(c.gaps + [sep], c.chunks + [c.current], "")
  }

  /** `sep` falls into the gap before the chunk to come. */
  function Widen(c: Cut, sep: string): Cut
    requires Shaped(c)
  {
    Cut(c.gaps[..|c.chunks|] + [c.gaps[|c.chunks|] + sep], c.chunks, c.current)
  }

  lemma FlushReads(c: Cut, sep: string, least: nat)
    requires Good(c, least) && c.current != "" && Newlines(sep) && |sep| >= least
    ensures Good(Flush(c, sep), least) && Whole(Flush(c, sep)) == Whole(c) + sep
  {
    var d := Flush(c, sep);
    assert d.gaps[..|d.gaps| - 1] == c.gaps && d.chunks[..|d.chunks| - 1] == c.chunks;
  }

  /** Closing fixes the neighbours before and begins a new pair. */
  lemma FlushLoose(c: Cut, sep: string, piece: string)
    requires Shaped(c)
    ensures LooseSoFar(Flush(c, sep).(current := piece)) ==
            LooseSoFar(c) + if |c.current| + |sep| + |piece| <= MAX_LEN then 1 else 0
  {
    var d, n := Flush(c, sep), |c.chunks|;
    assert d.gaps[..n + 1] == c.gaps && d.chunks[..n] == c.chunks;
    assert d.gaps[n] == c.gaps[n] && (n > 0 ==> d.chunks[n - 1] == c.chunks[n - 1]);
  }

  lemma {:induction false} LooseIgnoresLast(gaps: seq<string>, gap: string, chunks: seq<string>)
    requires |gaps| == |chunks| + 1
    ensures Loose(gaps[..|chunks|] + [gap], chunks) == Loose(gaps, chunks)
  {
    if |chunks| >= 2 {
      var n := |chunks| - 1;
      assert (gaps[..|chunks|] + [gap])[..n + 1] == gaps[..n + 1];
    }
  }

  lemma WidenLoose(c: Cut, sep: string, piece: string)
    requires Shaped(c) && c.current == ""
    ensures LooseSoFar(Widen(c, sep).(current := piece)) <= LooseSoFar(c)
  {
    LooseIgnoresLast(c.gaps, c.gaps[|c.chunks|] + sep, c.chunks);
  }

  lemma WidenReads(c: Cut, sep: string, least: nat)
    requires Good(c, least) && c.current == "" && Newlines(sep)
    ensures Good(Widen(c, sep), least) && Whole(Widen(c, sep)) == Whole(c) + sep
  {
    var d := Widen(c, sep);
    if c.chunks == [] {
      assert d.gaps[0] == c.gaps[0] + sep;
    } else {
      assert d.gaps[..|d.gaps| - 1] == c.gaps[..|c.gaps| - 1];
    }
  }

  lemma GrowReads(c: Cut, s: string)
    requires Shaped(c)
    ensures Whole(c.(current := c.current + s)) == Whole(c) + s
  {
  }

  /** The next piece joins the current chunk, or starts one after a separator that is cut. */
  function Append(c: Cut, sep: string, piece: string): Cut
    requires Shaped(c)
  {
    if c.current != "" && |c.current| + |sep| + |piece| > MAX_LEN then Flush(c, sep).(current := piece)
    else if c.current != "" then c.(current := c.current + sep + piece)
    else Widen(c, sep).(current := piece)
  }

  lemma AppendReads(c: Cut, sep: string, piece: string, least: nat)
    requires Good(c, least) && Newlines(sep) && |sep| >= least && Fits(piece)
    ensures Good(Append(c, sep, piece), least) && Whole(Append(c, sep, piece)) == Whole(c) + sep + piece
  {
    if c.current != "" && |c.current| + |sep| + |piece| > MAX_LEN {
      FlushReads(c, sep, least);
      GrowReads(Flush(c, sep), piece);
    } else if c.current != "" {
      GrowReads(c, sep);
      GrowReads(c.(current := c.current + sep), piece);
    } else {
      WidenReads(c, sep, least);
      GrowReads(Widen(c, sep), piece);
    }
  }

  /** A piece that is added wherever it fits leaves no pair that could have been one. */
  lemma AppendLoose(c: Cut, sep: string, piece: string)
    requires Shaped(c)
    ensures LooseSoFar(Append(c, sep, piece)) <= LooseSoFar(c)
  {
    if c.current != "" && |c.current| + |sep| + |piece| > MAX_LEN {
      FlushLoose(c, sep, piece);
    } else if c.current == "" {
      WidenLoose(c, sep, piece);
    }
  }

  // ---------- the algorithm ----------

  /** Puts the next piece behind the current chunk if it fits there, else starts a chunk with it. */
  method AddPiece(chunks0: seq<string>, current0: string, sep: string, piece: string, ghost c: Cut)
    returns (chunks: seq<string>, current: string)
    requires Shaped(c) && c.chunks == chunks0 && c.current == current0
    ensures chunks == Append(c, sep, piece).chunks && current == Append(c, sep, piece).current
    ensures current0 == "" ==> chunks == chunks0 && current == piece
  {
    chunks, current := chunks0, current0;
    if |current| > 0 && |current| + |sep| + |piece| > MAX_LEN {
      chunks := chunks + [current];
      current := "";
    }
    if |current| > 0 {
      current := current + sep;
    }
    current := current + piece;
  }

  /** The lines of a paragraph over the limit, the first of them starting a new chunk. */
  method SplitLines(ghost c0: Cut, chunks0: seq<string>, p: string)
    returns (chunks: seq<string>, current: string, ghost c: Cut)
    requires Good(c0, 1) && c0.current == "" && c0.chunks == chunks0
    ensures Good(c, 1) && c.chunks == chunks && c.current == current
    ensures Whole(c) == Whole(c0) + p && LooseSoFar(c) <= LooseSoFar(c0)
  {
    LinesGlue(p);
    var lines := Split(p, '\n');
    chunks, current, c := chunks0, "", c0;
    var j := 0;
    while j < |lines|
      invariant 0 <= j <= |lines| && LinesRead(c0, c, lines, j) && c.chunks == chunks && c.current == current
    {
      assert lines[j] in lines;
      FirstOrNext(c, c0, lines, j);
      chunks, current := AddPiece(chunks, current, "\n", lines[j], c);
      c := NextLine(c, j, lines[j]);
      j := j + 1;
    }
    assert lines[..j] == lines;
  }

  function NextLine(c: Cut, j: nat, line: string): Cut
    requires Shaped(c)
  {
    if j == 0 then c.(current := line) else Append(c, "\n", line)
  }

  /** `c` is `c0` with the first `j` lines read. */
  predicate LinesRead(c0: Cut, c: Cut, lines: seq<string>, j: nat)
    requires j <= |lines|
  {
    && Good(c, 1) && Shaped(c0) && (j == 0 ==> c == c0 && c.current == "")
    && Whole(c) == Whole(c0) + Glue(lines[..j], "\n") && LooseSoFar(c) <= LooseSoFar(c0)
  }

  lemma Regroup3(a: string, b: string, c: string, d: string)
    ensures a + b + c + d == a + (b + c + d)
  {
  }

  lemma FirstOrNext(c: Cut, c0: Cut, lines: seq<string>, j: nat)
    requires j < |lines| && '\n' !in lines[j] && LinesRead(c0, c, lines, j)
    ensures LinesRead(c0, NextLine(c, j, lines[j]), lines, j + 1)
  {
    assert lines[..j + 1][..j] == lines[..j];
    if j == 0 {
      assert lines[..1] == [lines[0]];
      GrowReads(c, lines[0]);
      assert "" + lines[0] == lines[0];
    } else {
      AppendReads(c, "\n", lines[j], 1);
      AppendLoose(c, "\n", lines[j]);
      Regroup3(Whole(c0), Glue(lines[..j], "\n"), "\n", lines[j]);
    }
  }

  /** The paragraphs all keep to the limit, so blocks stay whole. */
  predicate Small(paragraphs: seq<string>) {
    forall i | 0 <= i < |paragraphs| :: |paragraphs[i]| <= MAX_LEN
  }

  /** The paragraphs over the limit, the first paragraph aside. */
  function LongAfterFirst(paragraphs: seq<string>): nat {
    if |paragraphs| <= 1 then 0
    else LongAfterFirst(paragraphs[..|paragraphs| - 1]) + if |paragraphs[|paragraphs| - 1]| > MAX_LEN then 1 else 0
  }

  lemma {:induction false} SmallHasNoLong(ps: seq<string>)
    requires Small(ps)
    ensures LongAfterFirst(ps) == 0
  {
    if |ps| > 1 {
      SmallHasNoLong(ps[..|ps| - 1]);
    }
  }

  function Least(paragraphs: seq<string>): nat {
    if Small(paragraphs) then 2 else 1
  }

  function NextSmall(c: Cut, i: nat, p: string): Cut
    requires Shaped(c)
  {
    if i == 0 then c.(current := p) else Append(c, "\n\n", p)
  }

  /** `c` is the text of the first `i` paragraphs. */
  predicate ParagraphsRead(c: Cut, ps: seq<string>, i: nat)
    requires i <= |ps|
  {
    && Good(c, Least(ps)) && (i == 0 ==> c == Cut([""], [], "")) && Whole(c) == Glue(ps[..i], "\n\n")
    && LooseSoFar(c) <= LongAfterFirst(ps[..i])
  }

  lemma SmallNext(c: Cut, ps: seq<string>, i: nat)
    requires i < |ps| && |ps[i]| <= MAX_LEN && ParagraphsRead(c, ps, i)
    ensures ParagraphsRead(NextSmall(c, i, ps[i]), ps, i + 1)
  {
    assert ps[..i + 1][..i] == ps[..i];
    if i == 0 {
      assert ps[..1] == [ps[0]];
      assert "" + ps[0] == ps[0];
    } else {
      AppendReads(c, "\n\n", ps[i], Least(ps));
      AppendLoose(c, "\n\n", ps[i]);
    }
  }

  /** Before a paragraph over the limit the current chunk is always closed. */
  function Closed(c: Cut, i: nat): Cut
    requires Shaped(c)
  {
    if i == 0 then c else if c.current != "" then Flush(c, "\n\n") else Widen(c, "\n\n")
  }

  lemma ClosedReads(c: Cut, ps: seq<string>, i: nat)
    requires i < |ps| && |ps[i]| > MAX_LEN && ParagraphsRead(c, ps, i)
    ensures Good(Closed(c, i), 1) && Closed(c, i).current == "" && Least(ps) == 1
    ensures Whole(Closed(c, i)) + ps[i] == Glue(ps[..i + 1], "\n\n")
  {
    assert !Small(ps);
    assert ps[..i + 1][..i] == ps[..i];
    if i == 0 {
      assert ps[..1] == [ps[0]];
      assert "" + ps[0] == ps[0];
    } else if c.current != "" {
      FlushReads(c, "\n\n", 1);
    } else {
      WidenReads(c, "\n\n", 1);
    }
  }

  lemma ClosedLoose(c: Cut, ps: seq<string>, i: nat)
    requires i < |ps| && |ps[i]| > MAX_LEN && Shaped(c) && LooseSoFar(c) <= LongAfterFirst(ps[..i])
    ensures LooseSoFar(Closed(c, i)) <= LongAfterFirst(ps[..i + 1])
  {
    assert ps[..i + 1][..i] == ps[..i] && ps[..i + 1][i] == ps[i];
    if i > 0 && c.current != "" {
      FlushLoose(c, "\n\n", "");
    } else if i > 0 {
      WidenLoose(c, "\n\n", "");
    }
  }

  lemma Finish(c: Cut, text: string, least: nat) returns (gaps: seq<string>)
    requires Good(c, least) && Whole(c) == text
    ensures var chunks := if c.current != "" then c.chunks + [c.current] else c.chunks;
      && |gaps| == |chunks| + 1 && Weave(gaps, chunks) == text
      && GoodGaps(gaps, least) && GoodChunks(chunks)
      && Loose(gaps, chunks) <= LooseSoFar(c)
  {
    if c.current != "" {
      gaps := c.gaps + [""];
      var chunks := c.chunks + [c.current];
      assert gaps[..|gaps| - 1] == c.gaps && chunks[..|chunks| - 1] == c.chunks;
      assert Weave(c.gaps, c.chunks) + c.current + "" == text;
    } else {
      gaps := c.gaps;
      assert Weave(c.gaps, c.chunks) + "" == Weave(c.gaps, c.chunks);
    }
  }

  /** What a split of a text over the limit is. */
  predicate IsSplit(text: string, gaps: seq<string>, chunks: seq<string>) {
    && |gaps| == |chunks| + 1 && Weave(gaps, chunks) == text
    && GoodGaps(gaps, Least(Paragraphs(text))) && GoodChunks(chunks)
    && Loose(gaps, chunks) <= LongAfterFirst(Paragraphs(text))
    && (Small(Paragraphs(text)) ==> Packed(gaps, chunks))
  }

  lemma FinishSplit(c: Cut, text: string) returns (gaps: seq<string>)
    requires ParagraphsRead(c, Paragraphs(text), |Paragraphs(text)|)
    ensures IsSplit(text, gaps, if c.current != "" then c.chunks + [c.current] else c.chunks)
  {
    var ps := Paragraphs(text);
    assert ps[..|ps|] == ps;
    ParagraphsGlue(text);
    gaps := Finish(c, text, Least(ps));
    if Small(ps) {
      SmallHasNoLong(ps);
      NoneLooseIsPacked(gaps, if c.current != "" then c.chunks + [c.current] else c.chunks);
    }
  }

  /** A paragraph over the limit holds more than newlines, so it leaves a chunk. */
  lemma {:induction false} LongParagraphShows(c0: Cut, c: Cut, p: string)
    requires Shaped(c0) && Good(c, 1) && Whole(c) == Whole(c0) + p && |p| > MAX_LEN && FirstBreak(p) == -1
    ensures !(c.chunks == [] && c.current == "")
  {
    if c.chunks == [] && c.current == "" {
      assert Whole(c) == c.gaps[0] + "" == c.gaps[0];
      forall k | 0 <= k < |p| ensures p[k] == '\n' {
        assert p[k] == (Whole(c0) + p)[|Whole(c0)| + k];
      }
      FirstBreakOfNewlines(p);
    }
  }

  lemma {:induction false} NoBreakBefore(s: string)
    requires FirstBreak(s) != -1
    ensures FirstBreak(s[..FirstBreak(s)]) == -1
  {
    var i := FirstBreak(s);
    if i > 0 {
      NoBreakBefore(s[1..]);
      assert s[..i][1..] == s[1..][..i - 1];
    }
  }

  /** No paragraph has a break of its own. */
  lemma {:induction false} ParagraphsHaveNoBreak(s: string)
    ensures forall i | 0 <= i < |Paragraphs(s)| :: FirstBreak(Paragraphs(s)[i]) == -1
    decreases |s|
  {
    var i := FirstBreak(s);
    if i != -1 {
      NoBreakBefore(s);
      ParagraphsHaveNoBreak(s[i + 2..]);
    }
  }

  method ReadLongParagraph(chunks0: seq<string>, current0: string, ps: seq<string>, i: nat, ghost c0: Cut)
    returns (chunks: seq<string>, current: string, ghost c: Cut)
    requires i < |ps| && ParagraphsRead(c0, ps, i) && c0.chunks == chunks0 && c0.current == current0
    requires FirstBreak(ps[i]) == -1 && |ps[i]| > MAX_LEN
    ensures Good(c, 1) && Whole(c) == Glue(ps[..i + 1], "\n\n") && c.chunks == chunks && c.current == current
    ensures LooseSoFar(c) <= LongAfterFirst(ps[..i + 1])
    ensures !(chunks == [] && current == "")
  {
    ClosedReads(c0, ps, i);
    ClosedLoose(c0, ps, i);
    chunks, current := chunks0, current0;
    if |current| > 0 {
      chunks := chunks + [current];
      current := "";
    }
    chunks, current, c := SplitLines(Closed(c0, i), chunks, ps[i]);
    LongParagraphShows(Closed(c0, i), c, ps[i]);
  }

  lemma LongReads(c: Cut, ps: seq<string>, i: nat)
    requires i < |ps| && |ps[i]| > MAX_LEN && Good(c, 1) && Whole(c) == Glue(ps[..i + 1], "\n\n")
    requires LooseSoFar(c) <= LongAfterFirst(ps[..i + 1])
    ensures ParagraphsRead(c, ps, i + 1)
  {
    assert !Small(ps);
  }

  method ReadParagraph(chunks0: seq<string>, current0: string, ps: seq<string>, i: nat, ghost c0: Cut)
    returns (chunks: seq<string>, current: string, ghost c: Cut)
    requires i < |ps| && ParagraphsRead(c0, ps, i) && c0.chunks == chunks0 && c0.current == current0
    requires FirstBreak(ps[i]) == -1
    ensures ParagraphsRead(c, ps, i + 1) && c.chunks == chunks && c.current == current
    ensures chunks == [] && current == "" <==> chunks0 == [] && current0 == "" && ps[i] == ""
  {
    if |ps[i]| > MAX_LEN {
      chunks, current, c := ReadLongParagraph(chunks0, current0, ps, i, c0);
      LongReads(c, ps, i);
    } else {
      SmallNext(c0, ps, i);
      chunks, current := AddPiece(chunks0, current0, "\n\n", ps[i], c0);
      c := NextSmall(c0, i, ps[i]);
    }
  }

  predicate AllEmpty(paragraphs: seq<string>) {
    forall i | 0 <= i < |paragraphs| :: paragraphs[i] == ""
  }

  lemma AllEmptyBack(ps: seq<string>, i: nat)
    requires i < |ps|
    ensures AllEmpty(ps[..i + 1]) <==> AllEmpty(ps[..i]) && ps[i] == ""
  {
    assert ps[..i + 1] == ps[..i] + [ps[i]];
  }

  lemma StartReads(ps: seq<string>)
    ensures ParagraphsRead(Cut([""], [], ""), ps, 0)
  {
  }

  // ---------- when every chunk keeps to the limit ----------

  predicate AllWithin(pieces: seq<string>) {
    forall i | 0 <= i < |pieces| :: |pieces[i]| <= MAX_LEN
  }

  /** One character more than the limit from `p` on, none of them a newline. */
  predicate Stretch(s: string, p: nat) {
    p + MAX_LEN < |s| && forall k | p <= k <= p + MAX_LEN :: s[k] != '\n'
  }

  /** A text has more than MAX_LEN characters in a row without a newline. */
  ghost predicate HasLong(s: string) {
    exists p: nat :: Stretch(s, p)
  }

  lemma LongInSum(a: string, b: string)
    ensures HasLong(a) || HasLong(b) ==> HasLong(a + b)
  {
    if HasLong(a) {
      var p: nat :| Stretch(a, p);
      assert Stretch(a + b, p);
    } else if HasLong(b) {
      var p: nat :| Stretch(b, p);
      assert forall k | |a| + p <= k <= |a| + p + MAX_LEN :: (a + b)[k] == b[k - |a|];
      assert Stretch(a + b, |a| + p);
    }
  }

  /** No stretch crosses a newline. */
  lemma LongInEither(a: string, b: string)
    requires a == "" || a[|a| - 1] == '\n' || b == "" || b[0] == '\n'
    ensures HasLong(a + b) ==> HasLong(a) || HasLong(b)
  {
    assert a != "" ==> (a + b)[|a| - 1] == a[|a| - 1];
    assert b != "" ==> (a + b)[|a|] == b[0];
    if HasLong(a + b) {
      var p: nat :| Stretch(a + b, p);
      if p + MAX_LEN < |a| {
        assert forall k | p <= k <= p + MAX_LEN :: a[k] == (a + b)[k];
        assert Stretch(a, p);
      } else if p >= |a| {
        assert forall k | p - |a| <= k <= p - |a| + MAX_LEN :: b[k] == (a + b)[|a| + k];
        assert Stretch(b, p - |a|);
      }
    }
  }

  lemma NewlinesAreShort(s: string)
    requires Newlines(s)
    ensures !HasLong(s)
  {
    forall p: nat ensures !Stretch(s, p) {
      assert p < |s| ==> s[p] == '\n';
    }
  }

  lemma OneLine(s: string)
    requires '\n' !in s
    ensures HasLong(s) <==> |s| > MAX_LEN
  {
    if |s| > MAX_LEN {
      assert Stretch(s, 0);
    }
  }

  lemma {:induction false} LongIffLongLine(s: string)
    ensures HasLong(s) <==> !AllWithin(Split(s, '\n'))
    decreases |s|
  {
    var i := IndexOf(s, '\n');
    if i == -1 {
      OneLine(s);
      assert Split(s, '\n')[0] == s;
    } else {
      var first, rest := s[..i], s[i + 1..];
      LongIffLongLine(rest);
      OneLine(first);
      LongAround(first, "\n", rest);
      assert s == first + "\n" + rest;
      WithinFront(first, Split(rest, '\n'));
    }
  }

  lemma WithinFront(first: string, rest: seq<string>)
    ensures AllWithin([first] + rest) <==> |first| <= MAX_LEN && AllWithin(rest)
  {
    var all := [first] + rest;
    assert all[0] == first && forall k | 0 <= k < |rest| :: all[k + 1] == rest[k];
  }

  lemma WithinBack(rest: seq<string>, last: string)
    ensures AllWithin(rest + [last]) <==> AllWithin(rest) && |last| <= MAX_LEN
  {
    var all := rest + [last];
    assert all[|rest|] == last && forall k | 0 <= k < |rest| :: all[k] == rest[k];
  }

  /** Text on both sides of at least one newline. */
  lemma LongAround(a: string, gap: string, b: string)
    requires Newlines(gap) && gap != ""
    ensures HasLong(a + gap + b) <==> HasLong(a) || HasLong(b)
  {
    NewlinesAreShort(gap);
    LongInEither(a, gap);
    assert (a + gap)[|a + gap| - 1] == gap[|gap| - 1];
    LongInEither(a + gap, b);
    LongInSum(a, gap);
    LongInSum(a + gap, b);
  }

  lemma LongInGood(chunk: string)
    requires Fits(chunk)
    ensures HasLong(chunk) <==> |chunk| > MAX_LEN
  {
    if '\n' !in chunk { OneLine(chunk); }
  }

  /** The woven text before a chunk is empty or ends in a newline. */
  lemma {:induction false} BreakBeforeChunk(gaps: seq<string>, chunks: seq<string>)
    requires |gaps| == |chunks| + 1 && Newlines(gaps[|gaps| - 1]) && (chunks != [] ==> gaps[|gaps| - 1] != "")
    ensures var w := Weave(gaps, chunks); w == "" || w[|w| - 1] == '\n'
  {
    var gap, w := gaps[|gaps| - 1], Weave(gaps, chunks);
    if chunks != [] {
      assert w[|w| - 1] == gap[|gap| - 1];
    }
  }

  lemma LongInWeaveStep(w: string, chunk: string, gap: string)
    requires w == "" || w[|w| - 1] == '\n'
    requires Newlines(gap)
    ensures HasLong(w + chunk + gap) <==> HasLong(w) || HasLong(chunk)
  {
    NewlinesAreShort(gap);
    LongInEither(w, chunk);
    LongInSum(w, chunk);
    LongInEither(w + chunk, gap);
    LongInSum(w + chunk, gap);
  }

  lemma {:induction false} LongIffLongChunk(gaps: seq<string>, chunks: seq<string>)
    requires |gaps| == |chunks| + 1 && GoodGaps(gaps, 1) && GoodChunks(chunks)
    ensures HasLong(Weave(gaps, chunks)) <==> !AllWithin(chunks)
  {
    if chunks == [] {
      NewlinesAreShort(gaps[0]);
    } else {
      var gs, cs, chunk := gaps[..|gaps| - 1], chunks[..|chunks| - 1], chunks[|chunks| - 1];
      LongIffLongChunk(gs, cs);
      BreakBeforeChunk(gs, cs);
      LongInWeaveStep(Weave(gs, cs), chunk, gaps[|gaps| - 1]);
      LongInGood(chunk);
      WithinBack(cs, chunk);
      assert chunks == cs + [chunk];
    }
  }

  /** The limit is kept by all chunks of a split if and only if it is kept by all lines. */
  lemma {:induction false} ChunksFitIffLinesFit(text: string, gaps: seq<string>, chunks: seq<string>)
    requires IsSplit(text, gaps, chunks)
    ensures AllWithin(chunks) <==> AllWithin(Split(text, '\n'))
  {
    LongIffLongChunk(gaps, chunks);
    LongIffLongLine(text);
  }

  lemma {:induction false} LinesOfShortText(text: string)
    requires |text| <= MAX_LEN
    ensures AllWithin(Split(text, '\n')) && AllWithin([text])
  {
    LongIffLongLine(text);
  }

  /** A text that is one line of 4001 characters has a chunk over the limit. */
  lemma OneLongLine(text: string, gaps: seq<string>, chunks: seq<string>)
    requires text == seq(4001, i => 'x') && IsSplit(text, gaps, chunks)
    ensures exists i :: 0 <= i < |chunks| && |chunks[i]| > MAX_LEN
  {
    OneLine(text);
    LongIffLongChunk(gaps, chunks);
  }

  method SplitLong(text: string) returns (chunks: seq<string>, current: string, ghost c: Cut)
    ensures ParagraphsRead(c, Paragraphs(text), |Paragraphs(text)|) && c.chunks == chunks && c.current == current
    ensures chunks == [] && current == "" <==> AllEmpty(Paragraphs(text))
  {
    var paragraphs := Paragraphs(text);
    ParagraphsHaveNoBreak(text);
    chunks, current, c := [], "", Cut([""], [], "");
    StartReads(paragraphs);
    var i := 0;
    while i < |paragraphs|
      invariant 0 <= i <= |paragraphs| && ParagraphsRead(c, paragraphs, i)
      invariant c.chunks == chunks && c.current == current
      invariant chunks == [] && current == "" <==> AllEmpty(paragraphs[..i])
    {
      chunks, current, c := ReadNext(chunks, current, paragraphs, i, c);
      i := i + 1;
    }
    assert paragraphs[..i] == paragraphs;
  }

  method ReadNext(chunks0: seq<string>, current0: string, ps: seq<string>, i: nat, ghost c0: Cut)
    returns (chunks: seq<string>, current: string, ghost c: Cut)
    requires i < |ps| && ParagraphsRead(c0, ps, i) && c0.chunks == chunks0 && c0.current == current0
    requires forall k | 0 <= k < |ps| :: FirstBreak(ps[k]) == -1
    requires chunks0 == [] && current0 == "" <==> AllEmpty(ps[..i])
    ensures ParagraphsRead(c, ps, i + 1) && c.chunks == chunks && c.current == current
    ensures chunks == [] && current == "" <==> AllEmpty(ps[..i + 1])
  {
    AllEmptyBack(ps, i);
    chunks, current, c := ReadParagraph(chunks0, current0, ps, i, c0);
  }

  /**
   Splitting loses only newlines between and around the chunks.  A text within the limit is
   one chunk.  Otherwise no chunk is empty, each keeps to the limit unless it is a single
   longer line, and when every paragraph keeps to the limit the text is cut at paragraph
   breaks only and no two neighbouring chunks could have been one; each paragraph over the
   limit, unless it is the first, lets at most one such pair stand.

   All chunks keep to the limit exactly when all lines do, and there is no chunk exactly for
   an even number of newlines over the limit.
   */
  method SplitMessage(text: string) returns (chunks: seq<string>, ghost gaps: seq<string>)
    ensures |text| <= 4000 ==> chunks == [text]
    ensures |text| > 4000 ==> IsSplit(text, gaps, chunks)
    ensures AllWithin(chunks) <==> AllWithin(Split(text, '\n'))
    ensures |text| > MAX_LEN ==> (chunks == [] <==> Newlines(text) && |text| % 2 == 0)
  {
    gaps := [];
    if |text| <= MAX_LEN {
      LinesOfShortText(text);
      return [text], [];
    }
    var current;
    ghost var c;
    chunks, current, c := SplitLong(text);
    gaps := FinishSplit(c, text);
    if |current| > 0 {
      chunks := chunks + [current];
    }
    OnlyEvenNewlinesAreSilent(text);
    ChunksFitIffLinesFit(text, gaps, chunks);
  }

  // ---------- what a split means ----------

  /** Paragraphs that are all empty are exactly an even number of newlines: over the limit,
      such a text is not sent at all. */
  lemma {:induction false} OnlyEvenNewlinesAreSilent(text: string)
    ensures AllEmpty(Paragraphs(text)) <==> Newlines(text) && |text| % 2 == 0
    decreases |text|
  {
    var i := FirstBreak(text);
    if i == -1 {
      NoBreakNoSilence(text);
      AllEmptyFront(text, []);
      assert Paragraphs(text) == [text] + [];
    } else {
      var rest := text[i + 2..];
      OnlyEvenNewlinesAreSilent(rest);
      AllEmptyFront(text[..i], Paragraphs(rest));
      NewlinesPastBreak(text, i);
    }
  }

  lemma AllEmptyFront(first: string, rest: seq<string>)
    ensures AllEmpty([first] + rest) <==> first == "" && AllEmpty(rest)
  {
    var all := [first] + rest;
    assert all[0] == first && forall k | 0 <= k < |rest| :: all[k + 1] == rest[k];
  }

  lemma {:induction false} NewlinesPastBreak(text: string, i: nat)
    requires FirstBreak(text) == i
    ensures Newlines(text) && |text| % 2 == 0 <==> i == 0 && Newlines(text[i + 2..]) && |text[i + 2..]| % 2 == 0
  {
    var rest := text[i + 2..];
    if Newlines(text) {
      FirstBreakOfNewlines(text);
    }
    if i == 0 && Newlines(rest) {
      forall k | 0 <= k < |text| ensures text[k] == '\n' {
        if k >= 2 { assert text[k] == rest[k - 2]; }
      }
    }
  }

  lemma {:induction false} FirstBreakOfNewlines(s: string)
    requires Newlines(s) && |s| >= 2
    ensures FirstBreak(s) == 0
  {
  }

  lemma {:induction false} NoBreakNoSilence(s: string)
    requires FirstBreak(s) == -1
    ensures Newlines(s) && |s| % 2 == 0 <==> s == ""
  {
    if Newlines(s) && |s| >= 2 { FirstBreakOfNewlines(s); }
  }

  function Letters(s: string): string {
    if s == "" then "" else Letters(s[..|s| - 1]) + if s[|s| - 1] == '\n' then "" else [s[|s| - 1]]
  }

  lemma {:induction false} LettersOfSum(a: string, b: string)
    ensures Letters(a + b) == Letters(a) + Letters(b)
  {
    if b == "" {
      assert a + b == a;
    } else {
      var init, c := b[..|b| - 1], b[|b| - 1];
      LettersOfSum(a, init);
      assert (a + b)[..|a + b| - 1] == a + init;
    }
  }

  lemma {:induction false} LettersOfNewlines(s: string)
    requires Newlines(s)
    ensures Letters(s) == ""
  {
    if s != "" {
      LettersOfNewlines(s[..|s| - 1]);
    }
  }

  function AllLetters(chunks: seq<string>): string {
    if chunks == [] then "" else AllLetters(chunks[..|chunks| - 1]) + Letters(chunks[|chunks| - 1])
  }

  lemma {:induction false} WovenLetters(gaps: seq<string>, chunks: seq<string>)
    requires |gaps| == |chunks| + 1 && forall i | 0 <= i < |gaps| :: Newlines(gaps[i])
    ensures Letters(Weave(gaps, chunks)) == AllLetters(chunks)
  {
    LettersOfNewlines(gaps[|gaps| - 1]);
    if chunks != [] {
      var gs, cs := gaps[..|gaps| - 1], chunks[..|chunks| - 1];
      WovenLetters(gs, cs);
      LettersOfSum(Weave(gs, cs), chunks[|chunks| - 1]);
      LettersOfSum(Weave(gs, cs) + chunks[|chunks| - 1], gaps[|gaps| - 1]);
    }
  }

  /** Every character that is not a newline is sent, once, in order. */
  lemma {:induction false} NothingElseIsLost(text: string, gaps: seq<string>, chunks: seq<string>)
    requires IsSplit(text, gaps, chunks)
    ensures Letters(text) == AllLetters(chunks)
  {
    WovenLetters(gaps, chunks);
  }
}
