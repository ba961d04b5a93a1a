/** When the text that is printed is itself a patch. */
module PrintedPatch {
  import opened Wrappers
  import opened EditDistance
  import opened PatchSemantics
  import opened UnifiedDiff
  import opened DiffReader
  import Text = DiffText

  // ----- headers are read whatever the lines contain

  lemma {:induction false} LinesAppend(text: string, more: string)
    requires LinesOf(text).1 == ""
    ensures LinesOf(text + more) == (LinesOf(text).0 + LinesOf(more).0, LinesOf(more).1)
  {
    if more == "" {
      assert text + more == text && LinesOf(text).0 + [] == LinesOf(text).0;
    } else {
      LinesAppend(text, Front(more));
      assert Front(text + more) == text + Front(more) && Last(text + more) == Last(more);
      var (lines, current) := LinesOf(Front(more));
      assert LinesOf(text).0 + lines + [current] == LinesOf(text).0 + (lines + [current]);
    }
  }

  lemma {:induction false} BodyEnds(body: seq<Line>)
    ensures LinesOf(Text.RenderBody(body)).1 == ""
  {
    if body != [] {
      var last := body[|body| - 1];
      var start := Text.RenderBody(body[..|body| - 1]) + [last.tag] + last.text;
      FrontLast(start, '\n');
    }
  }

  lemma {:induction false} HunkEnds(text: string, h: HunkText)
    requires LinesOf(text).1 == ""
    ensures LinesOf(text + HeaderLine(h.header) + "\n") == (LinesOf(text).0 + [HeaderLine(h.header)], "")
    ensures LinesOf(text + Text.Render(h)).1 == ""
    ensures text + Text.Render(h) == text + HeaderLine(h.header) + "\n" + Text.RenderBody(h.body)
  {
    hide LinesOf, HeaderLine, Text.RenderHeader, Text.RenderBody;
    HeaderReads(h.header);
    LineEnds(text, HeaderLine(h.header));
    BodyEnds(h.body);
    LinesAppend(text + HeaderLine(h.header) + "\n", Text.RenderBody(h.body));
    assert text + Text.Render(h) == text + HeaderLine(h.header) + "\n" + Text.RenderBody(h.body);
  }

  /** More lines leave the headers read so far as they are. */
  lemma {:induction false} ReadMore(lines: seq<string>, more: seq<string>)
    requires ReadLines(lines + more).Some?
    ensures ReadLines(lines).Some? && |ReadLines(lines).value| <= |ReadLines(lines + more).value|
    ensures forall i :: 0 <= i < |ReadLines(lines).value| ==> ReadLines(lines + more).value[i].header == ReadLines(lines).value[i].header
  {
    hide ReadLine;
    if more == [] {
      assert lines + more == lines;
    } else {
      assert Front(lines + more) == lines + Front(more) && Last(lines + more) == Last(more);
      ReadMore(lines, Front(more));
      ReadOneMore(ReadLines(lines + Front(more)).value, Last(more));
    }
  }

  lemma {:induction false} ReadOneMore(hs: seq<HunkText>, line: string)
    requires ReadLine(hs, line).Some?
    ensures |hs| <= |ReadLine(hs, line).value|
    ensures forall i :: 0 <= i < |hs| ==> ReadLine(hs, line).value[i].header == hs[i].header
  {
    hide ReadHeader;
  }

  /** If the text reads at all, every header that was printed is read. */
  lemma {:induction false} HeaderIsRead(text: string, hs: seq<HunkText>, k: nat)
    requires LinesOf(text).1 == "" && k < |hs| && ReadDiff(text + Text.RenderAll(hs)).Some?
    ensures var rs := ReadDiff(text + Text.RenderAll(hs)).value; exists i :: 0 <= i < |rs| && rs[i].header == hs[k].header
    decreases k
  {
    hide LinesOf, ReadLines, Text.Render, HeaderLine, ReadHeader;
    HunkEnds(text, hs[0]);
    var all := text + Text.RenderAll(hs);
    assert all == text + Text.Render(hs[0]) + Text.RenderAll(hs[1..]);
    if k == 0 {
      var start, rest := text + HeaderLine(hs[0].header) + "\n", Text.RenderBody(hs[0].body) + Text.RenderAll(hs[1..]);
      assert all == start + rest;
      LinesAppend(start, rest);
      var lines := LinesOf(text).0 + [HeaderLine(hs[0].header)];
      ReadMore(lines, LinesOf(rest).0);
      HeaderLineReads(LinesOf(text).0, hs[0].header);
      var rs := ReadLines(lines).value;
      assert ReadDiff(all).value[|rs| - 1].header == hs[0].header;
    } else {
      HeaderIsRead(text + Text.Render(hs[0]), hs[1..], k - 1);
    }
  }

  lemma {:induction false} HeaderLineReads(lines: seq<string>, h: Text.Header)
    requires ReadLines(lines + [HeaderLine(h)]).Some?
    ensures var rs := ReadLines(lines + [HeaderLine(h)]).value; rs != [] && Last(rs).header == h
  {
    hide HeaderLine, ReadHeader;
    HeaderReads(h);
    FrontLast(lines, HeaderLine(h));
  }

  // ----- a hunk that applies shows what its header says

  ghost predicate Stretch(text: seq<string>, range: Option<Text.Range>, part: seq<string>)
  {
    range.Some? ==>
      && 1 <= range.value.start && range.value.start - 1 + range.value.len <= |text|
      && part == text[range.value.start - 1..range.value.start - 1 + range.value.len]
  }

  /** The hunk's sides are the stretches of the two texts that its header names. */
  ghost predicate Shows(left: seq<string>, right: seq<string>, h: HunkText)
  {
    Stretch(left, h.header.left, Side(h.body, '+')) && Stretch(right, h.header.right, Side(h.body, '-'))
  }

  lemma {:induction false} AppliedShows(oldText: seq<string>, at: Progress, h: HunkText)
    requires ApplyHunk(oldText, at, h).Some?
    ensures Shows(oldText, ApplyHunk(oldText, at, h).value.made, h)
  {
    hide Side;
    var made := ApplyHunk(oldText, at, h).value.made;
    var added := Side(h.body, '-');
    assert made[|made| - |added|..] == added;
  }

  lemma {:induction false} PatchShows(oldText: seq<string>, newText: seq<string>, hs: seq<HunkText>, i: nat)
    requires i < |hs| && Patch(oldText, hs) == Some(newText)
    ensures Shows(oldText, newText, hs[i])
  {
    hide ApplyHunk, Side;
    var upto := hs[..i + 1];
    assert hs == upto + hs[i + 1..] && upto[..|upto| - 1] == hs[..i];
    LaterHunks(oldText, upto, hs[i + 1..]);
    AppliedShows(oldText, ApplyAll(oldText, hs[..i]).value, hs[i]);
    var made := ApplyAll(oldText, upto).value.made;
    assert made <= newText;
    LongerTextShows(oldText, made, newText, hs[i]);
  }

  lemma {:induction false} LongerTextShows(oldText: seq<string>, made: seq<string>, newText: seq<string>, h: HunkText)
    requires Shows(oldText, made, h) && made <= newText
    ensures Shows(oldText, newText, h)
  {
    if h.header.right.Some? {
      var a := h.header.right.value.start - 1;
      var b := a + h.header.right.value.len;
      assert newText[..|made|][a..b] == newText[a..b];
    }
  }

  lemma {:induction false} FlippedShows(left: seq<string>, right: seq<string>, h: HunkText)
    requires Shows(right, left, Flip(h))
    ensures Shows(left, right, h)
  {
  }

  /** A covering hunk shows its stretches. */
  lemma {:induction false} CoveringShows(left: seq<string>, right: seq<string>, shownLeft: seq<string>, shownRight: seq<string>,
                                         l0: nat, r0: nat, hs: seq<HunkText>, spans: seq<Span>, k: nat)
    requires CoversAll(left, right, shownLeft, shownRight, l0, r0, hs, spans) && k < |hs|
    ensures Shows(shownLeft, shownRight, hs[k])
    decreases k
  {
    hide Side;
    if k > 0 { CoveringShows(left, right, shownLeft, shownRight, spans[0].l2, spans[0].r2, hs[1..], spans[1..], k - 1); }
  }

  // ----- broken lines

  lemma {:induction false} SideHas(body: seq<Line>, skip: char, j: nat) returns (x: nat)
    requires j < |body| && body[j].tag != skip
    ensures x < |Side(body, skip)| && Side(body, skip)[x] == body[j].text
  {
    var n := |body| - 1;
    if j == n { x := |Side(body[..n], skip)|; } else { x := SideHas(body[..n], skip, j); }
  }

  lemma {:induction false} SideUnbroken(body: seq<Line>, skip: char)
    requires Unbroken(body)
    ensures forall x :: 0 <= x < |Side(body, skip)| ==> Lacks(Side(body, skip)[x], '\n')
  {
    if body != [] { SideUnbroken(body[..|body| - 1], skip); }
  }

  /** A line with a break, at its place in a text, cannot be shown there by a hunk without. */
  lemma {:induction false} BreakIsMissed(text: seq<string>, range: Option<Text.Range>, body: seq<Line>, readBody: seq<Line>, skip: char, j: nat)
    requires range.Some? && j < |body| && body[j].tag != skip
    requires Stretch(ShownLines(text), range, Side(body, skip)) && Stretch(text, range, Side(readBody, skip)) && Unbroken(readBody)
    ensures Lacks(body[j].text, '\n')
  {
    hide Side, ShownLines, Lacks;
    var x := SideHas(body, skip, j);
    SideUnbroken(readBody, skip);
    var i := range.value.start - 1 + x;
    assert ShownLines(text)[i] == body[j].text && text[i] == Side(readBody, skip)[x];
    PrefixLacks(body[j].text, text[i]);
  }

  lemma {:induction false} PrefixLacks(a: string, b: string)
    requires a <= b && Lacks(b, '\n')
    ensures Lacks(a, '\n')
  {
    forall i | 0 <= i < |a| ensures a[i] != '\n' { assert a[i] == b[i]; }
  }

  /** If a hunk with this header, as read, shows the texts, then the hunk that was printed has no break in its lines. */
  lemma {:induction false} ShownHunkUnbroken(left: seq<string>, right: seq<string>, h: HunkText, r: HunkText)
    requires Shows(ShownLines(left), ShownLines(right), h) && HeaderFits(h) && Tagged(h.body)
    requires Shows(left, right, r) && r.header == h.header && Unbroken(r.body)
    ensures Unbroken(h.body)
  {
    hide Side, ShownLines, Lacks, Stretch;
    forall j | 0 <= j < |h.body| ensures Lacks(h.body[j].text, '\n') {
      if h.header.left.Some? && h.body[j].tag != '+' {
        BreakIsMissed(left, h.header.left, h.body, r.body, '+', j);
      } else {
        BreakIsMissed(right, h.header.right, h.body, r.body, '-', j);
      }
    }
  }

  ghost predicate AllShow(left: seq<string>, right: seq<string>, hs: seq<HunkText>)
  {
    forall k :: 0 <= k < |hs| ==> Shows(left, right, hs[k])
  }

  lemma {:induction false} PatchAllShow(left: seq<string>, right: seq<string>, rs: seq<HunkText>)
    ensures Patch(left, rs) == Some(right) ==> AllShow(left, right, rs)
    ensures Patch(right, FlipAll(rs)) == Some(left) ==> AllShow(left, right, rs)
  {
    hide Patch, Shows;
    if Patch(left, rs) == Some(right) {
      forall i | 0 <= i < |rs| ensures Shows(left, right, rs[i]) { PatchShows(left, right, rs, i); }
    }
    if Patch(right, FlipAll(rs)) == Some(left) {
      forall i | 0 <= i < |rs| ensures Shows(left, right, rs[i]) {
        PatchShows(right, left, FlipAll(rs), i);
        FlippedShows(left, right, rs[i]);
      }
    }
  }

  lemma {:induction false} DiffShows(left: seq<string>, right: seq<string>, context: nat)
    ensures AllShow(ShownLines(left), ShownLines(right), DiffHunks(left, right, context))
  {
    hide At, Hunks, Spans, Trace, ShownLines, CoversAll, Shows;
    TraceFromTop(left, right);
    if context > 0 {
      var hs, spans := DiffHunks(left, right, context), DiffSpans(left, right, context);
      HunksCoverAll(Trace(left, right, |left|, |right|), left, right, context, 0, 0, 0);
      forall k | 0 <= k < |hs| ensures Shows(ShownLines(left), ShownLines(right), hs[k]) {
        CoveringShows(left, right, ShownLines(left), ShownLines(right), 0, 0, hs, spans, k);
      }
    } else {
      WithoutContextNothing(left, right);
    }
  }

  lemma {:induction false} DiffIsTagged(left: seq<string>, right: seq<string>, context: nat)
    ensures AllTagged(DiffHunks(left, right, context)) && HeadersFit(DiffHunks(left, right, context))
  {
    hide At, Hunks, Trace, ShownLines, Tagged, HeaderFits;
    TraceFromTop(left, right);
    HunksArePlain(Trace(left, right, |left|, |right|), ShownLines(left), ShownLines(right), context, 0, 0, 0, false);
  }

  /** What is read of a diff with a break in a shown line is no patch between the texts, in neither direction. */
  lemma {:induction false} PatchMeansUnbroken(left: seq<string>, right: seq<string>, context: nat)
    requires var read := ReadDiff(Text.RenderAll(DiffHunks(left, right, context)));
             read.Some? && (Patch(left, read.value) == Some(right) || Patch(right, FlipAll(read.value)) == Some(left))
    ensures AllUnbroken(DiffHunks(left, right, context))
  {
    hide DiffHunks, Patch, FlipAll, LinesOf, ReadLines, ShownLines, Shows, HeaderFits, Tagged, Unbroken;
    var hs := DiffHunks(left, right, context);
    var text := Text.RenderAll(hs);
    var rs := ReadDiff(text).value;
    PatchAllShow(left, right, rs);
    DiffShows(left, right, context);
    DiffIsTagged(left, right, context);
    FinishedLinesUnbroken(text);
    ReadUnbroken(LinesOf(text).0);
    EmptyHasNoLines();
    assert "" + text == text;
    forall k | 0 <= k < |hs| ensures Unbroken(hs[k].body) {
      HeaderIsRead("", hs, k);
      var i :| 0 <= i < |rs| && rs[i].header == hs[k].header;
      ShownHunkUnbroken(left, right, hs[k], rs[i]);
    }
  }

  lemma {:induction false} EmptyHasNoLines()
    ensures LinesOf("") == ([], "")
  {
  }

  /** The text that is printed reads back as a patch between the texts exactly when no line it shows has a line break in
      it and the hunks are a patch: the texts are equal, or some context was asked for and no line that is shown contains
      a NUL. The same condition decides both directions. */
  lemma {:induction false} PrintedDiffIsPatch(left: seq<string>, right: seq<string>, context: nat)
    ensures var hs := DiffHunks(left, right, context);
            var read := ReadDiff(Text.RenderAll(hs));
            var good := AllUnbroken(hs) && (left == right || (context > 0 && NoNulShown(left, right, DiffSpans(left, right, context))));
            && (read == Some(hs) <==> AllUnbroken(hs))
            && (read.Some? && Patch(left, read.value) == Some(right) <==> good)
            && (read.Some? && Patch(right, FlipAll(read.value)) == Some(left) <==> good)
  {
    hide DiffHunks, DiffSpans, Patch, FlipAll, ReadDiff, NoNulShown, AllUnbroken;
    var hs := DiffHunks(left, right, context);
    var read := ReadDiff(Text.RenderAll(hs));
    DiffIsTagged(left, right, context);
    PrintedHunksReadBack(hs);
    DiffThenPatch(left, right, context);
    if read.Some? && (Patch(left, read.value) == Some(right) || Patch(right, FlipAll(read.value)) == Some(left)) {
      PatchMeansUnbroken(left, right, context);
    }
  }

  /** For texts whose lines contain neither line breaks nor NULs, and with some context, what is printed reads back as a
      patch between them. */
  lemma {:induction false} PlainTextsPrintAPatch(left: seq<string>, right: seq<string>, context: nat)
    requires context > 0 && OneLiners(left, true) && OneLiners(right, true)
    requires forall i :: 0 <= i < |left| ==> '\0' !in left[i]
    requires forall i :: 0 <= i < |right| ==> '\0' !in right[i]
    ensures var read := ReadDiff(Text.RenderAll(DiffHunks(left, right, context)));
            read.Some? && Patch(left, read.value) == Some(right) && Patch(right, FlipAll(read.value)) == Some(left)
  {
    hide At, Hunks, Patch, FlipAll, Trace, ReadDiff, Spans, Lacks, AllUnbroken;
    TraceFromTop(left, right);
    var edits := Trace(left, right, |left|, |right|);
    assert ShownLines(left) == left && ShownLines(right) == right;
    HunksArePlain(edits, ShownLines(left), ShownLines(right), context, 0, 0, 0, true);
    PrintedDiffIsPatch(left, right, context);
  }
}
