/** How much unchanged text hunks show: what each opens and closes with, and where one hunk ends and the next begins. */
module HunkContext {
  import opened Wrappers
  import opened EditDistance
  import opened PatchSemantics
  import opened HunkState
  import opened UnifiedDiff
  import Text = DiffText

  // ----- what a hunk opens and closes with

  /** `context` unchanged lines stand before the first edit unless the text starts, and after the last unless it ends. */
  ghost predicate FullyFramed(body: seq<Line>, span: Span, left: seq<string>, right: seq<string>, context: nat)
  {
    exists before: nat, after: nat ::
      && Framed(body, before, after)
      && before <= context && (before == context || (span.l == 0 && span.r == 0))
      && after <= context && (after == context || (span.l2 == |left| && span.r2 == |right|))
  }

  // ----- how far apart the edits of a hunk are

  /** Between two edits of `body` next to each other stand fewer than `n` unchanged lines. */
  ghost predicate EditsClose(body: seq<Line>, n: nat)
  {
    forall i, j :: 0 <= i < j < |body| && body[i].tag != ' ' && body[j].tag != ' ' && AllCommon(body, i + 1, j) ==> j - i - 1 < n
  }

  ghost predicate AllCommon(body: seq<Line>, a: nat, b: nat)
    requires b <= |body|
  {
    forall k :: a <= k < b ==> body[k].tag == ' '
  }

  /** After the last edit of `body`, if any, stand at most `n` unchanged lines. */
  ghost predicate TailAtMost(body: seq<Line>, n: nat)
  {
    forall i :: 0 <= i < |body| && body[i].tag != ' ' && AllCommon(body, i + 1, |body|) ==> |body| - i - 1 <= n
  }

  ghost predicate AllEdits(body: seq<Line>)
  {
    forall i :: 0 <= i < |body| ==> body[i].tag != ' '
  }

  lemma {:induction false} EditsAppended(body: seq<Line>, edits: seq<Line>, n: nat)
    requires EditsClose(body, n) && AllEdits(edits) && (edits != [] ==> n > 0 && TailAtMost(body, n - 1))
    ensures EditsClose(body + edits, n)
    ensures edits != [] ==> TailAtMost(body + edits, 0)
  {
    var all := body + edits;
    assert forall k :: |body| <= k < |all| ==> all[k] == edits[k - |body|];
    assert edits != [] ==> all[|body|].tag != ' ' && all[|all| - 1].tag != ' ';
    forall i, j | 0 <= i < j < |all| && all[i].tag != ' ' && all[j].tag != ' ' && AllCommon(all, i + 1, j) ensures j - i - 1 < n {
      var next := all[i + 1];
      if j < |body| {
        assert AllCommon(body, i + 1, j) by { assert forall k :: i + 1 <= k < j ==> body[k] == all[k]; }
      } else if i < |body| {
        assert j == |body|;
        assert AllCommon(body, i + 1, |body|) by { assert forall k :: i + 1 <= k < |body| ==> body[k] == all[k]; }
      } else {
        assert next.tag != ' ';
      }
    }
  }

  lemma {:induction false} CommonAppended(body: seq<Line>, x: Line, n: nat, t: nat)
    requires EditsClose(body, n) && TailAtMost(body, t) && x.tag == ' '
    ensures EditsClose(body + [x], n) && TailAtMost(body + [x], t + 1)
  {
    var all := body + [x];
    forall i, j | 0 <= i < j < |all| && all[i].tag != ' ' && all[j].tag != ' ' && AllCommon(all, i + 1, j) ensures j - i - 1 < n {
      assert AllCommon(body, i + 1, j) by { assert forall k :: i + 1 <= k < j ==> body[k] == all[k]; }
    }
    forall i | 0 <= i < |all| && all[i].tag != ' ' && AllCommon(all, i + 1, |all|) ensures |all| - i - 1 <= t + 1 {
      assert AllCommon(body, i + 1, |body|) by { assert forall k :: i + 1 <= k < |body| ==> body[k] == all[k]; }
    }
  }

  /** The flushed lines are close, and with the waiting edits they stay so. */
  ghost predicate StateClose(h: State, n: nat, suffix: nat)
  {
    && n > 0 && EditsClose(h.hunk, n)
    && AllEdits(h.hunkRemoves + h.hunkAdds)
    && if h.hunkRemoves + h.hunkAdds == [] then TailAtMost(h.hunk, suffix) else TailAtMost(h.hunk, n - 1) && suffix == 0
  }

  lemma {:induction false} LinesClose(h: State, n: nat, suffix: nat)
    requires StateClose(h, n, suffix)
    ensures EditsClose(h.Lines(), n) && TailAtMost(h.Lines(), suffix)
  {
    var waiting := h.hunkRemoves + h.hunkAdds;
    assert h.Lines() == h.hunk + waiting;
    if waiting == [] { assert h.Lines() == h.hunk; }
    hide EditsClose, TailAtMost, AllEdits;
    EditsAppended(h.hunk, waiting, n);
  }

  lemma {:induction false} PushKeepsClose(h: State, edit: char, line: string, n: nat, suffix: nat)
    requires StateClose(h, n, suffix) && (edit == ' ' || edit == '-' || edit == '+')
    requires edit != ' ' ==> suffix < n
    ensures StateClose(h.Push(edit, line), n, if edit == ' ' then suffix + 1 else 0)
  {
    var x := Text.Line(edit, line);
    if edit == ' ' {
      hide EditsClose, TailAtMost;
      LinesClose(h, n, suffix);
      CommonAppended(h.Lines(), x, n, suffix);
    } else {
      TailGrows(h.hunk, suffix, n - 1);
      hide EditsClose, TailAtMost;
      assert edit == '-' ==> h.Push(edit, line).hunkRemoves == h.hunkRemoves + [x];
      assert edit == '+' ==> h.Push(edit, line).hunkAdds == h.hunkAdds + [x];
      assert forall i :: 0 <= i < |h.hunkRemoves| ==> h.hunkRemoves[i] == (h.hunkRemoves + h.hunkAdds)[i];
      assert forall i :: 0 <= i < |h.hunkAdds| ==> h.hunkAdds[i] == (h.hunkRemoves + h.hunkAdds)[|h.hunkRemoves| + i];
    }
  }

  lemma {:induction false} TailGrows(body: seq<Line>, a: nat, b: nat)
    requires a <= b
    ensures TailAtMost(body, a) ==> TailAtMost(body, b)
  {
  }

  /** Beyond `context` unchanged lines the next edit is so near that the run stays below twice `context`. */
  ghost predicate RunShort(edits: seq<EditType>, context: nat, c: Cut)
    requires c.e <= |edits|
  {
    c.suffix <= context || (FirstEdit(edits, c.e) < |edits| && c.suffix + (FirstEdit(edits, c.e) - c.e) < 2 * context)
  }

  lemma {:induction false} TakeEditClose(edits: seq<EditType>, left: seq<string>, right: seq<string>, context: nat, c: Cut)
    requires c.e < |edits| && CutAt(edits, left, right, c) && context > 0
    requires StateClose(c.h, 2 * context, c.suffix) && RunShort(edits, context, c)
    ensures var c' := TakeEdit(edits, left, right, c); StateClose(c'.h, 2 * context, c'.suffix)
  {
    hide At, StateClose, State.Push;
    ScriptStep(edits, left, right, c.e, c.l, c.r);
    var edit := edits[c.e];
    if edit != Add { PushKeepsClose(c.h, if edit == Match then ' ' else '-', left[c.l], 2 * context, c.suffix); }
    if edit == Add { PushKeepsClose(c.h, '+', right[c.r], 2 * context, c.suffix); }
    if edit == Replace { PushKeepsClose(c.h.Push('-', left[c.l]), '+', right[c.r], 2 * context, 0); }
  }

  lemma {:induction false} TakeEditShort(edits: seq<EditType>, left: seq<string>, right: seq<string>, context: nat, c: Cut)
    requires c.e < |edits| && CutAt(edits, left, right, c) && RunShort(edits, context, c)
    requires c.suffix < context || EditNear(edits, c.e, context)
    ensures var c' := TakeEdit(edits, left, right, c); c'.e <= |edits| && RunShort(edits, context, c')
  {
    hide At, State.Push;
    AtBounds(edits, left, right, c.e + 1, TakeEdit(edits, left, right, c).l, TakeEdit(edits, left, right, c).r);
    if edits[c.e] == Match && c.suffix >= context {
      var j :| c.e <= j < |edits| && j - c.e < context && edits[j] != Match;
      assert FirstEdit(edits, c.e) == FirstEdit(edits, c.e + 1) <= j;
    }
  }

  lemma {:induction false} FillClose(edits: seq<EditType>, left: seq<string>, right: seq<string>, context: nat, c: Cut)
    requires CutAt(edits, left, right, c) && context > 0 && c.e <= |edits|
    requires StateClose(c.h, 2 * context, c.suffix) && RunShort(edits, context, c)
    ensures EditsClose(Fill(edits, left, right, context, c).h.Lines(), 2 * context)
    decreases |edits| - c.e
  {
    hide At, EditNear, TakeEdit, StateClose, RunShort, EditsClose;
    if c.e == |edits| || (c.suffix >= context && !EditNear(edits, c.e, context)) {
      LinesClose(c.h, 2 * context, c.suffix);
    } else {
      TakeEditClose(edits, left, right, context, c);
      TakeEditShort(edits, left, right, context, c);
      FillClose(edits, left, right, context, TakeEdit(edits, left, right, c));
    }
  }

  lemma {:induction false} OpenedClose(left: seq<string>, l: nat, r: nat, prefix: nat, n: nat)
    requires prefix <= l <= |left| && prefix <= r && n > 0
    ensures StateClose(Opened(left, l, r, prefix), n, 0)
  {
  }

  lemma {:induction false} NextCutClose(edits: seq<EditType>, left: seq<string>, right: seq<string>, context: nat, e: nat, l: nat, r: nat)
    requires At(edits, left, right, e, l, r) && Ready(edits, context, e, l, r) && e < |edits| && context > 0
    ensures EditsClose(NextCut(edits, left, right, context, e, l, r).h.Lines(), 2 * context)
  {
    hide At, EditNear, StateClose, EditsClose, Opened, Fill;
    var s := FirstEdit(edits, e);
    SkippedIsCommon(edits, left, right, e, l, r, s);
    var l1, r1 := l + (s - e), r + (s - e);
    var p := Min(l1, context);
    OpenedClose(left, l1, r1, p, 2 * context);
    FillClose(edits, left, right, context, Cut(Opened(left, l1, r1, p), s, l1, r1, 0));
  }

  // ----- all hunks

  /** What every hunk shows around and between its edits. */
  ghost predicate ShowsContext(hs: seq<HunkText>, spans: seq<Span>, left: seq<string>, right: seq<string>, context: nat)
  {
    |spans| == |hs| && forall k :: 0 <= k < |hs| ==>
      FullyFramed(hs[k].body, spans[k], left, right, context) && EditsClose(hs[k].body, 2 * context)
  }

  lemma {:induction false} FramedFully(body: seq<Line>, span: Span, left: seq<string>, right: seq<string>, context: nat, before: nat, after: nat)
    requires Framed(body, before, after)
    requires before <= context && (before == context || (span.l == 0 && span.r == 0))
    requires after <= context && (after == context || (span.l2 == |left| && span.r2 == |right|))
    ensures FullyFramed(body, span, left, right, context)
  {
  }

  lemma {:induction false} JoinShown(hs: seq<HunkText>, spans: seq<Span>, more: seq<HunkText>, others: seq<Span>,
                                     left: seq<string>, right: seq<string>, context: nat)
    requires ShowsContext(hs, spans, left, right, context) && ShowsContext(more, others, left, right, context)
    ensures ShowsContext(hs + more, spans + others, left, right, context)
  {
    hide FullyFramed, EditsClose;
  }

  lemma {:induction false} HunksShowContext(edits: seq<EditType>, left: seq<string>, right: seq<string>, context: nat, e: nat, l: nat, r: nat)
    requires At(edits, left, right, e, l, r) && Ready(edits, context, e, l, r)
    ensures ShowsContext(Hunks(edits, left, right, context, e, l, r), Spans(edits, left, right, context, e, l, r), left, right, context)
    decreases |edits| - e
  {
    hide At, Covers, RemovesFirst, Framed, FullyFramed, EditNear, NextCut, EditsClose, State.Lines;
    AtBounds(edits, left, right, e, l, r);
    if e < |edits| {
      var hl, hr, before := NextCutIsGood(edits, left, right, context, e, l, r);
      var c := NextCut(edits, left, right, context, e, l, r);
      if c.h.adds + c.h.removes > 0 {
        HunksShowContext(edits, left, right, context, c.e, c.l, c.r);
        NextCutClose(edits, left, right, context, e, l, r);
        var rest, others := Hunks(edits, left, right, context, c.e, c.l, c.r), Spans(edits, left, right, context, c.e, c.l, c.r);
        var hs, spans := Hunks(edits, left, right, context, e, l, r), Spans(edits, left, right, context, e, l, r);
        assert hs == [c.h.Printed()] + rest && spans == [Span(hl, c.l, hr, c.r)] + others;
        AtBounds(edits, left, right, c.e, c.l, c.r);
        FramedFully(c.h.Lines(), Span(hl, c.l, hr, c.r), left, right, context, before, c.suffix);
        JoinShown([c.h.Printed()], [Span(hl, c.l, hr, c.r)], rest, others, left, right, context);
      }
    }
  }

  /** Every hunk of a diff opens with `context` unchanged lines, or with all there are when it reaches the start of the
      text; it closes likewise; and it goes on over fewer than twice `context` unchanged lines, but never over more. */
  lemma {:induction false} DiffShowsContext(left: seq<string>, right: seq<string>, context: nat)
    ensures ShowsContext(DiffHunks(left, right, context), DiffSpans(left, right, context), left, right, context)
  {
    hide At, Trace, Hunks, Spans, Framed, EditsClose, ShownLines;
    TraceFromTop(left, right);
    HunksShowContext(Trace(left, right, |left|, |right|), ShownLines(left), ShownLines(right), context, 0, 0, 0);
  }
}
