/** Unified diffs: the hunk that is filled edit by edit, the loops that cut an edit script into
    hunks, and the proof that the hunks are a patch. */
module UnifiedDiff {
  import opened Wrappers
  import opened CStrings
  import opened EditDistance
  import opened PatchSemantics
  import opened HunkState
  import Text = DiffText

  // ----- cutting a script into hunks, as functions

  /** The edits stay inside both texts and match only equal lines. */
  ghost predicate Follows<T>(edits: seq<EditType>, left: seq<T>, right: seq<T>)
  {
    edits == [] ||
    (Follows(Front(edits), left, right) && StepFits(Last(edits), left, right, UsedLeft(Front(edits)), UsedRight(Front(edits))))
  }

  ghost predicate StepFits<T>(e: EditType, left: seq<T>, right: seq<T>, l: nat, r: nat)
  {
    l + LeftStep(e) <= |left| && r + RightStep(e) <= |right| && (e == Match ==> left[l] == right[r])
  }

  lemma {:induction false} ValidFollows<T>(edits: seq<EditType>, left: seq<T>, right: seq<T>)
    requires ValidPath(edits, left, right)
    ensures Follows(edits, left, right)
  {
    if edits != [] { ValidFollows(Front(edits), left, right); }
  }

  /** The first `e` edits of a script for the two texts have used up `l` and `r` lines. */
  ghost predicate At<T>(edits: seq<EditType>, left: seq<T>, right: seq<T>, e: nat, l: nat, r: nat)
  {
    && Follows(edits, left, right) && UsedLeft(edits) == |left| && UsedRight(edits) == |right|
    && e <= |edits| && l == UsedLeft(edits[..e]) && r == UsedRight(edits[..e])
  }

  lemma {:induction false} PathPrefix<T>(edits: seq<EditType>, left: seq<T>, right: seq<T>, e: nat)
    requires Follows(edits, left, right) && e <= |edits|
    ensures Follows(edits[..e], left, right)
    ensures UsedLeft(edits[..e]) <= UsedLeft(edits) && UsedRight(edits[..e]) <= UsedRight(edits)
  {
    if e < |edits| {
      PathPrefix(Front(edits), left, right, e);
      assert Front(edits)[..e] == edits[..e];
    } else {
      assert edits[..e] == edits;
    }
  }

  lemma {:induction false} AtBounds<T>(edits: seq<EditType>, left: seq<T>, right: seq<T>, e: nat, l: nat, r: nat)
    requires At(edits, left, right, e, l, r)
    ensures e <= |edits| && l <= |left| && r <= |right|
    ensures e == |edits| ==> l == |left| && r == |right|
  {
    PathPrefix(edits, left, right, e);
    assert edits[..|edits|] == edits;
  }

  lemma {:induction false} FollowsSnoc<T>(edits: seq<EditType>, e: EditType, left: seq<T>, right: seq<T>)
    ensures UsedLeft(edits + [e]) == UsedLeft(edits) + LeftStep(e)
    ensures UsedRight(edits + [e]) == UsedRight(edits) + RightStep(e)
    ensures Follows(edits + [e], left, right) <==>
            Follows(edits, left, right) && StepFits(e, left, right, UsedLeft(edits), UsedRight(edits))
  {
    FrontLast(edits, e);
  }

  lemma {:induction false} ScriptStep<T>(edits: seq<EditType>, left: seq<T>, right: seq<T>, e: nat, l: nat, r: nat)
    requires e < |edits| && At(edits, left, right, e, l, r)
    ensures l + LeftStep(edits[e]) <= |left| && r + RightStep(edits[e]) <= |right|
    ensures edits[e] == Match ==> left[l] == right[r]
    ensures At(edits, left, right, e + 1, l + LeftStep(edits[e]), r + RightStep(edits[e]))
  {
    hide Follows, UsedLeft, UsedRight;
    PathPrefix(edits, left, right, e + 1);
    assert edits[..e + 1] == edits[..e] + [edits[e]];
    FollowsSnoc(edits[..e], edits[e], left, right);
  }

  /** Some edit other than a match lies fewer than `context` places ahead. */
  ghost predicate EditNear(edits: seq<EditType>, e: nat, context: nat)
  {
    exists j :: e <= j < |edits| && j - e < context && edits[j] != Match
  }

  lemma {:induction false} NoEditBeyondEnd(edits: seq<EditType>, context: nat)
    ensures !EditNear(edits, |edits|, context)
  {
  }

  lemma {:induction false} NothingNearWithoutContext(edits: seq<EditType>, e: nat)
    ensures !EditNear(edits, e, 0)
  {
  }

  lemma {:induction false} FarEditIsFar(edits: seq<EditType>, e: nat, s: nat, context: nat)
    requires !EditNear(edits, e, context) && e <= s < |edits| && edits[s] != Match
    ensures context <= s - e
  {
  }

  /** The state of the inner loop. */
  datatype Cut = Cut(h: State, e: nat, l: nat, r: nat, suffix: nat)

  ghost predicate CutAt(edits: seq<EditType>, left: seq<string>, right: seq<string>, c: Cut)
  {
    At(edits, left, right, c.e, c.l, c.r)
  }

  /** One edit goes into the hunk. */
  ghost function TakeEdit(edits: seq<EditType>, left: seq<string>, right: seq<string>, c: Cut): (c': Cut)
    requires c.e < |edits| && CutAt(edits, left, right, c)
    ensures CutAt(edits, left, right, c') && c'.e == c.e + 1 && c.l <= c'.l && c.r <= c'.r
    ensures c'.h.leftStart == c.h.leftStart && c'.h.rightStart == c.h.rightStart
  {
    ScriptStep(edits, left, right, c.e, c.l, c.r);
    var edit := edits[c.e];
    var h1 := if edit == Match then c.h.Push(' ', left[c.l])
              else if edit == EditType.Remove || edit == Replace then c.h.Push('-', left[c.l])
              else c.h;
    var h2 := if edit == Add || edit == Replace then h1.Push('+', right[c.r]) else h1;
    Cut(h2, c.e + 1, c.l + LeftStep(edit), c.r + RightStep(edit), if edit == Match then c.suffix + 1 else 0)
  }

  /** Feeds edits to the hunk until enough unchanged lines follow and no further edit is near. */
  ghost function Fill(edits: seq<EditType>, left: seq<string>, right: seq<string>, context: nat, c: Cut): (c': Cut)
    requires CutAt(edits, left, right, c)
    ensures CutAt(edits, left, right, c') && c.e <= c'.e
    ensures c'.e == c.e ==> c' == c
    ensures c'.h.leftStart == c.h.leftStart && c'.h.rightStart == c.h.rightStart
    decreases |edits| - c.e
  {
    if c.e == |edits| || (c.suffix >= context && !EditNear(edits, c.e, context)) then c
    else Fill(edits, left, right, context, TakeEdit(edits, left, right, c))
  }

  /** The index of the first edit that is no match. */
  ghost function FirstEdit(edits: seq<EditType>, e: nat): (s: nat)
    requires e <= |edits|
    ensures e <= s <= |edits| && (forall k :: e <= k < s ==> edits[k] == Match)
    ensures s < |edits| ==> edits[s] != Match
    decreases |edits| - e
  {
    if e == |edits| || edits[e] != Match then e else FirstEdit(edits, e + 1)
  }

  lemma {:induction false} SkippedIsCommon<T>(edits: seq<EditType>, left: seq<T>, right: seq<T>, e: nat, l: nat, r: nat, s: nat)
    requires At(edits, left, right, e, l, r) && e <= s <= |edits|
    requires forall k :: e <= k < s ==> edits[k] == Match
    ensures At(edits, left, right, s, l + (s - e), r + (s - e))
    ensures l + (s - e) <= |left| && r + (s - e) <= |right|
    ensures left[l..l + (s - e)] == right[r..r + (s - e)]
    decreases s - e
  {
    hide At;
    AtBounds(edits, left, right, e, l, r);
    if e < s {
      ScriptStep(edits, left, right, e, l, r);
      SkippedIsCommon(edits, left, right, e + 1, l + 1, r + 1, s);
      assert left[l..l + (s - e)] == [left[l]] + left[l + 1..l + (s - e)];
      assert right[r..r + (s - e)] == [right[r]] + right[r + 1..r + (s - e)];
    }
  }

  function Min(a: nat, b: nat): nat { if b < a then b else a }

  function CommonLines(texts: seq<string>): (ls: seq<Line>)
    ensures |ls| == |texts| && forall i :: 0 <= i < |ls| ==> ls[i] == Text.Line(' ', texts[i])
  {
    if texts == [] then [] else CommonLines(texts[..|texts| - 1]) + [Text.Line(' ', texts[|texts| - 1])]
  }

  /** A hunk opened at (l, r) holding the unchanged lines just before. */
  ghost function Opened(left: seq<string>, l: nat, r: nat, prefix: nat): State
    requires prefix <= l <= |left| && prefix <= r
  {
    State(l - prefix + 1, r - prefix + 1, 0, 0, prefix, CommonLines(left[l - prefix..l]), [], [])
  }

  /** Where a hunk may begin: at the very top, or far enough behind the previous hunk. */
  ghost predicate Ready(edits: seq<EditType>, context: nat, e: nat, l: nat, r: nat)
  {
    e < |edits| ==>
      (l == 0 && r == 0) || (context <= l && context <= r && !EditNear(edits, e, context))
  }

  /** The hunk begun at (e, l, r), as the inner loop leaves it. */
  ghost function NextCut(edits: seq<EditType>, left: seq<string>, right: seq<string>, context: nat, e: nat, l: nat, r: nat): (c: Cut)
    requires At(edits, left, right, e, l, r) && Ready(edits, context, e, l, r) && e < |edits|
    ensures CutAt(edits, left, right, c)
    ensures c.h.adds + c.h.removes > 0 ==> e < c.e
  {
    var s := FirstEdit(edits, e);
    SkippedIsCommon(edits, left, right, e, l, r, s);
    var l1, r1 := l + (s - e), r + (s - e);
    Fill(edits, left, right, context, Cut(Opened(left, l1, r1, Min(l1, context)), s, l1, r1, 0))
  }

  ghost function Hunks(edits: seq<EditType>, left: seq<string>, right: seq<string>, context: nat, e: nat, l: nat, r: nat): seq<HunkText>
    requires At(edits, left, right, e, l, r) && Ready(edits, context, e, l, r)
    decreases |edits| - e
  {
    if e == |edits| then []
    else
      var c := NextCut(edits, left, right, context, e, l, r);
      if c.h.adds + c.h.removes == 0 then []
      else
        CutIsReady(edits, left, right, context, e, l, r);
        [c.h.Printed()] + Hunks(edits, left, right, context, c.e, c.l, c.r)
  }

  /** The spans of the same hunks. */
  ghost function Spans(edits: seq<EditType>, left: seq<string>, right: seq<string>, context: nat, e: nat, l: nat, r: nat): (spans: seq<Span>)
    requires At(edits, left, right, e, l, r) && Ready(edits, context, e, l, r)
    ensures |spans| == |Hunks(edits, left, right, context, e, l, r)|
    decreases |edits| - e
  {
    if e == |edits| then []
    else
      var c := NextCut(edits, left, right, context, e, l, r);
      if c.h.adds + c.h.removes == 0 then []
      else
        CutIsReady(edits, left, right, context, e, l, r);
        StartsArePositive(edits, left, right, context, e, l, r);
        [Span(c.h.leftStart - 1, c.l, c.h.rightStart - 1, c.r)] + Spans(edits, left, right, context, c.e, c.l, c.r)
  }

  lemma {:induction false} StartsArePositive(edits: seq<EditType>, left: seq<string>, right: seq<string>, context: nat, e: nat, l: nat, r: nat)
    requires At(edits, left, right, e, l, r) && Ready(edits, context, e, l, r) && e < |edits|
    ensures NextCut(edits, left, right, context, e, l, r).h.leftStart > 0 && NextCut(edits, left, right, context, e, l, r).h.rightStart > 0
  {
    hide At, EditNear, Opened;
    var s := FirstEdit(edits, e);
    SkippedIsCommon(edits, left, right, e, l, r, s);
    OpenedStarts(left, l + (s - e), r + (s - e), Min(l + (s - e), context));
  }

  /** What a hunk shows of the lines: the hunk keeps pointers to them, so each ends at its first NUL. */
  function ShownLines(lines: seq<string>): (shown: seq<string>)
    ensures |shown| == |lines| && forall i :: 0 <= i < |lines| ==> shown[i] == UpToNul(lines[i])
  {
    seq(|lines|, i requires 0 <= i < |lines| => UpToNul(lines[i]))
  }

  /** The script compares whole lines; it fits what is shown of them as well. */
  lemma {:induction false} ScriptFitsShown(edits: seq<EditType>, left: seq<string>, right: seq<string>)
    requires Follows(edits, left, right)
    ensures Follows(edits, ShownLines(left), ShownLines(right))
  {
    if edits != [] { ScriptFitsShown(Front(edits), left, right); }
  }

  /** The hunks of the diff of two texts. */
  ghost function DiffHunks(left: seq<string>, right: seq<string>, context: nat): seq<HunkText>
  {
    TraceFromTop(left, right);
    Hunks(Trace(left, right, |left|, |right|), ShownLines(left), ShownLines(right), context, 0, 0, 0)
  }

  /** The stretches of the two texts that those hunks are about. */
  ghost function DiffSpans(left: seq<string>, right: seq<string>, context: nat): seq<Span>
  {
    TraceFromTop(left, right);
    Spans(Trace(left, right, |left|, |right|), ShownLines(left), ShownLines(right), context, 0, 0, 0)
  }

  lemma {:induction false} TraceFromTop(left: seq<string>, right: seq<string>)
    ensures At(Trace(left, right, |left|, |right|), left, right, 0, 0, 0)
    ensures At(Trace(left, right, |left|, |right|), ShownLines(left), ShownLines(right), 0, 0, 0)
  {
    hide CellAt, Trace, ValidPath, Follows;
    var edits := Trace(left, right, |left|, |right|);
    TraceIsValidAndPriced(left, right, |left|, |right|);
    ValidFollows(edits, left, right);
    ScriptFitsShown(edits, left, right);
    assert edits[..0] == [];
  }

  // ----- what the inner loop keeps

  /** The hunk holds exactly left[hl..l] and right[hr..r]. */
  ghost predicate HoldsTo(left: seq<string>, right: seq<string>, hl: nat, hr: nat, h: State, l: nat, r: nat)
  {
    && Consistent(h) && RemovesFirst(h.hunk)
    && hl <= l <= |left| && hr <= r <= |right|
    && Side(h.Lines(), '+') == left[hl..l]
    && Side(h.Lines(), '-') == right[hr..r]
  }

  ghost predicate Holds(left: seq<string>, right: seq<string>, hl: nat, hr: nat, c: Cut)
  {
    HoldsTo(left, right, hl, hr, c.h, c.l, c.r)
  }

  /** A line pushed with the right tag extends what the hunk holds on the sides it belongs to. */
  lemma {:induction false} PushHolds(left: seq<string>, right: seq<string>, hl: nat, hr: nat, h: State, l: nat, r: nat)
    requires HoldsTo(left, right, hl, hr, h, l, r)
    ensures l < |left| && r < |right| && left[l] == right[r] ==> HoldsTo(left, right, hl, hr, h.Push(' ', left[l]), l + 1, r + 1)
    ensures l < |left| ==> HoldsTo(left, right, hl, hr, h.Push('-', left[l]), l + 1, r)
    ensures r < |right| ==> HoldsTo(left, right, hl, hr, h.Push('+', right[r]), l, r + 1)
  {
    hide Side, Consistent, RemovesFirst, State.Push;
    if l < |left| {
      assert left[hl..l + 1] == left[hl..l] + [left[l]];
      PushKeepsConsistent(h, ' ', left[l]);
      PushKeepsOrder(h, ' ', left[l]);
      PushKeepsConsistent(h, '-', left[l]);
      PushKeepsOrder(h, '-', left[l]);
    }
    if r < |right| {
      assert right[hr..r + 1] == right[hr..r] + [right[r]];
      PushKeepsConsistent(h, '+', right[r]);
      PushKeepsOrder(h, '+', right[r]);
    }
  }

  lemma {:induction false} TakeEditHolds(edits: seq<EditType>, left: seq<string>, right: seq<string>, c: Cut, hl: nat, hr: nat)
    requires c.e < |edits| && CutAt(edits, left, right, c) && Holds(left, right, hl, hr, c)
    ensures Holds(left, right, hl, hr, TakeEdit(edits, left, right, c))
  {
    hide At, HoldsTo, State.Push;
    ScriptStep(edits, left, right, c.e, c.l, c.r);
    var edit := edits[c.e];
    PushHolds(left, right, hl, hr, c.h, c.l, c.r);
    if edit == Replace { PushHolds(left, right, hl, hr, c.h.Push('-', left[c.l]), c.l + 1, c.r); }
  }

  lemma {:induction false} FillHolds(edits: seq<EditType>, left: seq<string>, right: seq<string>, context: nat, c: Cut, hl: nat, hr: nat)
    requires CutAt(edits, left, right, c) && Holds(left, right, hl, hr, c)
    ensures Holds(left, right, hl, hr, Fill(edits, left, right, context, c))
    decreases |edits| - c.e
  {
    hide Follows, EditNear, TakeEdit, Holds;
    if c.e != |edits| && (c.suffix < context || EditNear(edits, c.e, context)) {
      TakeEditHolds(edits, left, right, c, hl, hr);
      FillHolds(edits, left, right, context, TakeEdit(edits, left, right, c), hl, hr);
    }
  }

  /** `suffix` counts the unchanged lines at the end; beyond `context` of them an edit is near. */
  ghost predicate Counted(edits: seq<EditType>, context: nat, before: nat, edited: bool, c: Cut)
  {
    && Consistent(c.h)
    && Shaped(c.h, before, edited, c.suffix)
    && (edited ==> c.h.adds + c.h.removes > 0)
    && c.suffix <= c.l && c.suffix <= c.r
    && (c.suffix > context ==> EditNear(edits, c.e, context))
  }

  lemma {:induction false} TakeEditCounted(edits: seq<EditType>, left: seq<string>, right: seq<string>, context: nat, before: nat, edited: bool, c: Cut)
    requires c.e < |edits| && CutAt(edits, left, right, c) && Counted(edits, context, before, edited, c)
    requires edited || edits[c.e] != Match
    requires c.suffix < context || EditNear(edits, c.e, context)
    ensures Counted(edits, context, before, true, TakeEdit(edits, left, right, c))
  {
    hide At, Side, Consistent, Framed;
    ScriptStep(edits, left, right, c.e, c.l, c.r);
    var edit := edits[c.e];
    if edit != Add {
      var tag := if edit == Match then ' ' else '-';
      PushKeepsConsistent(c.h, tag, left[c.l]);
      PushKeepsShape(c.h, tag, left[c.l], before, edited, c.suffix);
    }
    if edit == Add {
      PushKeepsConsistent(c.h, '+', right[c.r]);
      PushKeepsShape(c.h, '+', right[c.r], before, edited, c.suffix);
    }
    if edit == Replace {
      var h1 := c.h.Push('-', left[c.l]);
      PushKeepsConsistent(h1, '+', right[c.r]);
      PushKeepsShape(h1, '+', right[c.r], before, true, 0);
    }
  }

  lemma {:induction false} FillCounted(edits: seq<EditType>, left: seq<string>, right: seq<string>, context: nat, before: nat, edited: bool, c: Cut)
    requires CutAt(edits, left, right, c) && Counted(edits, context, before, edited, c)
    requires edited || (context > 0 && c.suffix == 0 && c.e < |edits| && edits[c.e] != Match)
    ensures var c' := Fill(edits, left, right, context, c);
            && Counted(edits, context, before, true, c')
            && c'.suffix <= context
            && (c'.e < |edits| ==> c'.suffix == context && !EditNear(edits, c'.e, context))
    decreases |edits| - c.e
  {
    hide Follows, EditNear, TakeEdit, Consistent, Shaped;
    NoEditBeyondEnd(edits, context);
    if c.e != |edits| && (c.suffix < context || EditNear(edits, c.e, context)) {
      TakeEditCounted(edits, left, right, context, before, edited, c);
      FillCounted(edits, left, right, context, before, true, TakeEdit(edits, left, right, c));
    }
  }

  // ----- one hunk

  lemma {:induction false} CommonLinesAreCommon(texts: seq<string>)
    ensures Side(CommonLines(texts), '+') == texts && Side(CommonLines(texts), '-') == texts
    ensures RemovesFirst(CommonLines(texts))
  {
    hide Side, RemovesFirst;
    CommonRemovesFirst(CommonLines(texts));
    if texts == [] {
      assert CommonLines(texts) == [];
      NoSides();
    } else {
      var front, last := texts[..|texts| - 1], texts[|texts| - 1];
      CommonLinesAreCommon(front);
      SideSnoc(CommonLines(front), Text.Line(' ', last), '+');
      SideSnoc(CommonLines(front), Text.Line(' ', last), '-');
      assert texts == front + [last];
    }
  }

  lemma {:induction false} NoSides()
    ensures Side([], '+') == [] && Side([], '-') == []
  {
  }

  lemma {:induction false} OpenedIsGood(edits: seq<EditType>, left: seq<string>, right: seq<string>, context: nat, e: nat, l: nat, r: nat, prefix: nat)
    requires prefix <= l <= |left| && prefix <= r <= |right|
    requires left[l - prefix..l] == right[r - prefix..r]
    ensures Holds(left, right, l - prefix, r - prefix, Cut(Opened(left, l, r, prefix), e, l, r, 0))
    ensures Counted(edits, context, prefix, false, Cut(Opened(left, l, r, prefix), e, l, r, 0))
  {
    hide Side, RemovesFirst;
    CommonLinesAreCommon(left[l - prefix..l]);
    NothingPending(CommonLines(left[l - prefix..l]));
    assert Opened(left, l, r, prefix).Lines() == CommonLines(left[l - prefix..l]);
  }

  /** A hunk that holds its two stretches, begun where its header says, covers them. */
  lemma {:induction false} HoldsMeansCovers(left: seq<string>, right: seq<string>, l: nat, r: nat, hl: nat, hr: nat, c: Cut)
    requires Holds(left, right, hl, hr, c) && l <= hl && r <= hr
    requires left[l..hl] == right[r..hr]
    requires c.h.leftStart == hl + 1 && c.h.rightStart == hr + 1 && c.h.adds + c.h.removes > 0
    ensures Covers(left, right, l, r, c.h.Printed(), hl, hr, c.l, c.r)
    ensures RemovesFirst(c.h.Lines())
  {
    hide Side, RemovesFirst;
    PendingOrder(c.h.hunk, c.h.hunkRemoves, c.h.hunkAdds);
  }

  lemma {:induction false} SliceOfSlice<T>(s: seq<T>, a: nat, b: nat, c: nat)
    requires a <= b <= c <= |s|
    ensures s[a..c][..b - a] == s[a..b] && s[a..c][b - a..] == s[b..c]
  {
  }

  /** The unchanged lines before the next edit: those the hunk starts with, and the gap before them. */
  lemma {:induction false} GapAndPrefix(left: seq<string>, right: seq<string>, l: nat, r: nat, k: nat, p: nat)
    requires p <= k && l + k <= |left| && r + k <= |right| && left[l..l + k] == right[r..r + k]
    ensures left[l + k - p..l + k] == right[r + k - p..r + k]
    ensures left[l..l + k - p] == right[r..r + k - p]
  {
    SliceOfSlice(left, l, l + k - p, l + k);
    SliceOfSlice(right, r, r + k - p, r + k);
  }

  /** The hunk begun at (e, l, r), once the skipped lines are known: it covers the next changed stretch
      and is framed by context. */
  lemma {:induction false} FilledIsGood(edits: seq<EditType>, left: seq<string>, right: seq<string>, context: nat, l: nat, r: nat, s: nat, k: nat, p: nat)
    requires context > 0 && s < |edits| && edits[s] != Match
    requires At(edits, left, right, s, l + k, r + k)
    requires p <= k && l + k <= |left| && r + k <= |right| && left[l..l + k] == right[r..r + k]
    ensures var c := Fill(edits, left, right, context, Cut(Opened(left, l + k, r + k, p), s, l + k, r + k, 0));
            && c.h.adds + c.h.removes > 0
            && Covers(left, right, l, r, c.h.Printed(), l + k - p, r + k - p, c.l, c.r)
            && RemovesFirst(c.h.Lines()) && Framed(c.h.Lines(), p, c.suffix)
            && c.suffix <= c.l && c.suffix <= c.r && c.suffix <= context
            && (c.e < |edits| ==> c.suffix == context && !EditNear(edits, c.e, context))
  {
    hide At, Side, RemovesFirst, Framed, Fill, EditNear, Consistent, Covers, Opened;
    GapAndPrefix(left, right, l, r, k, p);
    var c0 := Cut(Opened(left, l + k, r + k, p), s, l + k, r + k, 0);
    OpenedIsGood(edits, left, right, context, s, l + k, r + k, p);
    OpenedStarts(left, l + k, r + k, p);
    FillHolds(edits, left, right, context, c0, l + k - p, r + k - p);
    FillCounted(edits, left, right, context, p, false, c0);
    HoldsMeansCovers(left, right, l, r, l + k - p, r + k - p, Fill(edits, left, right, context, c0));
  }

  lemma {:induction false} OpenedStarts(left: seq<string>, l: nat, r: nat, p: nat)
    requires p <= l <= |left| && p <= r
    ensures Opened(left, l, r, p).adds == Opened(left, l, r, p).removes == 0
    ensures Opened(left, l, r, p).leftStart == l - p + 1 && Opened(left, l, r, p).rightStart == r - p + 1
  {
  }

  /** Everything about the hunk begun at (e, l, r): without context it stays empty; else, unless the
      script has ended, it covers the next changed stretch and is framed by context. */
  lemma {:induction false} NextCutIsGood(edits: seq<EditType>, left: seq<string>, right: seq<string>, context: nat, e: nat, l: nat, r: nat)
    returns (hl: nat, hr: nat, before: nat)
    requires At(edits, left, right, e, l, r) && Ready(edits, context, e, l, r) && e < |edits|
    ensures l <= |left| && r <= |right|
    ensures var c := NextCut(edits, left, right, context, e, l, r);
            if c.h.adds + c.h.removes == 0
            then context == 0 || (FirstEdit(edits, e) == |edits| && left[l..] == right[r..])
            else
              && context > 0
              && c.h.leftStart == hl + 1 && c.h.rightStart == hr + 1
              && l <= hl <= l + (FirstEdit(edits, e) - e) && hr - r == hl - l
              && Ready(edits, context, c.e, c.l, c.r)
              && Covers(left, right, l, r, c.h.Printed(), hl, hr, c.l, c.r)
              && RemovesFirst(c.h.Lines()) && Framed(c.h.Lines(), before, c.suffix)
              && before <= context && (before == context || hl == 0) && (!(l == 0 && r == 0) ==> before == context)
              && c.suffix <= context && (c.e < |edits| ==> c.suffix == context && 0 < c.l + c.r)
  {
    hide At, RemovesFirst, Framed, EditNear, Covers, Side, Opened, Fill, FirstEdit, State.Printed;
    AtBounds(edits, left, right, e, l, r);
    var s := FirstEdit(edits, e);
    SkippedIsCommon(edits, left, right, e, l, r, s);
    var k := s - e;
    var p := Min(l + k, context);
    hl, hr, before := l + k - p, r + k - p, p;
    AtBounds(edits, left, right, s, l + k, r + k);
    OpenedStarts(left, l + k, r + k, p);
    var c0 := Cut(Opened(left, l + k, r + k, p), s, l + k, r + k, 0);
    if s == |edits| {
      FillStops(edits, left, right, context, c0);
      assert left[l..l + k] == left[l..] && right[r..r + k] == right[r..];
    } else if context > 0 {
      if !(l == 0 && r == 0) { FarEditIsFar(edits, e, s, context); }
      FilledIsGood(edits, left, right, context, l, r, s, k, p);
    } else {
      NothingNearWithoutContext(edits, s);
      FillStops(edits, left, right, context, c0);
    }
  }

  lemma {:induction false} FillStops(edits: seq<EditType>, left: seq<string>, right: seq<string>, context: nat, c: Cut)
    requires CutAt(edits, left, right, c)
    requires c.e == |edits| || (context <= c.suffix && !EditNear(edits, c.e, context))
    ensures Fill(edits, left, right, context, c) == c
  {
    hide EditNear;
  }

  lemma {:induction false} CutIsReady(edits: seq<EditType>, left: seq<string>, right: seq<string>, context: nat, e: nat, l: nat, r: nat)
    requires At(edits, left, right, e, l, r) && Ready(edits, context, e, l, r) && e < |edits|
    requires var h := NextCut(edits, left, right, context, e, l, r).h; h.adds + h.removes > 0
    ensures var c := NextCut(edits, left, right, context, e, l, r); Ready(edits, context, c.e, c.l, c.r)
  {
    var hl, hr, before := NextCutIsGood(edits, left, right, context, e, l, r);
  }

  // ----- all hunks

  /** With context, the hunks still to come cover all changes: what lies between them is common to the whole texts. */
  lemma {:induction false} HunksCoverAll(edits: seq<EditType>, left: seq<string>, right: seq<string>, context: nat, e: nat, l: nat, r: nat)
    requires At(edits, left, right, e, l, r) && At(edits, ShownLines(left), ShownLines(right), e, l, r)
    requires Ready(edits, context, e, l, r) && context > 0
    ensures CoversAll(left, right, ShownLines(left), ShownLines(right), l, r,
                      Hunks(edits, ShownLines(left), ShownLines(right), context, e, l, r),
                      Spans(edits, ShownLines(left), ShownLines(right), context, e, l, r))
    decreases |edits| - e
  {
    hide At, Covers, RemovesFirst, Framed, EditNear, NextCut, ShownLines;
    var sl, sr := ShownLines(left), ShownLines(right);
    AtBounds(edits, left, right, e, l, r);
    GapAhead(edits, left, right, e, l, r);
    if e < |edits| {
      var hl, hr, before := NextCutIsGood(edits, sl, sr, context, e, l, r);
      var c := NextCut(edits, sl, sr, context, e, l, r);
      if c.h.adds + c.h.removes > 0 {
        WholeLinesToo(edits, left, right, context, e, l, r);
        HunksCoverAll(edits, left, right, context, c.e, c.l, c.r);
        var hs, spans := Hunks(edits, sl, sr, context, e, l, r), Spans(edits, sl, sr, context, e, l, r);
        assert hs == [c.h.Printed()] + Hunks(edits, sl, sr, context, c.e, c.l, c.r);
        assert spans == [Span(hl, c.l, hr, c.r)] + Spans(edits, sl, sr, context, c.e, c.l, c.r);
      }
    }
  }

  /** Up to the next edit that is no match the whole texts agree, and all the way when there is none. */
  lemma {:induction false} GapAhead(edits: seq<EditType>, left: seq<string>, right: seq<string>, e: nat, l: nat, r: nat)
    requires At(edits, left, right, e, l, r)
    ensures e <= |edits|
    ensures forall hl, hr :: l <= hl <= l + (FirstEdit(edits, e) - e) && hr - r == hl - l ==> GapCommon(left, right, l, r, hl, hr)
    ensures FirstEdit(edits, e) == |edits| ==> GapCommon(left, right, l, r, |left|, |right|)
  {
    hide At, FirstEdit;
    AtBounds(edits, left, right, e, l, r);
    var s := FirstEdit(edits, e);
    SkippedIsCommon(edits, left, right, e, l, r, s);
    AtBounds(edits, left, right, s, l + (s - e), r + (s - e));
    forall hl, hr | l <= hl <= l + (s - e) && hr - r == hl - l ensures GapCommon(left, right, l, r, hl, hr) {
      GapAndPrefix(left, right, l, r, s - e, l + (s - e) - hl);
    }
  }

  /** The place where a hunk ends is the same in the whole texts. */
  lemma {:induction false} WholeLinesToo(edits: seq<EditType>, left: seq<string>, right: seq<string>, context: nat, e: nat, l: nat, r: nat)
    requires At(edits, left, right, e, l, r) && At(edits, ShownLines(left), ShownLines(right), e, l, r)
    requires Ready(edits, context, e, l, r) && e < |edits|
    ensures var c := NextCut(edits, ShownLines(left), ShownLines(right), context, e, l, r); At(edits, left, right, c.e, c.l, c.r)
  {
  }

  /** At most `context` unchanged lines before and after the edits, and exactly so many on a side that
      faces another hunk; removals come before additions. */
  ghost predicate FramedByContext(body: seq<Line>, context: nat, first: bool, last: bool)
  {
    && RemovesFirst(body)
    && exists before: nat, after: nat ::
         && Framed(body, before, after)
         && before <= context && after <= context
         && (!first ==> before == context)
         && (!last ==> after == context)
  }

  ghost predicate ContextKept(hs: seq<HunkText>, context: nat, first: bool)
  {
    hs == [] || (FramedByContext(hs[0].body, context, first, |hs| == 1) && ContextKept(hs[1..], context, false))
  }

  lemma {:induction false} HunksKeepContext(edits: seq<EditType>, left: seq<string>, right: seq<string>, context: nat, e: nat, l: nat, r: nat)
    requires At(edits, left, right, e, l, r) && Ready(edits, context, e, l, r)
    ensures ContextKept(Hunks(edits, left, right, context, e, l, r), context, l == 0 && r == 0)
    decreases |edits| - e
  {
    hide At, Covers, RemovesFirst, Framed, EditNear, NextCut;
    AtBounds(edits, left, right, e, l, r);
    if e < |edits| {
      var hl, hr, before := NextCutIsGood(edits, left, right, context, e, l, r);
      var c := NextCut(edits, left, right, context, e, l, r);
      if c.h.adds + c.h.removes > 0 {
        HunksKeepContext(edits, left, right, context, c.e, c.l, c.r);
        var rest := Hunks(edits, left, right, context, c.e, c.l, c.r);
        var hs := Hunks(edits, left, right, context, e, l, r);
        assert hs == [c.h.Printed()] + rest && hs[1..] == rest;
        AtBounds(edits, left, right, c.e, c.l, c.r);
        assert rest != [] ==> c.e < |edits|;
        assert ContextKept(rest, context, false);
        assert FramedByContext(hs[0].body, context, l == 0 && r == 0, |hs| == 1);
      }
    }
  }

  /** No line in the stretches that are shown contains a NUL. */
  ghost predicate NoNulShown(left: seq<string>, right: seq<string>, spans: seq<Span>)
  {
    forall k, i :: 0 <= k < |spans| ==>
      && (spans[k].l <= i < spans[k].l2 && i < |left| ==> '\0' !in left[i])
      && (spans[k].r <= i < spans[k].r2 && i < |right| ==> '\0' !in right[i])
  }

  /** The diff is a patch from `left` to `right` and, read backwards, from `right` to `left`, exactly when the texts are
      equal, or some context was asked for and no line that is shown contains a NUL. */
  lemma {:induction false} DiffThenPatch(left: seq<string>, right: seq<string>, context: nat)
    ensures Patch(left, DiffHunks(left, right, context)) == Some(right) <==>
            left == right || (context > 0 && NoNulShown(left, right, DiffSpans(left, right, context)))
    ensures Patch(right, FlipAll(DiffHunks(left, right, context))) == Some(left) <==>
            left == right || (context > 0 && NoNulShown(left, right, DiffSpans(left, right, context)))
  {
    hide At, CoversAll, Trace, AllWhole, Hunks, Spans, ShownLines, Patch, FlipAll;
    TraceFromTop(left, right);
    var edits := Trace(left, right, |left|, |right|);
    var hs, spans := DiffHunks(left, right, context), DiffSpans(left, right, context);
    if context > 0 {
      HunksCoverAll(edits, left, right, context, 0, 0, 0);
      PatchBothWaysIff(left, right, ShownLines(left), ShownLines(right), hs, spans);
      SpansInside(left, right, ShownLines(left), ShownLines(right), 0, 0, hs, spans);
      WholeMeansNoNul(left, right, spans);
      if left == right { EqualTextsShowNothing(left, context); }
    } else {
      WithoutContextNothing(left, right);
      NoHunksChangeNothing(left);
      NoHunksChangeNothing(right);
    }
  }

  /** Texts without NULs need only some context. */
  lemma {:induction false} NulFreeDiffThenPatch(left: seq<string>, right: seq<string>, context: nat)
    requires forall i :: 0 <= i < |left| ==> '\0' !in left[i]
    requires forall i :: 0 <= i < |right| ==> '\0' !in right[i]
    ensures Patch(left, DiffHunks(left, right, context)) == Some(right) <==> left == right || context > 0
    ensures Patch(right, FlipAll(DiffHunks(left, right, context))) == Some(left) <==> left == right || context > 0
  {
    hide DiffHunks, DiffSpans, Patch, FlipAll;
    DiffThenPatch(left, right, context);
  }

  lemma {:induction false} NoHunksChangeNothing(text: seq<string>)
    ensures Patch(text, []) == Some(text) && FlipAll([]) == []
  {
    assert [] + text[0..] == text;
  }

  /** The hunk that shows one line replaced by another. */
  function OneReplaced(a: string, b: string): HunkText
  {
    Text.HunkText(Text.Header(Some(Text.Range(1, 1)), Some(Text.Range(1, 1))), [Text.Line('-', a), Text.Line('+', b)])
  }

  lemma {:induction false} OneReplacement(x: string, y: string)
    requires x != y
    ensures Trace([x], [y], 1, 1) == [Replace]
  {
    var left, right := [x], [y];
    assert CellAt(left, right, 1, 0).cost == 1.0 && CellAt(left, right, 0, 1).cost == 1.0 && CellAt(left, right, 0, 0).cost == 0.0;
    assert MoveAt(left, right, 1, 1) == Replace;
    assert Trace(left, right, 0, 0) == [];
  }

  lemma {:induction false} OneReplacementTaken(a: string, b: string)
    requires At([Replace], [a], [b], 0, 0, 0)
    ensures var h := State(1, 1, 0, 0, 0, [], [], []);
            var taken := TakeEdit([Replace], [a], [b], Cut(h, 0, 0, 0, 0));
            taken.e == 1 && taken.h.Printed() == OneReplaced(a, b) && taken.h.adds == 1
  {
    hide At;
  }

  lemma {:induction false} OneReplacementHunk(a: string, b: string)
    requires At([Replace], [a], [b], 0, 0, 0)
    ensures Ready([Replace], 3, 0, 0, 0) && Hunks([Replace], [a], [b], 3, 0, 0, 0) == [OneReplaced(a, b)]
  {
    hide At, TakeEdit, EditNear, State.Printed, CommonLines;
    var edits := [Replace];
    OneReplacementTaken(a, b);
    NoCommonLines();
    assert ([a])[0..0] == [];
    var c0 := Cut(Opened([a], 0, 0, 0), 0, 0, 0, 0);
    assert c0.h == State(1, 1, 0, 0, 0, [], [], []);
    var c1 := TakeEdit(edits, [a], [b], c0);
    assert NextCut(edits, [a], [b], 3, 0, 0, 0) == Fill(edits, [a], [b], 3, c0) == c1;
    CutIsReady(edits, [a], [b], 3, 0, 0, 0);
    assert Hunks(edits, [a], [b], 3, c1.e, c1.l, c1.r) == [];
  }

  lemma {:induction false} OneLineReplaced(x: string, y: string)
    requires x != y
    ensures DiffHunks([x], [y], 3) == [OneReplaced(UpToNul(x), UpToNul(y))]
  {
    hide At, Trace, Hunks;
    TraceFromTop([x], [y]);
    OneReplacement(x, y);
    assert ShownLines([x]) == [UpToNul(x)] && ShownLines([y]) == [UpToNul(y)];
    OneReplacementHunk(UpToNul(x), UpToNul(y));
  }

  /** Two lines that differ only behind a NUL: what is printed removes and adds the same line, and applies to neither text. */
  lemma {:induction false} BehindNulIsLost()
    ensures var left, right := ["a\0b"], ["a\0c"];
            var hs := DiffHunks(left, right, 3);
            && Text.RenderAll(hs) == "@@ -1,1 +1,1 @@\n-a\n+a\n"
            && Patch(left, hs) == None && Patch(right, FlipAll(hs)) == None
  {
    hide DiffHunks;
    var x, y := "a\0b", "a\0c";
    OneLineReplaced(x, y);
    assert x[2] != y[2];
    assert UpToNul(x) == "a" && UpToNul(y) == "a";
    var h := OneReplaced("a", "a");
    OneReplacedText();
    assert ([h])[1..] == [];
    NotTheOldLine(x, h);
    NotTheOldLine(y, Flip(h));
    assert FlipAll([h]) == [Flip(h)];
  }

  lemma {:induction false} OneReplacedText()
    ensures Text.Render(OneReplaced("a", "a")) == "@@ -1,1 +1,1 @@\n-a\n+a\n"
  {
    OneReplacedBody();
    assert Text.RenderRange(Text.Range(1, 1)) == "1,1";
    assert Text.RenderHeader(OneReplaced("a", "a").header) == "@@ -1,1 +1,1 @@\n";
  }

  lemma {:induction false} OneReplacedBody()
    ensures Text.RenderBody(OneReplaced("a", "a").body) == "-a\n+a\n"
  {
    var body := OneReplaced("a", "a").body;
    assert body[..1] == [Text.Line('-', "a")] && body[..1][..0] == [];
    assert Text.RenderBody(body[..1]) == "-a\n";
  }

  lemma {:induction false} NotTheOldLine(x: string, h: HunkText)
    requires Side(h.body, '+') == ["a"] && x != "a" && h.header.left == Some(Text.Range(1, 1))
    ensures Patch([x], [h]) == None
  {
    assert ([h])[..0] == [];
    assert ([x])[0..1] == [x];
    assert ApplyAll([x], []) == Some(Progress(0, []));
    assert ApplyHunk([x], Progress(0, []), h) == None;
  }

  /** Asked for no context, the diff is empty whatever the texts. */
  lemma {:induction false} WithoutContextNothing(left: seq<string>, right: seq<string>)
    ensures DiffHunks(left, right, 0) == []
  {
    hide At, Trace, NextCut, ShownLines, Covers, RemovesFirst, Framed;
    TraceFromTop(left, right);
    var edits := Trace(left, right, |left|, |right|);
    if edits != [] {
      var hl, hr, before := NextCutIsGood(edits, ShownLines(left), ShownLines(right), 0, 0, 0, 0);
    }
  }

  lemma {:induction false} SpansInside(left: seq<string>, right: seq<string>, sl: seq<string>, sr: seq<string>,
                                       l0: nat, r0: nat, hs: seq<HunkText>, spans: seq<Span>)
    requires CoversAll(left, right, sl, sr, l0, r0, hs, spans)
    ensures forall k :: 0 <= k < |spans| ==> spans[k].l <= spans[k].l2 <= |left| && spans[k].r <= spans[k].r2 <= |right|
    decreases |hs|
  {
    hide Side;
    if hs != [] {
      SpansInside(left, right, sl, sr, spans[0].l2, spans[0].r2, hs[1..], spans[1..]);
      assert spans == [spans[0]] + spans[1..];
    }
  }

  lemma {:induction false} WholeIffNoNul(lines: seq<string>, a: nat, b: nat)
    requires a <= b <= |lines|
    ensures ShownWhole(lines, ShownLines(lines), a, b) <==> forall i :: a <= i < b ==> '\0' !in lines[i]
  {
    var shown := ShownLines(lines);
    if ShownWhole(lines, shown, a, b) {
      forall i | a <= i < b ensures '\0' !in lines[i] {
        assert lines[a..b][i - a] == shown[a..b][i - a];
      }
    }
  }

  lemma {:induction false} WholeMeansNoNul(left: seq<string>, right: seq<string>, spans: seq<Span>)
    requires forall k :: 0 <= k < |spans| ==> spans[k].l <= spans[k].l2 <= |left| && spans[k].r <= spans[k].r2 <= |right|
    ensures AllWhole(left, right, ShownLines(left), ShownLines(right), spans) <==> NoNulShown(left, right, spans)
  {
    hide ShownWhole;
    forall k | 0 <= k < |spans|
      ensures ShownWhole(left, ShownLines(left), spans[k].l, spans[k].l2) <==>
              forall i :: spans[k].l <= i < spans[k].l2 ==> '\0' !in left[i]
      ensures ShownWhole(right, ShownLines(right), spans[k].r, spans[k].r2) <==>
              forall i :: spans[k].r <= i < spans[k].r2 ==> '\0' !in right[i]
    {
      WholeIffNoNul(left, spans[k].l, spans[k].l2);
      WholeIffNoNul(right, spans[k].r, spans[k].r2);
    }
  }

  /** A script that costs nothing has no edits but matches. */
  lemma {:induction false} FreeIsAllMatches(edits: seq<EditType>)
    ensures ScriptCost(edits) >= 0.0
    ensures ScriptCost(edits) == 0.0 ==> forall e :: 0 <= e < |edits| ==> edits[e] == Match
  {
    if edits != [] { FreeIsAllMatches(Front(edits)); }
  }

  lemma {:induction false} EqualTextsShowNothing(text: seq<string>, context: nat)
    ensures DiffSpans(text, text, context) == []
  {
    hide Trace, CellAt, ScriptCost, At, ValidPath, UsedLeft, UsedRight, Opened;
    var edits := Trace(text, text, |text|, |text|);
    TraceFromTop(text, text);
    TraceIsValidAndPriced(text, text, |text|, |text|);
    CostBounds(text, text, |text|, |text|);
    FreeIsAllMatches(edits);
    if edits != [] {
      var shown := ShownLines(text);
      SkippedIsCommon(edits, shown, shown, 0, 0, 0, |edits|);
      OpenedStarts(shown, |edits|, |edits|, Min(|edits|, context));
    }
  }

  lemma {:induction false} DiffKeepsContext(left: seq<string>, right: seq<string>, context: nat)
    ensures ContextKept(DiffHunks(left, right, context), context, true)
  {
    TraceFromTop(left, right);
    HunksKeepContext(Trace(left, right, |left|, |right|), ShownLines(left), ShownLines(right), context, 0, 0, 0);
  }

  // ----- the hunk object and the loops

  class Hunk {
    var leftStart: nat
    var rightStart: nat
    var adds: nat
    var removes: nat
    var common: nat
    var hunk: seq<Line>
    var hunkAdds: seq<Line>
    var hunkRemoves: seq<Line>

    ghost function Value(): State
      reads this
    {
      State(leftStart, rightStart, adds, removes, common, hunk, hunkAdds, hunkRemoves)
    }

    constructor (left: nat, right: nat)
      ensures Value() == State(left, right, 0, 0, 0, [], [], [])
    {
      leftStart, rightStart := left, right;
      adds, removes, common := 0, 0, 0;
      hunk, hunkAdds, hunkRemoves := [], [], [];
    }

    method PushLine(edit: char, line: string)
      modifies this
      ensures Value() == old(Value()).Push(edit, line)
    {
      match edit {
        case ' ' =>
          common := common + 1;
          FlushEdits();
          hunk := hunk + [Text.Line(' ', line)];
        case '-' =>
          removes := removes + 1;
          hunkRemoves := hunkRemoves + [Text.Line('-', line)];
        case '+' =>
          adds := adds + 1;
          hunkAdds := hunkAdds + [Text.Line('+', line)];
        case _ =>
      }
    }

    method FlushEdits()
      modifies `hunk, `hunkAdds, `hunkRemoves
      ensures hunk == old(Value()).Lines() && hunkAdds == hunkRemoves == []
    {
      hunk := hunk + hunkRemoves;
      hunkRemoves := [];
      hunk := hunk + hunkAdds;
      hunkAdds := [];
    }

    method HasEdits() returns (b: bool)
      ensures b <==> adds + removes > 0
    {
      b := adds != 0 || removes != 0;
    }

    method PrintHeader(os: string) returns (os': string)
      ensures os' == os + Text.RenderHeader(Value().Printed().header)
    {
      hide Text.RenderRange;
      var both := removes > 0 && adds > 0;
      os' := os + "@@ ";
      if removes > 0 {
        os' := PrintRange(os', '-', leftStart, removes + common);
      }
      if both {
        os' := os' + " ";
      }
      if adds > 0 {
        os' := PrintRange(os', '+', rightStart, adds + common);
      }
      os' := os' + " @@\n";
      ghost var l := if removes > 0 then "-" + Text.RenderRange(Text.Range(leftStart, removes + common)) else "";
      ghost var r := if adds > 0 then "+" + Text.RenderRange(Text.Range(rightStart, adds + common)) else "";
      FivePieces(os, "@@ ", l, if both then " " else "", r, " @@\n");
    }

    method PrintTo(os: string) returns (os': string)
      modifies this
      ensures os' == os + Text.Render(old(Value()).Printed())
    {
      os' := PrintHeader(os);
      FlushEdits();
      os' := PrintLines(os', hunk);
    }
  }

  method PrintRange(os: string, sign: char, start: nat, len: nat) returns (os': string)
    ensures os' == os + ([sign] + Text.RenderRange(Text.Range(start, len)))
  {
    os' := os + [sign] + Text.Decimal(start) + "," + Text.Decimal(len);
  }

  lemma {:induction false} FivePieces(os: string, a: string, b: string, c: string, d: string, e: string)
    ensures os + (a + b + c + d + e) == os + a + b + c + d + e
    ensures os + a + "" == os + a && os + a + b + "" == os + a + b && os + a + b + c + "" == os + a + b + c
  {
  }

  method PrintLines(os: string, lines: seq<Line>) returns (os': string)
    ensures os' == os + Text.RenderBody(lines)
  {
    os' := os;
    for i := 0 to |lines|
      invariant os' == os + Text.RenderBody(lines[..i])
    {
      assert lines[..i + 1][..i] == lines[..i];
      os' := os' + [lines[i].tag] + lines[i].text + "\n";
    }
    assert lines[..|lines|] == lines;
  }

  /** The loop that opens a hunk with the unchanged lines just before its first edit. */
  method OpenHunk(left: seq<string>, l: nat, r: nat, prefix: nat) returns (hunk: Hunk)
    requires prefix <= l <= |left| && prefix <= r
    ensures fresh(hunk) && hunk.Value() == Opened(ShownLines(left), l, r, prefix)
  {
    hide CommonLines, ShownLines;
    ghost var shown := ShownLines(left);
    hunk := new Hunk(l - prefix + 1, r - prefix + 1);
    NoCommonLines();
    assert shown[l - prefix..l - prefix] == [];
    var i := prefix;
    while i > 0
      invariant 0 <= i <= prefix && fresh(hunk)
      invariant hunk.Value() == State(l - prefix + 1, r - prefix + 1, 0, 0, prefix - i, CommonLines(shown[l - prefix..l - i]), [], [])
    {
      OneMoreCommon(shown, l - prefix, l - i);
      NothingPending(hunk.hunk);
      hunk.PushLine(' ', UpToNul(left[l - i]));
      i := i - 1;
    }
  }

  lemma {:induction false} NoCommonLines()
    ensures CommonLines([]) == []
  {
  }

  lemma {:induction false} OneMoreCommon(texts: seq<string>, a: nat, b: nat)
    requires a <= b < |texts|
    ensures CommonLines(texts[a..b + 1]) == CommonLines(texts[a..b]) + [Text.Line(' ', texts[b])]
  {
    assert texts[a..b + 1][..b - a] == texts[a..b];
  }

  /** Looks ahead over the matches. */
  method NoEditNear(edits: seq<EditType>, e: nat, context: nat) returns (far: bool)
    requires e <= |edits|
    ensures far <==> !EditNear(edits, e, context)
  {
    var it := e;
    while it != |edits| && edits[it] == Match
      invariant e <= it <= |edits|
      invariant forall k :: e <= k < it ==> edits[k] == Match
    {
      it := it + 1;
    }
    far := it == |edits| || it - e >= context;
  }

  /** The inner loop. */
  method FillHunk(edits: seq<EditType>, left: seq<string>, right: seq<string>, context: nat, hunk: Hunk, e0: nat, l0: nat, r0: nat)
    returns (e: nat, l: nat, r: nat, ghost suffix: nat)
    requires At(edits, ShownLines(left), ShownLines(right), e0, l0, r0)
    modifies hunk
    ensures Cut(hunk.Value(), e, l, r, suffix)
         == Fill(edits, ShownLines(left), ShownLines(right), context, Cut(old(hunk.Value()), e0, l0, r0, 0))
  {
    hide At, TakeEdit, EditNear, ShownLines;
    ghost var sl, sr := ShownLines(left), ShownLines(right);
    AtBounds(edits, sl, sr, e0, l0, r0);
    e, l, r := e0, l0, r0;
    var nSuffix: nat := 0;
    while e < |edits|
      invariant e <= |edits| && At(edits, sl, sr, e, l, r)
      invariant Fill(edits, sl, sr, context, Cut(hunk.Value(), e, l, r, nSuffix))
             == Fill(edits, sl, sr, context, Cut(old(hunk.Value()), e0, l0, r0, 0))
    {
      if nSuffix >= context {
        var far := NoEditNear(edits, e, context);
        if far { break; }
      }
      l, r, nSuffix := TakeNext(edits, left, right, hunk, e, l, r, nSuffix);
      e := e + 1;
    }
    suffix := nSuffix;
  }

  /** One round of the inner loop: the next edit goes into the hunk. */
  method TakeNext(edits: seq<EditType>, left: seq<string>, right: seq<string>, hunk: Hunk, e: nat, l: nat, r: nat, nSuffix: nat)
    returns (l': nat, r': nat, nSuffix': nat)
    requires e < |edits| && At(edits, ShownLines(left), ShownLines(right), e, l, r)
    modifies hunk
    ensures Cut(hunk.Value(), e + 1, l', r', nSuffix')
         == TakeEdit(edits, ShownLines(left), ShownLines(right), Cut(old(hunk.Value()), e, l, r, nSuffix))
  {
    hide At, State.Push;
    ScriptStep(edits, ShownLines(left), ShownLines(right), e, l, r);
    var edit := edits[e];
    nSuffix' := if edit == Match then nSuffix + 1 else 0;
    if edit == Match || edit == EditType.Remove || edit == Replace {
      hunk.PushLine(if edit == Match then ' ' else '-', UpToNul(left[l]));
    }
    if edit == Add || edit == Replace {
      hunk.PushLine('+', UpToNul(right[r]));
    }
    l' := l + (if edit != Add then 1 else 0);
    r' := r + (if edit != EditType.Remove then 1 else 0);
  }

  /** One round of the outer loop up to printing. */
  method NextHunk(edits: seq<EditType>, left: seq<string>, right: seq<string>, context: nat, e0: nat, l0: nat, r0: nat)
    returns (hunk: Hunk, e: nat, l: nat, r: nat, ghost suffix: nat)
    requires At(edits, ShownLines(left), ShownLines(right), e0, l0, r0) && Ready(edits, context, e0, l0, r0) && e0 < |edits|
    ensures fresh(hunk)
    ensures Cut(hunk.Value(), e, l, r, suffix) == NextCut(edits, ShownLines(left), ShownLines(right), context, e0, l0, r0)
  {
    hide Follows, UsedLeft, UsedRight, EditNear, Fill, Opened, At, ShownLines;
    l, r, e := l0, r0, e0;
    while e < |edits| && edits[e] == Match
      invariant e0 <= e <= |edits| && l == l0 + (e - e0) && r == r0 + (e - e0)
      invariant FirstEdit(edits, e) == FirstEdit(edits, e0)
    {
      l, r, e := l + 1, r + 1, e + 1;
    }
    SkippedIsCommon(edits, ShownLines(left), ShownLines(right), e0, l0, r0, e);
    var prefixContext := Min(l, context);
    hunk := OpenHunk(left, l, r, prefixContext);
    e, l, r, suffix := FillHunk(edits, left, right, context, hunk, e, l, r);
  }

  method CreateUnifiedDiff(left: seq<string>, right: seq<string>, context: nat) returns (text: string)
    ensures text == Text.RenderAll(DiffHunks(left, right, context))
  {
    hide Follows, ValidPath, UsedLeft, UsedRight, EditNear, Trace, CellAt, NextCut, At, Ready, Text.Render, ShownLines;
    var edits := CalculateOptimalEditsOfStrings(left, right);
    ghost var sl, sr := ShownLines(left), ShownLines(right);
    TraceFromTop(left, right);
    ReadyAtTop(edits, context);
    var l, r, e := 0, 0, 0;
    text := "";
    while e < |edits|
      invariant e <= |edits| && At(edits, sl, sr, e, l, r) && Ready(edits, context, e, l, r)
      invariant text + Text.RenderAll(Hunks(edits, sl, sr, context, e, l, r)) == Text.RenderAll(DiffHunks(left, right, context))
      decreases |edits| - e
    {
      ghost var e0, l0, r0 := e, l, r;
      ghost var suffix;
      var hunk;
      hunk, e, l, r, suffix := NextHunk(edits, left, right, context, e, l, r);
      var hasEdits := hunk.HasEdits();
      if !hasEdits {
        return;
      }
      CutIsReady(edits, sl, sr, context, e0, l0, r0);
      AtBounds(edits, sl, sr, e, l, r);
      RenderMore(text, hunk.Value().Printed(), Hunks(edits, sl, sr, context, e, l, r));
      text := hunk.PrintTo(text);
    }
  }

  lemma {:induction false} ReadyAtTop(edits: seq<EditType>, context: nat)
    ensures Ready(edits, context, 0, 0, 0)
  {
  }

  lemma {:induction false} RenderMore(text: string, h: HunkText, rest: seq<HunkText>)
    ensures text + Text.RenderAll([h] + rest) == text + Text.Render(h) + Text.RenderAll(rest)
  {
    assert ([h] + rest)[1..] == rest;
  }
}
