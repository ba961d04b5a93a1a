/** What a unified diff means: how hunks are applied to a text, and when a list of hunks is right. */
module PatchSemantics {
  import opened Wrappers
  import Text = DiffText

  type Line = Text.Line
  type HunkText = Text.HunkText

  // ----- what a printed hunk means

  /** The texts of all lines but those tagged `skip`: the old text for '+', the new one for '-'. */
  function Side(body: seq<Line>, skip: char): seq<string>
  {
    if body == [] then []
    else
      var last := body[|body| - 1];
      Side(body[..|body| - 1], skip) + (if last.tag == skip then [] else [last.text])
  }

  lemma {:induction false} SideConcat(a: seq<Line>, b: seq<Line>, skip: char)
    ensures Side(a + b, skip) == Side(a, skip) + Side(b, skip)
  {
    if b == [] {
      assert a + b == a;
    } else {
      assert (a + b)[..|a + b| - 1] == a + b[..|b| - 1];
      SideConcat(a, b[..|b| - 1], skip);
    }
  }

  lemma {:induction false} SideConcat3(a: seq<Line>, b: seq<Line>, c: seq<Line>, skip: char)
    ensures Side(a + b + c, skip) == Side(a, skip) + Side(b, skip) + Side(c, skip)
  {
    SideConcat(a + b, c, skip);
    SideConcat(a, b, skip);
  }

  lemma {:induction false} SideOfSkipped(a: seq<Line>, skip: char)
    requires forall i :: 0 <= i < |a| ==> a[i].tag == skip
    ensures Side(a, skip) == []
  {
    if a != [] { SideOfSkipped(a[..|a| - 1], skip); }
  }

  /** How far a patch has got: lines of the old text used up, and the new text so far. */
  datatype Progress = Progress(used: nat, made: seq<string>)

  /** Applies one hunk by what is printed of it. A side the header leaves out is placed by the other. */
  function ApplyHunk(oldText: seq<string>, at: Progress, h: HunkText): Option<Progress>
  {
    var removed, added := Side(h.body, '+'), Side(h.body, '-');
    var start := match (h.header.left, h.header.right)
                 case (Some(l), _) => l.start - 1
                 case (None, Some(r)) => at.used + (r.start - 1 - |at.made|)
                 case (None, None) => -1;
    if !(at.used <= start && start + |removed| <= |oldText|) then None
    else
      var made := at.made + oldText[at.used..start];
      if oldText[start..start + |removed|] != removed then None
      else if h.header.left.Some? && h.header.left.value.len != |removed| then None
      else if h.header.right.Some? && h.header.right.value != Text.Range(|made| + 1, |added|) then None
      else Some(Progress(start + |removed|, made + added))
  }

  function ApplyAll(oldText: seq<string>, hs: seq<HunkText>): Option<Progress>
  {
    if hs == [] then Some(Progress(0, []))
    else
      match ApplyAll(oldText, hs[..|hs| - 1])
      case None => None
      case Some(at) => ApplyHunk(oldText, at, hs[|hs| - 1])
  }

  /** Applies all hunks in order, each after the end of the one before, and copies the rest. */
  function Patch(oldText: seq<string>, hs: seq<HunkText>): Option<seq<string>>
  {
    match ApplyAll(oldText, hs)
    case None => None
    case Some(at) => if at.used <= |oldText| then Some(at.made + oldText[at.used..]) else None
  }

  function FlipTag(t: char): char { if t == '-' then '+' else if t == '+' then '-' else t }

  function FlipBody(body: seq<Line>): (r: seq<Line>)
    ensures |r| == |body|
    ensures Side(r, '+') == Side(body, '-') && Side(r, '-') == Side(body, '+')
  {
    if body == [] then []
    else
      var last := body[|body| - 1];
      FlipBody(body[..|body| - 1]) + [Text.Line(FlipTag(last.tag), last.text)]
  }

  /** The same hunk read backwards: from the new text to the old. */
  function Flip(h: HunkText): HunkText
  {
    Text.HunkText(Text.Header(h.header.right, h.header.left), FlipBody(h.body))
  }

  function FlipAll(hs: seq<HunkText>): (r: seq<HunkText>)
    ensures |r| == |hs|
    ensures forall i :: 0 <= i < |hs| ==> r[i] == Flip(hs[i])
  {
    if hs == [] then [] else FlipAll(hs[..|hs| - 1]) + [Flip(hs[|hs| - 1])]
  }

  /** Hunk `h` covers left[l..l2] and right[r..r2], the gap before it is unchanged text, and what the
      header shows is right. */
  ghost predicate Covers(left: seq<string>, right: seq<string>, l0: nat, r0: nat, h: HunkText, l: nat, r: nat, l2: nat, r2: nat)
  {
    && l0 <= l <= l2 <= |left| && r0 <= r <= r2 <= |right|
    && left[l0..l] == right[r0..r]
    && Side(h.body, '+') == left[l..l2]
    && Side(h.body, '-') == right[r..r2]
    && (h.header.left == None || h.header.left == Some(Text.Range(l + 1, l2 - l)))
    && (h.header.right == None || h.header.right == Some(Text.Range(r + 1, r2 - r)))
    && (h.header.left.Some? || h.header.right.Some?)
  }

  lemma {:induction false} CoveringHunkApplies(left: seq<string>, right: seq<string>, l0: nat, r0: nat, h: HunkText, l: nat, r: nat, l2: nat, r2: nat)
    requires Covers(left, right, l0, r0, h, l, r, l2, r2)
    ensures ApplyHunk(left, Progress(l0, right[..r0]), h) == Some(Progress(l2, right[..r2]))
  {
    assert |left[l0..l]| == |right[r0..r]|;
    assert right[..r0] + left[l0..l] + right[r..r2] == right[..r2];
  }

  lemma {:induction false} CoveringHunkFlips(left: seq<string>, right: seq<string>, l0: nat, r0: nat, h: HunkText, l: nat, r: nat, l2: nat, r2: nat)
    requires Covers(left, right, l0, r0, h, l, r, l2, r2)
    ensures Covers(right, left, r0, l0, Flip(h), r, l, r2, l2)
  {
  }

  // ----- when a list of hunks is a patch

  /** The two stretches of text a hunk stands for: left[l..l2] and right[r..r2]. */
  datatype Span = Span(l: nat, l2: nat, r: nat, r2: nat)

  ghost predicate GapCommon(left: seq<string>, right: seq<string>, l0: nat, r0: nat, l: nat, r: nat)
  {
    l0 <= l <= |left| && r0 <= r <= |right| && left[l0..l] == right[r0..r]
  }

  /** The hunks show the texts `shownLeft` and `shownRight` in their spans, and what lies between and after the spans
      is common to `left` and `right`. */
  ghost predicate CoversAll(left: seq<string>, right: seq<string>, shownLeft: seq<string>, shownRight: seq<string>,
                            l0: nat, r0: nat, hs: seq<HunkText>, spans: seq<Span>)
    decreases |hs|
  {
    && |shownLeft| == |left| && |shownRight| == |right| && |spans| == |hs|
    && if hs == [] then GapCommon(left, right, l0, r0, |left|, |right|)
       else
         var s := spans[0];
         && Covers(shownLeft, shownRight, l0, r0, hs[0], s.l, s.r, s.l2, s.r2)
         && GapCommon(left, right, l0, r0, s.l, s.r)
         && CoversAll(left, right, shownLeft, shownRight, s.l2, s.r2, hs[1..], spans[1..])
  }

  /** What is shown of a stretch is all there is. */
  ghost predicate ShownWhole(text: seq<string>, shown: seq<string>, a: nat, b: nat)
  {
    a <= b <= |text| && b <= |shown| && text[a..b] == shown[a..b]
  }

  ghost predicate AllWhole(left: seq<string>, right: seq<string>, shownLeft: seq<string>, shownRight: seq<string>, spans: seq<Span>)
  {
    forall i :: 0 <= i < |spans| ==>
      ShownWhole(left, shownLeft, spans[i].l, spans[i].l2) && ShownWhole(right, shownRight, spans[i].r, spans[i].r2)
  }

  /** Later hunks neither mend a failure nor take back what was made. */
  lemma {:induction false} LaterHunks(oldText: seq<string>, done: seq<HunkText>, more: seq<HunkText>)
    ensures ApplyAll(oldText, done + more).Some? ==>
              ApplyAll(oldText, done).Some? && ApplyAll(oldText, done).value.made <= ApplyAll(oldText, done + more).value.made
  {
    hide ApplyHunk;
    if more == [] {
      assert done + more == done;
    } else {
      LaterHunks(oldText, done, more[..|more| - 1]);
      var all := done + more;
      assert all[..|all| - 1] == done + more[..|more| - 1];
      if ApplyAll(oldText, all).Some? {
        MadeGrows(oldText, ApplyAll(oldText, all[..|all| - 1]).value, all[|all| - 1]);
      }
    }
  }

  lemma {:induction false} MadeGrows(oldText: seq<string>, at: Progress, h: HunkText)
    requires ApplyHunk(oldText, at, h).Some?
    ensures at.made <= ApplyHunk(oldText, at, h).value.made
  {
  }

  /** A hunk that shows too little of the old text does not apply. */
  lemma {:induction false} WrongOldFails(left: seq<string>, right: seq<string>, shownLeft: seq<string>, shownRight: seq<string>,
                                         l0: nat, r0: nat, h: HunkText, s: Span)
    requires |shownLeft| == |left| && |shownRight| == |right|
    requires Covers(shownLeft, shownRight, l0, r0, h, s.l, s.r, s.l2, s.r2) && GapCommon(left, right, l0, r0, s.l, s.r)
    requires !ShownWhole(left, shownLeft, s.l, s.l2)
    ensures ApplyHunk(left, Progress(l0, right[..r0]), h) == None
  {
    hide Side;
    assert |left[l0..s.l]| == |right[r0..s.r]|;
    assert s.l + |Side(h.body, '+')| == s.l2;
  }

  /** A hunk that shows too little of the new text makes something else. */
  lemma {:induction false} WrongNewMakesOther(left: seq<string>, right: seq<string>, shownLeft: seq<string>, shownRight: seq<string>,
                                              l0: nat, r0: nat, h: HunkText, s: Span)
    requires |shownLeft| == |left| && |shownRight| == |right|
    requires Covers(shownLeft, shownRight, l0, r0, h, s.l, s.r, s.l2, s.r2) && GapCommon(left, right, l0, r0, s.l, s.r)
    requires ShownWhole(left, shownLeft, s.l, s.l2) && !ShownWhole(right, shownRight, s.r, s.r2)
    ensures ApplyHunk(left, Progress(l0, right[..r0]), h).Some? ==>
              !(ApplyHunk(left, Progress(l0, right[..r0]), h).value.made <= right)
  {
    hide Side;
    assert |left[l0..s.l]| == |right[r0..s.r]|;
    var made := right[..r0] + left[l0..s.l] + shownRight[s.r..s.r2];
    assert |made| == s.r2 && made[s.r..] == shownRight[s.r..s.r2];
    assert right[..s.r2][s.r..] == right[s.r..s.r2];
  }

  lemma {:induction false} WholeHunkApplies(left: seq<string>, right: seq<string>, shownLeft: seq<string>, shownRight: seq<string>,
                                            l0: nat, r0: nat, h: HunkText, s: Span)
    requires |shownLeft| == |left| && |shownRight| == |right|
    requires Covers(shownLeft, shownRight, l0, r0, h, s.l, s.r, s.l2, s.r2) && GapCommon(left, right, l0, r0, s.l, s.r)
    requires ShownWhole(left, shownLeft, s.l, s.l2) && ShownWhole(right, shownRight, s.r, s.r2)
    ensures ApplyHunk(left, Progress(l0, right[..r0]), h) == Some(Progress(s.l2, right[..s.r2]))
  {
    hide Side;
    CoveringHunkApplies(left, right, l0, r0, h, s.l, s.r, s.l2, s.r2);
  }

  /** Hunks that cover all changes make the right text exactly when they show all of their spans. */
  lemma {:induction false} PatchIff(left: seq<string>, right: seq<string>, shownLeft: seq<string>, shownRight: seq<string>,
                                    done: seq<HunkText>, l0: nat, r0: nat, hs: seq<HunkText>, spans: seq<Span>)
    requires CoversAll(left, right, shownLeft, shownRight, l0, r0, hs, spans)
    requires r0 <= |right| && ApplyAll(left, done) == Some(Progress(l0, right[..r0]))
    ensures Patch(left, done + hs) == Some(right) <==> AllWhole(left, right, shownLeft, shownRight, spans)
    decreases |hs|
  {
    hide ApplyHunk, Covers, ShownWhole;
    if hs == [] {
      assert done + hs == done && right[..r0] + right[r0..] == right;
      assert left[l0..|left|] == left[l0..] && right[r0..|right|] == right[r0..];
    } else {
      var h, s := hs[0], spans[0];
      var next := done + [h];
      assert next[..|next| - 1] == done;
      assert next + hs[1..] == done + hs;
      LaterHunks(left, next, hs[1..]);
      WholeFirst(left, right, shownLeft, shownRight, spans);
      if !ShownWhole(left, shownLeft, s.l, s.l2) {
        WrongOldFails(left, right, shownLeft, shownRight, l0, r0, h, s);
      } else if !ShownWhole(right, shownRight, s.r, s.r2) {
        WrongNewMakesOther(left, right, shownLeft, shownRight, l0, r0, h, s);
      } else {
        WholeHunkApplies(left, right, shownLeft, shownRight, l0, r0, h, s);
        SpanEnds(shownLeft, shownRight, l0, r0, h, s);
        PatchIff(left, right, shownLeft, shownRight, next, s.l2, s.r2, hs[1..], spans[1..]);
      }
    }
  }

  lemma {:induction false} WholeFirst(left: seq<string>, right: seq<string>, shownLeft: seq<string>, shownRight: seq<string>, spans: seq<Span>)
    requires spans != []
    ensures AllWhole(left, right, shownLeft, shownRight, spans) <==>
            && ShownWhole(left, shownLeft, spans[0].l, spans[0].l2) && ShownWhole(right, shownRight, spans[0].r, spans[0].r2)
            && AllWhole(left, right, shownLeft, shownRight, spans[1..])
  {
    hide ShownWhole;
    assert spans == [spans[0]] + spans[1..];
  }

  lemma {:induction false} SpanEnds(left: seq<string>, right: seq<string>, l0: nat, r0: nat, h: HunkText, s: Span)
    requires Covers(left, right, l0, r0, h, s.l, s.r, s.l2, s.r2)
    ensures s.l2 <= |left| && s.r2 <= |right|
  {
  }

  function FlipSpans(spans: seq<Span>): (r: seq<Span>)
    ensures |r| == |spans| && forall i :: 0 <= i < |spans| ==> r[i] == Span(spans[i].r, spans[i].r2, spans[i].l, spans[i].l2)
  {
    seq(|spans|, i requires 0 <= i < |spans| => Span(spans[i].r, spans[i].r2, spans[i].l, spans[i].l2))
  }

  lemma {:induction false} CoversAllFlips(left: seq<string>, right: seq<string>, shownLeft: seq<string>, shownRight: seq<string>,
                                          l0: nat, r0: nat, hs: seq<HunkText>, spans: seq<Span>)
    requires CoversAll(left, right, shownLeft, shownRight, l0, r0, hs, spans)
    ensures CoversAll(right, left, shownRight, shownLeft, r0, l0, FlipAll(hs), FlipSpans(spans))
    decreases |hs|
  {
    hide Covers, Flip;
    if hs != [] {
      var s := spans[0];
      CoveringHunkFlips(shownLeft, shownRight, l0, r0, hs[0], s.l, s.r, s.l2, s.r2);
      CoversAllFlips(left, right, shownLeft, shownRight, s.l2, s.r2, hs[1..], spans[1..]);
      assert FlipAll(hs)[1..] == FlipAll(hs[1..]) && FlipSpans(spans)[1..] == FlipSpans(spans[1..]);
    }
  }

  /** In both directions. */
  lemma {:induction false} PatchBothWaysIff(left: seq<string>, right: seq<string>, shownLeft: seq<string>, shownRight: seq<string>,
                                            hs: seq<HunkText>, spans: seq<Span>)
    requires CoversAll(left, right, shownLeft, shownRight, 0, 0, hs, spans)
    ensures Patch(left, hs) == Some(right) <==> AllWhole(left, right, shownLeft, shownRight, spans)
    ensures Patch(right, FlipAll(hs)) == Some(left) <==> AllWhole(left, right, shownLeft, shownRight, spans)
  {
    hide CoversAll, Patch, FlipAll, ShownWhole;
    PatchIff(left, right, shownLeft, shownRight, [], 0, 0, hs, spans);
    CoversAllFlips(left, right, shownLeft, shownRight, 0, 0, hs, spans);
    PatchIff(right, left, shownRight, shownLeft, [], 0, 0, FlipAll(hs), FlipSpans(spans));
    assert [] + hs == hs && [] + FlipAll(hs) == FlipAll(hs);
  }
}
