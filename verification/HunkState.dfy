/** One hunk as a value: the three lists and the counters, what pushing a line does to them, and the
    shape of what gets printed. */
module HunkState {
  import opened Wrappers
  import opened PatchSemantics
  import Text = DiffText

  datatype State = State(leftStart: nat, rightStart: nat, adds: nat, removes: nat, common: nat,
                         hunk: seq<Line>, hunkAdds: seq<Line>, hunkRemoves: seq<Line>)
  {
    /** All lines in the order they would be printed now. */
    function Lines(): seq<Line> { hunk + hunkRemoves + hunkAdds }

    /** A context line closes the run of edits before it; an edit waits in its list. */
    function Push(edit: char, line: string): State
    {
      var l := Text.Line(edit, line);
      match edit
      case ' ' => this.(common := common + 1, hunk := Lines() + [l], hunkAdds := [], hunkRemoves := [])
      case '-' => this.(removes := removes + 1, hunkRemoves := hunkRemoves + [l])
      case '+' => this.(adds := adds + 1, hunkAdds := hunkAdds + [l])
      case _ => this
    }

    /** What is printed: a side without edits is left out of the header. */
    function Printed(): HunkText
    {
      Text.HunkText(
        Text.Header(
          if removes > 0 then Some(Text.Range(leftStart, removes + common)) else None,
          if adds > 0 then Some(Text.Range(rightStart, adds + common)) else None),
        Lines())
    }
  }

  lemma {:induction false} SideSnoc(a: seq<Line>, x: Line, skip: char)
    ensures Side(a + [x], skip) == Side(a, skip) + (if x.tag == skip then [] else [x.text])
  {
    assert (a + [x])[..|a|] == a;
  }

  /** The two texts, list by list, for lists of one kind each. */
  lemma {:induction false} PendingSides(hunk: seq<Line>, removes: seq<Line>, adds: seq<Line>)
    requires forall i :: 0 <= i < |removes| ==> removes[i].tag == '-'
    requires forall i :: 0 <= i < |adds| ==> adds[i].tag == '+'
    ensures Side(hunk + removes + adds, '+') == Side(hunk, '+') + Side(removes, '+')
    ensures Side(hunk + removes + adds, '-') == Side(hunk, '-') + Side(adds, '-')
  {
    SideConcat3(hunk, removes, adds, '+');
    SideConcat3(hunk, removes, adds, '-');
    SideOfSkipped(adds, '+');
    SideOfSkipped(removes, '-');
  }

  lemma {:induction false} PendingOrder(hunk: seq<Line>, removes: seq<Line>, adds: seq<Line>)
    requires forall i :: 0 <= i < |removes| ==> removes[i].tag == '-'
    requires forall i :: 0 <= i < |adds| ==> adds[i].tag == '+'
    requires hunk != [] ==> hunk[|hunk| - 1].tag == ' '
    requires RemovesFirst(hunk)
    ensures RemovesFirst(hunk + removes + adds)
  {
    RemovesFirstAppend(hunk, removes);
    RemovesFirstAppend(hunk + removes, adds);
  }

  /** The three lists hold the right kinds of lines and the counters count them. */
  ghost predicate Consistent(h: State)
  {
    && (forall i :: 0 <= i < |h.hunkRemoves| ==> h.hunkRemoves[i].tag == '-')
    && (forall i :: 0 <= i < |h.hunkAdds| ==> h.hunkAdds[i].tag == '+')
    && (h.hunk != [] ==> h.hunk[|h.hunk| - 1].tag == ' ')
    && |Side(h.Lines(), '+')| == h.removes + h.common
    && |Side(h.Lines(), '-')| == h.adds + h.common
  }

  lemma {:induction false} NothingPending(hunk: seq<Line>)
    ensures hunk + [] + [] == hunk
  {
  }

  lemma {:induction false} PushCommon(h: State, l: Line)
    requires Consistent(h) && l.tag == ' '
    ensures Consistent(h.Push(' ', l.text))
    ensures Side(h.Push(' ', l.text).Lines(), '+') == Side(h.Lines(), '+') + [l.text]
    ensures Side(h.Push(' ', l.text).Lines(), '-') == Side(h.Lines(), '-') + [l.text]
  {
    var all := h.Lines();
    SideSnoc(all, l, '+');
    SideSnoc(all, l, '-');
    NothingPending(all + [l]);
  }

  lemma {:induction false} PushRemove(h: State, l: Line)
    requires Consistent(h) && l.tag == '-'
    ensures Consistent(h.Push('-', l.text))
    ensures Side(h.Push('-', l.text).Lines(), '+') == Side(h.Lines(), '+') + [l.text]
    ensures Side(h.Push('-', l.text).Lines(), '-') == Side(h.Lines(), '-')
  {
    hide RemovesFirst;
    PendingSides(h.hunk, h.hunkRemoves, h.hunkAdds);
    PendingSides(h.hunk, h.hunkRemoves + [l], h.hunkAdds);
    SideSnoc(h.hunkRemoves, l, '+');
  }

  lemma {:induction false} PushAdd(h: State, l: Line)
    requires Consistent(h) && l.tag == '+'
    ensures Consistent(h.Push('+', l.text))
    ensures Side(h.Push('+', l.text).Lines(), '+') == Side(h.Lines(), '+')
    ensures Side(h.Push('+', l.text).Lines(), '-') == Side(h.Lines(), '-') + [l.text]
  {
    hide RemovesFirst;
    PendingSides(h.hunk, h.hunkRemoves, h.hunkAdds);
    PendingSides(h.hunk, h.hunkRemoves, h.hunkAdds + [l]);
    SideSnoc(h.hunkAdds, l, '-');
  }

  /** A pushed line reaches exactly the sides it belongs to, whatever is still waiting. */
  lemma {:induction false} PushKeepsConsistent(h: State, edit: char, line: string)
    requires Consistent(h)
    requires edit == ' ' || edit == '-' || edit == '+'
    ensures Consistent(h.Push(edit, line))
    ensures Side(h.Push(edit, line).Lines(), '+') == Side(h.Lines(), '+') + (if edit == '+' then [] else [line])
    ensures Side(h.Push(edit, line).Lines(), '-') == Side(h.Lines(), '-') + (if edit == '-' then [] else [line])
  {
    var l := Text.Line(edit, line);
    if edit == ' ' {
      PushCommon(h, l);
    } else if edit == '-' {
      PushRemove(h, l);
    } else {
      PushAdd(h, l);
    }
  }

  lemma {:induction false} PushKeepsOrder(h: State, edit: char, line: string)
    requires Consistent(h) && RemovesFirst(h.hunk)
    requires edit == ' ' || edit == '-' || edit == '+'
    ensures RemovesFirst(h.Push(edit, line).hunk)
  {
    if edit == ' ' {
      PendingOrder(h.hunk, h.hunkRemoves, h.hunkAdds);
      assert h.Push(edit, line).hunk[..|h.Lines()|] == h.Lines();
    }
  }

  // ----- shape

  /** Exactly `before` context lines, then an edit; and at the end an edit, then exactly `after`. */
  ghost predicate Framed(body: seq<Line>, before: nat, after: nat)
  {
    && before + after < |body|
    && (forall i :: 0 <= i < before ==> body[i].tag == ' ')
    && body[before].tag != ' '
    && (forall i :: |body| - after <= i < |body| ==> body[i].tag == ' ')
    && body[|body| - 1 - after].tag != ' '
  }

  lemma {:induction false} PushedLineKeepsFrame(front: seq<Line>, x: Line, back: seq<Line>, before: nat, after: nat)
    requires Framed(front + back, before, after)
    requires forall i :: 0 <= i < |back| ==> back[i].tag != ' '
    requires x.tag == ' ' ==> back == []
    ensures Framed(front + [x] + back, before, if x.tag == ' ' then after + 1 else 0)
  {
    var all, all' := front + back, front + [x] + back;
    assert forall i :: 0 <= i < |front| ==> all'[i] == all[i];
    assert forall i :: |front| < i < |all'| ==> all'[i] == back[i - |front| - 1];
    assert back != [] ==> all[|front|].tag != ' ';
  }

  /** Within a run of edits all removals come first: no removal follows an addition directly. */
  ghost predicate RemovesFirst(body: seq<Line>)
  {
    |body| < 2
    || (RemovesFirst(body[..|body| - 1]) && !(body[|body| - 2].tag == '+' && body[|body| - 1].tag == '-'))
  }

  lemma {:induction false} RemovesFirstAppend(a: seq<Line>, b: seq<Line>)
    requires RemovesFirst(a)
    requires (forall i :: 0 <= i < |b| ==> b[i].tag == '+') || ((forall i :: 0 <= i < |b| ==> b[i].tag == '-') && (a != [] ==> a[|a| - 1].tag != '+'))
    ensures RemovesFirst(a + b)
  {
    if b == [] {
      assert a + b == a;
    } else {
      assert (a + b)[..|a + b| - 1] == a + b[..|b| - 1];
      RemovesFirstAppend(a, b[..|b| - 1]);
    }
  }

  lemma {:induction false} CommonRemovesFirst(body: seq<Line>)
    requires forall i :: 0 <= i < |body| ==> body[i].tag == ' '
    ensures RemovesFirst(body)
  {
    if |body| >= 2 { CommonRemovesFirst(body[..|body| - 1]); }
  }

  /** Before its first edit a hunk holds `before` context lines; after it, it is framed. */
  ghost predicate Shaped(h: State, before: nat, edited: bool, after: nat)
  {
    if edited then Framed(h.Lines(), before, after)
    else h.hunkAdds == h.hunkRemoves == [] && |h.hunk| == before && forall i :: 0 <= i < before ==> h.hunk[i].tag == ' '
  }

  lemma {:induction false} PushAfterEditKeepsShape(h: State, edit: char, line: string, before: nat, after: nat)
    requires forall i :: 0 <= i < |h.hunkAdds| ==> h.hunkAdds[i].tag == '+'
    requires Framed(h.Lines(), before, after)
    requires edit == ' ' || edit == '-' || edit == '+'
    ensures Framed(h.Push(edit, line).Lines(), before, if edit == ' ' then after + 1 else 0)
  {
    hide Framed;
    var front := if edit == '-' then h.hunk + h.hunkRemoves else h.Lines();
    var back := if edit == '-' then h.hunkAdds else [];
    var x := Text.Line(edit, line);
    assert h.Lines() == front + back;
    assert h.Push(edit, line).Lines() == front + [x] + back;
    PushedLineKeepsFrame(front, x, back, before, after);
  }

  lemma {:induction false} FirstEditFrames(common: seq<Line>, x: Line)
    requires x.tag != ' ' && forall i :: 0 <= i < |common| ==> common[i].tag == ' '
    ensures Framed(common + [x], |common|, 0)
  {
  }

  lemma {:induction false} PushKeepsShape(h: State, edit: char, line: string, before: nat, edited: bool, after: nat)
    requires Consistent(h) && Shaped(h, before, edited, after)
    requires edit == ' ' || edit == '-' || edit == '+'
    ensures edited || edit != ' ' ==> Framed(h.Push(edit, line).Lines(), before, if edit == ' ' then after + 1 else 0)
  {
    hide Side, RemovesFirst, Framed;
    if edited {
      PushAfterEditKeepsShape(h, edit, line, before, after);
    } else if edit != ' ' {
      var x := Text.Line(edit, line);
      FirstEditFrames(h.hunk, x);
      assert h.Push(edit, line).Lines() == h.hunk + [x];
    }
  }
}
