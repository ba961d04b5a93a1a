/** Reading a printed diff back: the text itself is a patch. */
module DiffReader {
  import opened Wrappers
  import opened EditDistance
  import opened PatchSemantics
  import opened HunkState
  import opened UnifiedDiff
  import Text = DiffText

  // ----- numbers and headers

  function Find(s: string, c: char): (k: nat)
    ensures k <= |s|
  {
    if s == "" || s[0] == c then 0 else 1 + Find(s[1..], c)
  }

  function DigitValue(c: char): nat { if '0' <= c <= '9' then c as int - '0' as int else 0 }

  function ReadDecimal(s: string): nat
  {
    if s == "" then 0 else 10 * ReadDecimal(Front(s)) + DigitValue(Last(s))
  }

  function ReadRange(s: string): Text.Range
  {
    var k := Find(s, ',');
    Text.Range(ReadDecimal(s[..k]), if k == |s| then 0 else ReadDecimal(s[k + 1..]))
  }

  function ReadHeader(line: string): Text.Header
  {
    ReadInner(if |line| < 6 then "" else line[3..|line| - 3])
  }

  /** What stands between the markers. */
  function ReadInner(inner: string): Text.Header
  {
    if inner == "" then Text.Header(None, None)
    else if inner[0] == '+' then Text.Header(None, Some(ReadRange(inner[1..])))
    else
      var k := Find(inner, ' ');
      Text.Header(if k == 0 then None else Some(ReadRange(inner[1..k])),
                  if k + 2 > |inner| then None else Some(ReadRange(inner[k + 2..])))
  }

  ghost predicate Lacks(s: string, c: char)
  {
    forall i :: 0 <= i < |s| ==> s[i] != c
  }

  lemma {:induction false} FindFirst(a: string, c: char, b: string)
    requires Lacks(a, c)
    ensures Find(a + [c] + b, c) == |a| && Find(a, c) == |a|
  {
    if a != "" {
      assert (a + [c] + b)[1..] == a[1..] + [c] + b;
      FindFirst(a[1..], c, b);
    }
  }

  lemma {:induction false} DecimalReads(n: nat, c: char)
    requires !('0' <= c <= '9')
    ensures ReadDecimal(Text.Decimal(n)) == n && Lacks(Text.Decimal(n), c)
  {
    var s := Text.Decimal(n);
    assert DigitValue(Text.Digit(n % 10)) == n % 10;
    if n >= 10 {
      DecimalReads(n / 10, c);
      FrontLast(Text.Decimal(n / 10), Text.Digit(n % 10));
    }
  }

  lemma {:induction false} RangeReads(r: Text.Range)
    ensures ReadRange(Text.RenderRange(r)) == r
    ensures Lacks(Text.RenderRange(r), ' ') && Lacks(Text.RenderRange(r), '\n')
  {
    var a, b := Text.Decimal(r.start), Text.Decimal(r.len);
    DecimalReads(r.start, ',');
    DecimalReads(r.start, ' ');
    DecimalReads(r.start, '\n');
    DecimalReads(r.len, ' ');
    DecimalReads(r.len, '\n');
    FindFirst(a, ',', b);
    var s := Text.RenderRange(r);
    assert s == a + [','] + b;
    assert s[..|a|] == a && s[|a| + 1..] == b;
  }

  /** The header line, without its end. */
  function HeaderLine(h: Text.Header): string
  {
    "@@ " + Inner(h) + " @@"
  }

  function Inner(h: Text.Header): string
  {
    (if h.left.Some? then "-" + Text.RenderRange(h.left.value) else "")
    + (if h.left.Some? && h.right.Some? then " " else "")
    + (if h.right.Some? then "+" + Text.RenderRange(h.right.value) else "")
  }

  lemma {:induction false} InnerReads(h: Text.Header)
    ensures ReadInner(Inner(h)) == h && Lacks(Inner(h), '\n')
  {
    hide Text.RenderRange, ReadRange, Find;
    if h.left.Some? { RangeReads(h.left.value); }
    if h.right.Some? { RangeReads(h.right.value); }
    if h.left.Some? && h.right.Some? {
      BothRead(Text.RenderRange(h.left.value), Text.RenderRange(h.right.value));
    } else if h.left.Some? {
      LeftReads(Text.RenderRange(h.left.value));
    } else if h.right.Some? {
      assert Inner(h)[1..] == Text.RenderRange(h.right.value);
    }
  }

  lemma {:induction false} BothRead(l: string, r: string)
    requires Lacks(l, ' ')
    ensures var inner := "-" + l + " " + ("+" + r);
            ReadInner(inner) == Text.Header(Some(ReadRange(l)), Some(ReadRange(r)))
  {
    hide Find, ReadRange;
    var a, b := "-" + l, "+" + r;
    var inner := a + " " + b;
    FindFirst(a, ' ', b);
    assert inner == a + [' '] + b && |a| == |l| + 1;
    assert inner[1..|a|] == l && inner[|a| + 2..] == r;
  }

  lemma {:induction false} LeftReads(l: string)
    requires Lacks(l, ' ')
    ensures ReadInner("-" + l + "" + "") == Text.Header(Some(ReadRange(l)), None)
  {
    hide Find, ReadRange;
    var a := "-" + l;
    FindFirst(a, ' ', "");
    assert a + "" + "" == a && a[1..|a|] == l;
  }

  lemma {:induction false} HeaderReads(h: Text.Header)
    ensures HeaderLine(h) != "" && HeaderLine(h)[0] == '@' && ReadHeader(HeaderLine(h)) == h
    ensures Lacks(HeaderLine(h), '\n') && Text.RenderHeader(h) == HeaderLine(h) + "\n"
  {
    hide ReadInner, Inner, Text.RenderHeader;
    InnerReads(h);
    HeaderShows(h);
    assert HeaderLine(h)[3..|HeaderLine(h)| - 3] == Inner(h);
  }

  lemma {:induction false} HeaderShows(h: Text.Header)
    ensures Text.RenderHeader(h) == HeaderLine(h) + "\n"
  {
    hide Text.RenderRange;
    assert HeaderLine(h) + "\n" == "@@ " + Inner(h) + " @@\n";
  }

  // ----- lines

  /** The finished lines of a text, and the unfinished one. */
  function LinesOf(text: string): (seq<string>, string)
  {
    if text == "" then ([], "")
    else
      var (lines, current) := LinesOf(Front(text));
      if Last(text) == '\n' then (lines + [current], "") else (lines, current + [Last(text)])
  }

  lemma {:induction false} LineGrows(text: string, line: string)
    requires Lacks(line, '\n')
    ensures LinesOf(text + line) == (LinesOf(text).0, LinesOf(text).1 + line)
  {
    if line == "" {
      assert text + line == text && LinesOf(text).1 + line == LinesOf(text).1;
    } else {
      LineGrows(text, Front(line));
      assert Front(text + line) == text + Front(line) && Last(text + line) == Last(line);
      assert LinesOf(text).1 + line == LinesOf(text).1 + Front(line) + [Last(line)];
    }
  }

  lemma {:induction false} LineEnds(text: string, line: string)
    requires Lacks(line, '\n') && LinesOf(text).1 == ""
    ensures LinesOf(text + line + "\n") == (LinesOf(text).0 + [line], "")
  {
    LineGrows(text, line);
    var t := text + line;
    assert "" + line == line;
    assert text + line + "\n" == t + ['\n'] && Front(t + ['\n']) == t;
  }

  // ----- hunks

  predicate IsTag(c: char) { c == ' ' || c == '-' || c == '+' }

  ghost predicate Tagged(body: seq<Line>)
  {
    forall i :: 0 <= i < |body| ==> IsTag(body[i].tag)
  }

  ghost predicate Unbroken(body: seq<Line>)
  {
    forall i :: 0 <= i < |body| ==> Lacks(body[i].text, '\n')
  }

  ghost predicate AllTagged(hs: seq<HunkText>)
  {
    forall i :: 0 <= i < |hs| ==> Tagged(hs[i].body)
  }

  /** No line of the hunks has a line break in it. */
  ghost predicate AllUnbroken(hs: seq<HunkText>)
  {
    forall i :: 0 <= i < |hs| ==> Unbroken(hs[i].body)
  }

  /** One more line read: a header begins a hunk, any other line belongs to the last one. */
  function ReadLine(hs: seq<HunkText>, line: string): Option<seq<HunkText>>
  {
    if line == "" then None
    else if line[0] == '@' then Some(hs + [Text.HunkText(ReadHeader(line), [])])
    else if hs == [] then None
    else
      var h := Last(hs);
      Some(Front(hs) + [Text.HunkText(h.header, h.body + [Text.Line(line[0], line[1..])])])
  }

  function ReadLines(lines: seq<string>): Option<seq<HunkText>>
  {
    if lines == [] then Some([])
    else
      match ReadLines(Front(lines))
      case None => None
      case Some(hs) => ReadLine(hs, Last(lines))
  }

  function ReadDiff(text: string): Option<seq<HunkText>>
  {
    if LinesOf(text).1 == "" then ReadLines(LinesOf(text).0) else None
  }

  lemma {:induction false} OneMoreLine(text: string, line: string, hs: seq<HunkText>)
    requires Lacks(line, '\n') && LinesOf(text).1 == "" && ReadDiff(text) == Some(hs)
    ensures LinesOf(text + line + "\n").1 == "" && ReadDiff(text + line + "\n") == ReadLine(hs, line)
  {
    LineEnds(text, line);
    FrontLast(LinesOf(text).0, line);
  }

  lemma {:induction false} BodyReads(text: string, hs: seq<HunkText>, h: Text.Header, body: seq<Line>)
    requires LinesOf(text).1 == "" && ReadDiff(text) == Some(hs + [Text.HunkText(h, [])]) && Tagged(body) && Unbroken(body)
    ensures LinesOf(text + Text.RenderBody(body)).1 == ""
    ensures ReadDiff(text + Text.RenderBody(body)) == Some(hs + [Text.HunkText(h, body)])
  {
    hide ReadDiff, LinesOf, ReadLine, Lacks;
    if body == [] {
      assert text + Text.RenderBody(body) == text;
    } else {
      var front, last := body[..|body| - 1], body[|body| - 1];
      BodyReads(text, hs, h, front);
      LineReads(hs, h, front, last);
      OneMoreLine(text + Text.RenderBody(front), [last.tag] + last.text, hs + [Text.HunkText(h, front)]);
      assert front + [last] == body;
      assert text + Text.RenderBody(body) == text + Text.RenderBody(front) + ([last.tag] + last.text) + "\n";
    }
  }

  lemma {:induction false} LineReads(hs: seq<HunkText>, h: Text.Header, front: seq<Line>, last: Line)
    requires IsTag(last.tag) && Lacks(last.text, '\n')
    ensures Lacks([last.tag] + last.text, '\n')
    ensures ReadLine(hs + [Text.HunkText(h, front)], [last.tag] + last.text) == Some(hs + [Text.HunkText(h, front + [last])])
  {
    FrontLast(hs, Text.HunkText(h, front));
    assert ([last.tag] + last.text)[1..] == last.text;
  }

  lemma {:induction false} HunkReads(text: string, hs: seq<HunkText>, h: HunkText)
    requires LinesOf(text).1 == "" && ReadDiff(text) == Some(hs) && Tagged(h.body) && Unbroken(h.body)
    ensures LinesOf(text + Text.Render(h)).1 == "" && ReadDiff(text + Text.Render(h)) == Some(hs + [h])
  {
    hide ReadDiff, LinesOf, HeaderLine, Text.RenderHeader, Text.RenderBody;
    HeaderReads(h.header);
    OneMoreLine(text, HeaderLine(h.header), hs);
    BodyReads(text + HeaderLine(h.header) + "\n", hs, h.header, h.body);
    assert text + HeaderLine(h.header) + "\n" + Text.RenderBody(h.body) == text + Text.Render(h);
  }

  lemma {:induction false} HunksRead(text: string, done: seq<HunkText>, hs: seq<HunkText>)
    requires LinesOf(text).1 == "" && ReadDiff(text) == Some(done)
    requires AllTagged(hs) && AllUnbroken(hs)
    ensures ReadDiff(text + Text.RenderAll(hs)) == Some(done + hs)
    decreases |hs|
  {
    hide ReadDiff, LinesOf, Text.Render;
    if hs == [] {
      assert text + Text.RenderAll(hs) == text && done + hs == done;
    } else {
      HunkReads(text, done, hs[0]);
      HunksRead(text + Text.Render(hs[0]), done + [hs[0]], hs[1..]);
      assert text + Text.Render(hs[0]) + Text.RenderAll(hs[1..]) == text + Text.RenderAll(hs);
      assert done + [hs[0]] + hs[1..] == done + hs;
    }
  }

  lemma {:induction false} FinishedLinesUnbroken(text: string)
    ensures forall i :: 0 <= i < |LinesOf(text).0| ==> Lacks(LinesOf(text).0[i], '\n')
    ensures Lacks(LinesOf(text).1, '\n')
  {
    if text != "" { FinishedLinesUnbroken(Front(text)); }
  }

  lemma {:induction false} ReadUnbroken(lines: seq<string>)
    requires forall i :: 0 <= i < |lines| ==> Lacks(lines[i], '\n')
    ensures ReadLines(lines).Some? ==> AllUnbroken(ReadLines(lines).value)
  {
    if lines != [] { ReadUnbroken(Front(lines)); }
  }

  /** What is printed of hunks reads back as those hunks exactly when no line of theirs has a line break in it. */
  lemma {:induction false} PrintedHunksReadBack(hs: seq<HunkText>)
    requires AllTagged(hs)
    ensures ReadDiff(Text.RenderAll(hs)) == Some(hs) <==> AllUnbroken(hs)
  {
    var text := Text.RenderAll(hs);
    if AllUnbroken(hs) {
      HunksRead("", [], hs);
      assert "" + text == text && [] + hs == hs;
    }
    FinishedLinesUnbroken(text);
    ReadUnbroken(LinesOf(text).0);
  }

  // ----- the hunks of a diff

  ghost predicate NoneTagged(ls: seq<Line>, tag: char)
  {
    forall i :: 0 <= i < |ls| ==> ls[i].tag != tag
  }

  /** The header leaves out exactly a side without edits, and one side is there. */
  ghost predicate HeaderFits(h: HunkText)
  {
    && (h.header.left.None? <==> NoneTagged(h.body, '-'))
    && (h.header.right.None? <==> NoneTagged(h.body, '+'))
    && (h.header.left.Some? || h.header.right.Some?)
  }

  ghost predicate HeadersFit(hs: seq<HunkText>)
  {
    forall i :: 0 <= i < |hs| ==> HeaderFits(hs[i])
  }

  /** The lines of a hunk are tagged, and unbroken if all lines of the texts are. */
  ghost predicate PlainLines(ls: seq<Line>, unbroken: bool)
  {
    Tagged(ls) && (unbroken ==> Unbroken(ls))
  }

  /** The counters say whether there are edits of either kind. */
  ghost predicate TagsCounted(h: State)
  {
    (h.removes == 0 <==> NoneTagged(h.Lines(), '-')) && (h.adds == 0 <==> NoneTagged(h.Lines(), '+'))
  }

  ghost predicate PlainState(h: State, unbroken: bool)
  {
    && PlainLines(h.hunk, unbroken) && PlainLines(h.hunkRemoves, unbroken) && PlainLines(h.hunkAdds, unbroken)
    && TagsCounted(h)
  }

  ghost predicate OneLiners(texts: seq<string>, unbroken: bool)
  {
    unbroken ==> forall i :: 0 <= i < |texts| ==> Lacks(texts[i], '\n')
  }

  lemma {:induction false} PushKeepsPlain(h: State, edit: char, line: string, unbroken: bool)
    requires PlainState(h, unbroken) && (unbroken ==> Lacks(line, '\n'))
    ensures PlainState(h.Push(edit, line), unbroken)
  {
    hide TagsCounted;
    PushKeepsCounted(h, edit, line);
  }

  lemma {:induction false} PushKeepsCounted(h: State, edit: char, line: string)
    requires TagsCounted(h)
    ensures TagsCounted(h.Push(edit, line))
  {
    hide NoneTagged;
    var x := Text.Line(edit, line);
    OneTagged(x);
    NoneTaggedJoined(h.hunk, h.hunkRemoves, h.hunkAdds);
    if edit == ' ' {
      NoneTaggedJoined(h.Lines(), [x], []);
      assert h.Push(edit, line).Lines() == h.Lines() + [x] + [];
    } else if edit == '-' {
      NoneTaggedJoined(h.hunkRemoves, [x], []);
      NoneTaggedJoined(h.hunk, h.hunkRemoves + [x], h.hunkAdds);
    } else if edit == '+' {
      NoneTaggedJoined(h.hunkAdds, [x], []);
      NoneTaggedJoined(h.hunk, h.hunkRemoves, h.hunkAdds + [x]);
    }
  }

  lemma {:induction false} OneTagged(x: Line)
    ensures forall tag :: NoneTagged([x], tag) <==> x.tag != tag
    ensures forall tag :: NoneTagged([], tag)
  {
    forall tag ensures NoneTagged([x], tag) <==> x.tag != tag { assert [x][0] == x; }
  }

  lemma {:induction false} NoneTaggedJoined(a: seq<Line>, b: seq<Line>, c: seq<Line>)
    ensures forall tag :: NoneTagged(a + b + c, tag) <==> NoneTagged(a, tag) && NoneTagged(b, tag) && NoneTagged(c, tag)
    ensures c == [] ==> a + b + c == a + b
  {
    forall tag ensures NoneTagged(a + b + c, tag) <==> NoneTagged(a, tag) && NoneTagged(b, tag) && NoneTagged(c, tag) {
      var all := a + b + c;
      assert forall i :: 0 <= i < |a| ==> all[i] == a[i];
      assert forall i :: 0 <= i < |b| ==> all[|a| + i] == b[i];
      assert forall i :: 0 <= i < |c| ==> all[|a| + |b| + i] == c[i];
    }
  }

  lemma {:induction false} FillKeepsPlain(edits: seq<EditType>, left: seq<string>, right: seq<string>, context: nat, c: Cut, unbroken: bool)
    requires CutAt(edits, left, right, c) && PlainState(c.h, unbroken) && OneLiners(left, unbroken) && OneLiners(right, unbroken)
    ensures PlainState(Fill(edits, left, right, context, c).h, unbroken)
    decreases |edits| - c.e
  {
    hide EditNear, PlainState, At, OneLiners, TakeEdit;
    AtBounds(edits, left, right, c.e, c.l, c.r);
    if c.e != |edits| && (c.suffix < context || EditNear(edits, c.e, context)) {
      TakeEditKeepsPlain(edits, left, right, c, unbroken);
      FillKeepsPlain(edits, left, right, context, TakeEdit(edits, left, right, c), unbroken);
    }
  }

  lemma {:induction false} TakeEditKeepsPlain(edits: seq<EditType>, left: seq<string>, right: seq<string>, c: Cut, unbroken: bool)
    requires CutAt(edits, left, right, c) && c.e < |edits|
    requires PlainState(c.h, unbroken) && OneLiners(left, unbroken) && OneLiners(right, unbroken)
    ensures PlainState(TakeEdit(edits, left, right, c).h, unbroken)
  {
    hide At, PlainState, Lacks, State.Push;
    ScriptStep(edits, left, right, c.e, c.l, c.r);
    var edit := edits[c.e];
    if edit != Add { PushKeepsPlain(c.h, if edit == Match then ' ' else '-', left[c.l], unbroken); }
    if edit == Add { PushKeepsPlain(c.h, '+', right[c.r], unbroken); }
    if edit == Replace { PushKeepsPlain(c.h.Push('-', left[c.l]), '+', right[c.r], unbroken); }
  }

  lemma {:induction false} HunksArePlain(edits: seq<EditType>, left: seq<string>, right: seq<string>, context: nat,
                                         e: nat, l: nat, r: nat, unbroken: bool)
    requires At(edits, left, right, e, l, r) && Ready(edits, context, e, l, r) && OneLiners(left, unbroken) && OneLiners(right, unbroken)
    ensures var hs := Hunks(edits, left, right, context, e, l, r); AllTagged(hs) && HeadersFit(hs) && (unbroken ==> AllUnbroken(hs))
    decreases |edits| - e
  {
    hide At, Ready, NextCut, OneLiners, Lacks, IsTag;
    AtBounds(edits, left, right, e, l, r);
    if e < |edits| {
      NextCutIsPlain(edits, left, right, context, e, l, r, unbroken);
      var c := NextCut(edits, left, right, context, e, l, r);
      if c.h.adds + c.h.removes > 0 {
        CutIsReady(edits, left, right, context, e, l, r);
        HunksArePlain(edits, left, right, context, c.e, c.l, c.r, unbroken);
        var rest, hs := Hunks(edits, left, right, context, c.e, c.l, c.r), Hunks(edits, left, right, context, e, l, r);
        assert hs == [c.h.Printed()] + rest;
      }
    }
  }

  lemma {:induction false} NextCutIsPlain(edits: seq<EditType>, left: seq<string>, right: seq<string>, context: nat,
                                          e: nat, l: nat, r: nat, unbroken: bool)
    requires At(edits, left, right, e, l, r) && Ready(edits, context, e, l, r) && e < |edits|
    requires OneLiners(left, unbroken) && OneLiners(right, unbroken)
    ensures PlainState(NextCut(edits, left, right, context, e, l, r).h, unbroken)
  {
    hide At, Fill, EditNear, Lacks;
    var s := FirstEdit(edits, e);
    SkippedIsCommon(edits, left, right, e, l, r, s);
    var l1, r1 := l + (s - e), r + (s - e);
    var p := Min(l1, context);
    CommonLinesArePlain(left[l1 - p..l1], unbroken);
    FillKeepsPlain(edits, left, right, context, Cut(Opened(left, l1, r1, p), s, l1, r1, 0), unbroken);
  }

  lemma {:induction false} CommonLinesArePlain(texts: seq<string>, unbroken: bool)
    requires OneLiners(texts, unbroken)
    ensures PlainLines(CommonLines(texts), unbroken)
  {
  }
}
