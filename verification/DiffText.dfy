/** The text of a unified diff, and how it reads back. */
module DiffText {
  import opened Wrappers

  datatype Line = Line(tag: char, text: string)
  datatype Range = Range(start: nat, len: nat)
  datatype Header = Header(left: Option<Range>, right: Option<Range>)
  datatype HunkText = HunkText(header: Header, body: seq<Line>)

  function Digit(d: nat): char
    requires d < 10
  {
    "0123456789"[d]
  }

  function Decimal(n: nat): string
  {
    if n < 10 then [Digit(n)] else Decimal(n / 10) + [Digit(n % 10)]
  }

  function RenderRange(r: Range): string { Decimal(r.start) + "," + Decimal(r.len) }

  function RenderHeader(h: Header): string
  {
    "@@ "
    + (if h.left.Some? then "-" + RenderRange(h.left.value) else "")
    + (if h.left.Some? && h.right.Some? then " " else "")
    + (if h.right.Some? then "+" + RenderRange(h.right.value) else "")
    + " @@\n"
  }

  function RenderBody(body: seq<Line>): string
  {
    if body == [] then ""
    else
      var last := body[|body| - 1];
      RenderBody(body[..|body| - 1]) + [last.tag] + last.text + "\n"
  }

  function Render(h: HunkText): string { RenderHeader(h.header) + RenderBody(h.body) }

  function RenderAll(hs: seq<HunkText>): string
  {
    if hs == [] then "" else Render(hs[0]) + RenderAll(hs[1..])
  }

  /** What headers look like: a side that is left out leaves no trace. */
  lemma {:induction false} HeaderLooks(l: Range, r: Range)
    ensures RenderHeader(Header(Some(l), Some(r))) ==
            "@@ -" + Decimal(l.start) + "," + Decimal(l.len) + " +" + Decimal(r.start) + "," + Decimal(r.len) + " @@\n"
    ensures RenderHeader(Header(Some(l), None)) == "@@ -" + Decimal(l.start) + "," + Decimal(l.len) + " @@\n"
    ensures RenderHeader(Header(None, Some(r))) == "@@ +" + Decimal(r.start) + "," + Decimal(r.len) + " @@\n"
  {
    hide Decimal;
    var a, b, c, d := Decimal(l.start), Decimal(l.len), Decimal(r.start), Decimal(r.len);
    assert "@@ " + ("-" + (a + "," + b)) + " " + ("+" + (c + "," + d)) + " @@\n" == "@@ -" + a + "," + b + " +" + c + "," + d + " @@\n";
    assert "@@ " + ("-" + (a + "," + b)) + "" + "" + " @@\n" == "@@ -" + a + "," + b + " @@\n";
    assert "@@ " + "" + "" + ("+" + (c + "," + d)) + " @@\n" == "@@ +" + c + "," + d + " @@\n";
  }

  lemma {:induction false} Regroup(a: string, b: string, c: string, d: string)
    ensures a + (b + c + d + "\n") == a + b + c + d + "\n"
  {
  }

  /** Lines one behind the other, each with its tag in front. */
  lemma {:induction false} BodyLooks(a: seq<Line>, b: seq<Line>, x: Line)
    ensures RenderBody(a + b) == RenderBody(a) + RenderBody(b)
    ensures RenderBody([x]) == [x.tag] + x.text + "\n" && RenderBody([]) == ""
  {
    if b == [] {
      assert a + b == a;
    } else {
      var n := |b| - 1;
      assert (a + b)[..|a| + n] == a + b[..n] && (a + b)[|a| + n] == b[n];
      BodyLooks(a, b[..n], x);
      Regroup(RenderBody(a), RenderBody(b[..n]), [b[n].tag], b[n].text);
    }
    assert [x][..0] == [];
  }
}
