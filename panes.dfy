/** A window and the pane drawn for it: the size computed from its title
    and content, and the text written into the pane. */
module Panes {
  import opened Text
  import Decimal

  /** A window as the program keeps it. `pwd` is carried along but nothing
      about the pane depends on it. */
  datatype Window = Window(id: string, pwd: string, tag: string, content: string)

  /** The content's lines, as `strings.Split(content, "\n")` cuts them. */
  function Lines(content: string): seq<string>
  {
    Split(content, '\n')
  }

  function Max(a: int, b: int): int
  {
    if a >= b then a else b
  }

  /** The pane's first line. */
  function Title(id: string, tag: string): string
  {
    id + " " + tag
  }

  /** Pane width: one more than the longer of the title and the longest line. */
  function PaneWidth(id: string, tag: string, content: string): int
  {
    Max(|Title(id, tag)|, MaxLen(Lines(content))) + 1
  }

  /** Pane height: four more than the number of lines. */
  function PaneHeight(content: string): int
  {
    |Lines(content)| + 4
  }

  /** `Window.DisplayData`: scans the lines for the longest one, then pads
      the larger of that and the title by one. The width exceeds the title
      and every line, and is the least such width; the height is the
      number of newlines plus five. */
  method DisplayData(win: Window) returns (w: int, h: int, title: string)
    ensures title == win.id + " " + win.tag
    ensures w > |title|
    ensures forall k :: 0 <= k < |Lines(win.content)| ==> w > |Lines(win.content)[k]|
    ensures w - 1 == |title| || exists k :: 0 <= k < |Lines(win.content)| && |Lines(win.content)[k]| == w - 1
    ensures h == Count(win.content, '\n') + 5
    ensures w == PaneWidth(win.id, win.tag, win.content) && h == PaneHeight(win.content)
  {
    var lines := Split(win.content, '\n');
    w := 0;
    for i := 0 to |lines|
      invariant w == MaxLen(lines[..i])
    {
      assert lines[..i + 1][..i] == lines[..i];
      if |lines[i]| > w {
        w := |lines[i]|;
      }
    }
    assert lines[..|lines|] == lines;
    assert lines == Lines(win.content);
    var longest := w;
    assert longest == 0 || exists k :: 0 <= k < |lines| && |lines[k]| == longest;
    title := win.id + " " + win.tag;
    w := Max(|title|, longest) + 1;
    h := |lines| + 4;
  }

  /** Adding a newline adds exactly one line to the pane: splitting the
      content at a newline adds the heights of the two parts, less the
      fixed four. */
  lemma HeightAround(a: string, b: string)
    ensures PaneHeight(a + "\n" + b) == PaneHeight(a) + PaneHeight(b) - 4
    ensures PaneHeight(a + "\n") == PaneHeight(a) + 1
  {
    SplitAround(a, b, '\n');
    SplitAround(a, "", '\n');
    assert a + "\n" + "" == a + "\n";
  }

  /** The pane's last line, `w: <width>, h: <height>`. */
  function Footer(w: int, h: int): string
  {
    "w: " + Decimal.Itoa(w) + ", h: " + Decimal.Itoa(h)
  }

  /** `Window.Draw`: the text written into the pane, the title, a blank
      line, the content and the size line. It has three more newlines than
      the title and the content together: the size line adds one line to
      the content's, and the blank line two. */
  function DrawText(win: Window): (r: string)
    ensures Count(r, '\n') == Count(Title(win.id, win.tag), '\n') + Count(win.content, '\n') + 3
  {
    var t := Title(win.id, win.tag);
    var f := Footer(PaneWidth(win.id, win.tag, win.content), PaneHeight(win.content));
    assert '\n' !in f;
    SplitPane(t, win.content, f);
    t + "\n" + "\n" + win.content + "\n" + f
  }

  /** Splitting the pane text layout at its newlines. */
  lemma SplitPane(t: string, c: string, f: string)
    requires '\n' !in f
    ensures Split(t + "\n" + "\n" + c + "\n" + f, '\n') == Split(t, '\n') + [""] + Split(c, '\n') + [f]
  {
    assert t + "\n" + "\n" + c + "\n" + f == t + ['\n'] + ([] + ['\n'] + (c + ['\n'] + f));
    var s1 := c + ['\n'] + f;
    NoSepSplit(f, '\n');
    SplitAround(c, f, '\n');
    var s2 := [] + ['\n'] + s1;
    SplitAround([], s1, '\n');
    SplitAround(t, s2, '\n');
  }

  /** The drawn text's lines are the title's, one blank line, the content's
      lines and the size line. */
  lemma DrawLines(win: Window)
    ensures Split(DrawText(win), '\n')
         == Split(Title(win.id, win.tag), '\n') + [""] + Lines(win.content)
            + [Footer(PaneWidth(win.id, win.tag, win.content), PaneHeight(win.content))]
  {
    var f := Footer(PaneWidth(win.id, win.tag, win.content), PaneHeight(win.content));
    assert '\n' !in f;
    SplitPane(Title(win.id, win.tag), win.content, f);
  }

  /** Two comma-free fields after fixed comma-free prefixes, joined by a
      comma, can be read back. */
  lemma FieldsInjective(p: string, q: string, x1: string, y1: string, x2: string, y2: string)
    requires ',' !in p + x1 && ',' !in p + x2 && ',' !in q + y1 && ',' !in q + y2
    requires (p + x1) + [','] + (q + y1) == (p + x2) + [','] + (q + y2)
    ensures x1 == x2 && y1 == y2
  {
    SplitPair(p + x1, q + y1, ',');
    SplitPair(p + x2, q + y2, ',');
    assert [p + x1, q + y1] == [p + x2, q + y2];
    assert p + x1 == p + x2 && q + y1 == q + y2;
    assert x1 == (p + x1)[|p|..] && x2 == (p + x2)[|p|..];
    assert y1 == (q + y1)[|q|..] && y2 == (q + y2)[|q|..];
  }

  /** The size line gives back the width and height it shows. */
  lemma FooterInjective(w1: int, h1: int, w2: int, h2: int)
    requires Footer(w1, h1) == Footer(w2, h2)
    ensures w1 == w2 && h1 == h2
  {
    var p, q := "w: ", " h: ";
    var x1, x2, y1, y2 := Decimal.Itoa(w1), Decimal.Itoa(w2), Decimal.Itoa(h1), Decimal.Itoa(h2);
    assert Footer(w1, h1) == (p + x1) + [','] + (q + y1);
    assert Footer(w2, h2) == (p + x2) + [','] + (q + y2);
    FieldsInjective(p, q, x1, y1, x2, y2);
    Decimal.ItoaInjective(w1, w2);
    Decimal.ItoaInjective(h1, h2);
  }

  /** Two windows whose drawn text is the same have panes of the same size:
      the size line is the drawn text's last line. */
  lemma DrawShowsSize(u: Window, v: Window)
    requires DrawText(u) == DrawText(v)
    ensures PaneWidth(u.id, u.tag, u.content) == PaneWidth(v.id, v.tag, v.content)
    ensures PaneHeight(u.content) == PaneHeight(v.content)
  {
    var fu := Footer(PaneWidth(u.id, u.tag, u.content), PaneHeight(u.content));
    var fv := Footer(PaneWidth(v.id, v.tag, v.content), PaneHeight(v.content));
    DrawLines(u);
    DrawLines(v);
    var pu := Split(Title(u.id, u.tag), '\n') + [""] + Lines(u.content);
    var pv := Split(Title(v.id, v.tag), '\n') + [""] + Lines(v.content);
    assert pu + [fu] == pv + [fv];
    assert |pu| == |pv|;
    assert fu == (pu + [fu])[|pu|] == (pv + [fv])[|pv|] == fv;
    FooterInjective(PaneWidth(u.id, u.tag, u.content), PaneHeight(u.content),
                    PaneWidth(v.id, v.tag, v.content), PaneHeight(v.content));
  }

  /** Window `a` with content "x\ny" and tag "T": a pane 4 wide and 6 high
      titled "a T". */
  lemma ExamplePane(pwd: string)
    ensures var win := Window("a", pwd, "T", "x\ny");
      PaneWidth(win.id, win.tag, win.content) == 4 && PaneHeight(win.content) == 6
      && Title(win.id, win.tag) == "a T"
  {
  }
}
