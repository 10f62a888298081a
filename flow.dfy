/** `flowLayout`: the panes, in the order the toolkit lists them, placed
    side by side on one row from the left edge, each two columns right of
    the previous one's width. The toolkit's views are abstracted to the
    sequence of their sizes. */
module Flow {

  /** A pane's size as the toolkit reports it. */
  datatype Size = Size(w: int, h: int)

  /** The rectangle (x0, y0)-(x1, y1) a pane is set to. */
  datatype Rect = Rect(x0: int, y0: int, x1: int, y1: int)

  /** The x-origin after all panes of `sizes`: each one takes its width
      plus two columns. */
  function XAfter(sizes: seq<Size>): int
  {
    if sizes == [] then 0
    else XAfter(sizes[..|sizes| - 1]) + sizes[|sizes| - 1].w + 2
  }

  /** Where the pane at index `i` goes. */
  function Placed(sizes: seq<Size>, i: nat): Rect
    requires i < |sizes|
  {
    var x := XAfter(sizes[..i]);
    Rect(x, 0, x + sizes[i].w + 1, sizes[i].h + 1)
  }

  /** The packing loop: `x` starts at 0 and grows by `w + 2` per pane. The
      first pane starts at column 0, every pane at row 0, each origin is the
      previous origin plus the previous width plus two, and every pane is
      one wider and one higher than its size.

      `fails` holds the indices of the panes whose `SetView` returns an
      error other than "unknown view". The loop returns that error right
      after the first such call, so `rects` lists the calls made, the
      failing one last; `ok` is a nil result, which happens exactly when no
      pane fails, and then every pane has been placed. */
  method FlowLayout(sizes: seq<Size>, fails: set<nat>) returns (rects: seq<Rect>, ok: bool)
    ensures ok <==> forall k :: 0 <= k < |sizes| ==> k !in fails
    ensures ok ==> |rects| == |sizes|
    ensures !ok ==> 0 < |rects| <= |sizes| && |rects| - 1 in fails
    ensures forall k :: 0 <= k < |rects| - 1 ==> k !in fails
    ensures forall i :: 0 <= i < |rects| ==> rects[i] == Placed(sizes, i)
    ensures |rects| > 0 ==> rects[0].x0 == 0
    ensures forall i :: 0 <= i < |rects| ==> rects[i].y0 == 0 && rects[i].y1 == sizes[i].h + 1
    ensures forall i :: 0 <= i < |rects| ==> rects[i].x1 == rects[i].x0 + sizes[i].w + 1
    ensures forall i :: 0 <= i < |rects| - 1 ==> rects[i + 1].x0 == rects[i].x0 + sizes[i].w + 2
  {
    var x := 0;
    rects := [];
    ok := true;
    while ok && |rects| < |sizes|
      invariant |rects| <= |sizes|
      invariant ok ==> x == XAfter(sizes[..|rects|])
      invariant forall j :: 0 <= j < |rects| ==> rects[j] == Placed(sizes, j)
      invariant ok ==> forall k :: 0 <= k < |rects| ==> k !in fails
      invariant !ok ==> 0 < |rects| && |rects| - 1 in fails
      invariant forall k :: 0 <= k < |rects| - 1 ==> k !in fails
      decreases |sizes| - |rects|
    {
      var i := |rects|;
      assert sizes[..i + 1][..i] == sizes[..i];
      rects := rects + [Rect(x, 0, x + sizes[i].w + 1, sizes[i].h + 1)];
      if i in fails {
        ok := false;
      } else {
        x := x + sizes[i].w + 2;
      }
    }
    forall i | 0 <= i < |rects| - 1
      ensures rects[i + 1].x0 == rects[i].x0 + sizes[i].w + 2
    {
      assert sizes[..i + 1][..i] == sizes[..i];
    }
  }

  /** With no negative width, origins only grow along the row. */
  lemma {:induction false} XAfterGrows(sizes: seq<Size>, i: nat, j: nat)
    requires forall k :: 0 <= k < |sizes| ==> sizes[k].w >= 0
    requires i <= j <= |sizes|
    ensures XAfter(sizes[..i]) + 2 * (j - i) <= XAfter(sizes[..j])
    decreases j
  {
    if i < j {
      XAfterGrows(sizes, i, j - 1);
      assert sizes[..j][..j - 1] == sizes[..j - 1];
    }
  }

  /** With no negative width, a pane ends strictly left of where any later
      pane starts, and origins strictly increase: panes never overlap. */
  lemma PanesApart(sizes: seq<Size>, i: nat, j: nat)
    requires forall k :: 0 <= k < |sizes| ==> sizes[k].w >= 0
    requires i < j < |sizes|
    ensures Placed(sizes, i).x1 < Placed(sizes, j).x0
    ensures Placed(sizes, i).x0 < Placed(sizes, j).x0
  {
    XAfterGrows(sizes, i + 1, j);
    assert sizes[..i + 1][..i] == sizes[..i];
  }

  /** Panes of widths 5, 3 and 7 start at columns 0, 7 and 12. */
  lemma ExampleRow(h1: int, h2: int, h3: int)
    ensures var s := [Size(5, h1), Size(3, h2), Size(7, h3)];
      Placed(s, 0).x0 == 0 && Placed(s, 1).x0 == 7 && Placed(s, 2).x0 == 12
  {
    var s := [Size(5, h1), Size(3, h2), Size(7, h3)];
    assert s[..1][..0] == [] && s[..2][..1] == s[..1];
  }
}
