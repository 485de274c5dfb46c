/**
 * The lucky-wheel view as an object: its layout list, the spin fields the
 * animator callbacks update, the "Go" press flag and the paint colour.
 * The random number and the animator's values are inputs to the methods.
 */
module LuckyPanView {
  import JavaInt
  import opened Grid
  import opened Styling
  import opened Spin

  /** The touch actions the view distinguishes. */
  datatype Action = Down | Up | OtherAction

  class LuckyPan {
    var rects: seq<Rect>      // the cell rectangles, in layout order
    var rectSize: int         // side of one cell
    var width: int            // the view's current width and height
    var height: int
    var luckNum: int          // the lucky number of the latest spin
    var position: int         // the highlighted cell, NoHighlight before any spin
    var startPosition: int    // where the next spin starts
    var clickGoFlag: bool     // the last press landed on the centre cell
    var paintColor: Color     // the colour currently set on the paint

    /** The object invariant: the list is empty or the layout of the current size. */
    ghost predicate Valid()
      reads this
    {
      (rects == [] || rects == Layout(width, height)) &&
      rectSize == Size(width, height) &&
      0 <= luckNum < RingSize && 0 <= startPosition < RingSize
    }

    /** A fresh view: no size yet, no layout, nothing highlighted, not armed. */
    constructor ()
      ensures Valid()
      ensures rects == [] && width == 0 && height == 0
      ensures luckNum == 0 && position == NoHighlight && startPosition == 0
      ensures !clickGoFlag && paintColor == Black
    {
      rects := [];
      rectSize := 0;
      width, height := 0, 0;
      luckNum := 0;
      position := NoHighlight;
      startPosition := 0;
      clickGoFlag := false;
      paintColor := Black;
      assert Size(0, 0) == 0;
    }

    /**
     * The view now has size `w` x `h`: recompute the cell size, clear the
     * list and rebuild it. The result depends on `(w, h)` alone; nothing
     * but the size fields and the list changes.
     */
    method OnSizeChanged(w: int, h: int)
      requires Valid()
      modifies this
      ensures Valid()
      ensures width == w && height == h && rectSize == Size(w, h)
      ensures rects == Layout(w, h)
      ensures luckNum == old(luckNum) && position == old(position)
      ensures startPosition == old(startPosition) && clickGoFlag == old(clickGoFlag)
      ensures paintColor == old(paintColor)
    {
      width, height := w, h;
      rectSize := JavaInt.Div(JavaInt.Min(w, h), 3);
      rects := [];
      InitRect();
    }

    /** Append the nine cells to the empty list, with the two loops of the layout code. */
    method InitRect()
      requires rects == [] && rectSize == Size(width, height)
      modifies this`rects
      ensures rects == Layout(width, height)
    {
      ghost var cells := Layout(width, height);
      var x := 0;
      while x < 3
        invariant 0 <= x <= 3
        invariant rects == cells[..x]
      {
        var left := x * rectSize;
        var top := 0;
        var right := (x + 1) * rectSize;
        var bottom := rectSize;
        rects := rects + [Rect(left, top, right, bottom)];
        x := x + 1;
      }
      rects := rects + [Rect(width - rectSize, rectSize, width, rectSize * 2)];
      var y := 3;
      while y > 0
        invariant 0 <= y <= 3
        invariant rects == cells[..7 - y]
      {
        var left := width - (4 - y) * rectSize;
        var top := rectSize * 2;
        var right := (y - 3) * rectSize + width;
        var bottom := rectSize * 3;
        assert Rect(left, top, right, bottom) == BottomCell(4 - y, width, rectSize);
        rects := rects + [Rect(left, top, right, bottom)];
        y := y - 1;
      }
      rects := rects + [Rect(0, rectSize, rectSize, rectSize * 2)];
      rects := rects + [Rect(rectSize, rectSize, rectSize * 2, rectSize * 2)];
    }

    /** Highlight cell `p`. */
    method SetPosition(p: int)
      modifies this`position
      ensures position == p
    {
      position := p;
    }

    /**
     * Start a spin with lucky number `luck` (the random draw): record it and
     * return the animator request, from the current start to `Target(luck)`.
     * There is no guard against a spin already running.
     */
    method StartAnimation(luck: int) returns (request: Request)
      requires Valid() && 0 <= luck < RingSize
      modifies this`luckNum
      ensures Valid() && luckNum == luck
      ensures request == Animate(startPosition, Target(luck))
      ensures request.from < request.to
    {
      luckNum := luck;
      request := Animate(startPosition, RepeatCount * 8 + luckNum);
      SpinMovesForward(startPosition, luck);
    }

    /** The animator delivered value `v`: highlight `v % 8`. */
    method OnAnimationUpdate(v: int)
      modifies this`position
      ensures position == Highlight(v)
      ensures 0 <= v ==> 0 <= position < RingSize
    {
      SetPosition(JavaInt.Rem(v, 8));
    }

    /** The animator finished: the next spin starts at the latest lucky number. */
    method OnAnimationEnd()
      requires Valid()
      modifies this`startPosition
      ensures Valid() && startPosition == luckNum
    {
      startPosition := luckNum;
    }

    /**
     * One spin left to run to its end: start it with `luck`, feed it the
     * animator's values `frames`, then complete it. Every value highlights
     * a ring cell, the spin stops on `luck` and the next one starts there.
     */
    method RunSpin(luck: int, frames: seq<int>) returns (highlights: seq<int>)
      requires Valid() && 0 <= luck < RingSize
      requires IsAnimation(frames, startPosition, Target(luck))
      modifies this
      ensures Valid()
      ensures |highlights| == |frames|
      ensures forall k :: 0 <= k < |frames| ==>
                highlights[k] == Highlight(frames[k]) && 0 <= highlights[k] < RingSize
      ensures luckNum == luck && position == luck && startPosition == luck
      ensures rects == old(rects) && width == old(width) && height == old(height)
      ensures clickGoFlag == old(clickGoFlag) && paintColor == old(paintColor)
    {
      var request := StartAnimation(luck);
      highlights := [];
      var k := 0;
      while k < |frames|
        invariant 0 <= k <= |frames|
        invariant Valid() && luckNum == luck && startPosition == old(startPosition)
        invariant rects == old(rects) && width == old(width) && height == old(height)
        invariant clickGoFlag == old(clickGoFlag) && paintColor == old(paintColor)
        invariant |highlights| == k
        invariant forall j :: 0 <= j < k ==>
                    highlights[j] == Highlight(frames[j]) && 0 <= highlights[j] < RingSize
        invariant k > 0 ==> position == Highlight(frames[k - 1])
      {
        OnAnimationUpdate(frames[k]);
        highlights := highlights + [position];
        k := k + 1;
      }
      OnAnimationEnd();
    }

    /**
     * A touch event. A press arms the flag exactly when it lands in the
     * centre cell and is consumed here; a release starts a spin (with the
     * random draw `luck`) exactly when the flag was armed and the release is
     * in the centre cell too, and disarms the flag; anything else is left
     * to the base view.
     */
    method OnTouchEvent(action: Action, x: real, y: real, luck: int) returns (consumed: bool, request: Request)
      requires Valid() && |rects| == CellCount && 0 <= luck < RingSize
      modifies this
      ensures Valid() && |rects| == CellCount
      ensures consumed <==> action == Down
      ensures action == Down ==> clickGoFlag == Contains(rects[Centre], x, y)
      ensures action == Up ==> !clickGoFlag
      ensures action == OtherAction ==> clickGoFlag == old(clickGoFlag)
      ensures request != NoRequest <==>
                action == Up && old(clickGoFlag) && Contains(rects[Centre], x, y)
      ensures request != NoRequest ==> request == Animate(startPosition, Target(luck)) && luckNum == luck
      ensures request == NoRequest ==> luckNum == old(luckNum)
      ensures rects == old(rects) && width == old(width) && height == old(height)
      ensures position == old(position) && startPosition == old(startPosition)
      ensures paintColor == old(paintColor)
    {
      request := NoRequest;
      if action == Down {
        if Contains(rects[Centre], x, y) {
          clickGoFlag := true;
        } else {
          clickGoFlag := false;
        }
        return true, request;
      }
      if action == Up {
        if clickGoFlag {
          if Contains(rects[Centre], x, y) {
            request := StartAnimation(luck);
          }
          clickGoFlag := false;
        }
      }
      consumed := false;
    }

    /**
     * A press at (x0, y0) followed by a release at (x1, y1) starts a spin
     * exactly when both points are in the centre cell.
     */
    method Tap(x0: real, y0: real, x1: real, y1: real, luck: int) returns (request: Request)
      requires Valid() && |rects| == CellCount && 0 <= luck < RingSize
      modifies this
      ensures Valid() && !clickGoFlag && rects == old(rects)
      ensures request != NoRequest <==>
                Contains(rects[Centre], x0, y0) && Contains(rects[Centre], x1, y1)
      ensures request != NoRequest ==> request == Animate(old(startPosition), Target(luck))
      ensures request != NoRequest ==> luckNum == luck
      ensures request == NoRequest ==> luckNum == old(luckNum)
      ensures width == old(width) && height == old(height) && position == old(position)
      ensures startPosition == old(startPosition) && paintColor == old(paintColor)
    {
      var consumed;
      consumed, request := OnTouchEvent(Down, x0, y0, luck);
      consumed, request := OnTouchEvent(Up, x1, y1, luck);
    }

    /**
     * Paint the cells, then their labels. Each cell gets `Fill`; the labels
     * are drawn in the colour the paint was left with, which is the centre
     * cell's white, except "Go", drawn in red.
     */
    method OnDraw() returns (fills: seq<Color>, labels: seq<string>, textColors: seq<Color>)
      requires Valid()
      modifies this`paintColor
      ensures |fills| == |rects| && |labels| == |rects| && |textColors| == |rects|
      ensures forall i :: 0 <= i < |rects| ==>
                fills[i] == Fill(i, position) && labels[i] == Label(i) &&
                textColors[i] == (if i == Centre then Red else White)
      ensures paintColor == if rects == [] then old(paintColor) else Red
    {
      fills := [];
      var i := 0;
      while i < |rects|
        invariant 0 <= i <= |rects| && |fills| == i
        invariant forall j :: 0 <= j < i ==> fills[j] == Fill(j, position)
        invariant paintColor == if i == 0 then old(paintColor) else fills[i - 1]
      {
        if i == Centre {
          paintColor := White;
        } else {
          paintColor := ItemColor(i % 2);
          if position == i {
            paintColor := Blue;
          }
        }
        fills := fills + [paintColor];
        i := i + 1;
      }
      labels, textColors := [], [];
      i := 0;
      while i < |rects|
        invariant 0 <= i <= |rects| && |labels| == i && |textColors| == i
        invariant forall j :: 0 <= j < i ==>
                    labels[j] == Label(j) && textColors[j] == (if j == Centre then Red else White)
        invariant rects == [] ==> paintColor == old(paintColor)
        invariant rects != [] ==> paintColor == if i > Centre then Red else White
      {
        if i == Centre {
          paintColor := Red;
          labels := labels + [GoLabel];
        } else {
          labels := labels + [Numeral(i + 1)];
        }
        textColors := textColors + [paintColor];
        i := i + 1;
      }
    }
  }
}
