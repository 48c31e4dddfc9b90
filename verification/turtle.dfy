/** The per-symbol turtle transition that both `LSystemRenderer::RenderStep`
    and the scan loop of `LSystemRenderer::Center` perform: a cursor
    (position and heading) plus a stack of saved states.

    The forward step `(x + length cos h, y + length sin h)` is computed with
    single-precision trigonometry; it is abstracted here as a caller-supplied
    function `adv(x, y, heading, length)`. Positions and headings are reals. */
module Turtle {
  import opened Base
  import opened Grammar

  /** New position after moving `length` from `(x, y)` along `heading`. */
  type Advance = (real, real, real, real) -> (real, real)

  /** `RendererState`: the position is stored in `int` fields, so a push
      truncates it; the heading is kept as is. */
  datatype Saved = Saved(x: int, y: int, rot: real)

  /** Live turtle state; the top of the stack is the last element. */
  datatype Cursor = Cursor(x: real, y: real, rot: real, stack: seq<Saved>)

  /** A line handed to the drawing primitive. */
  datatype Segment = Segment(x1: real, y1: real, x2: real, y2: real)

  /** Step length and rotation increment (degrees). */
  datatype Pen = Pen(length: real, rotate: real)

  /** A cursor after some steps, with the lines drawn on the way. */
  datatype Moved = Moved(cursor: Cursor, drawn: seq<Segment>)

  /** `fmodf(a, 360)`: the remainder keeps the sign of the dividend (C's
      truncated remainder, not Dafny's Euclidean one). */
  function FmodDegrees(a: real): (r: real)
    ensures -360.0 < r < 360.0
    ensures a >= 0.0 ==> r >= 0.0
    ensures a <= 0.0 ==> r <= 0.0
    // a whole number of turns is removed
    ensures Whole((a - r) / 360.0)
    ensures -360.0 < a < 360.0 ==> r == a
  {
    a - 360.0 * Trunc(a / 360.0) as real
  }

  /** Change in stack depth caused by one action. */
  function Delta(a: Action): int {
    match a
    case PushState => 1
    case PopState => -1
    case _ => 0
  }

  /** The action switch of `RenderStep`. A pop needs a non-empty stack:
      `std::stack::top` on an empty stack is undefined. */
  function RenderStep(adv: Advance, pen: Pen, c: Cursor, a: Action): (m: Moved)
    requires a == PopState ==> |c.stack| > 0
    ensures |m.cursor.stack| == |c.stack| + Delta(a)
    // moving changes the position only, to the advanced one
    ensures (a == MoveForward || a == DrawForward) ==>
      var p := adv(c.x, c.y, c.rot, pen.length);
      m.cursor == c.(x := p.0, y := p.1)
    // exactly one line per draw, from the old to the new position
    ensures a == DrawForward ==> m.drawn == [Segment(c.x, c.y, m.cursor.x, m.cursor.y)]
    ensures a != DrawForward ==> m.drawn == []
    // turning changes the heading only, keeps it below a full turn, and
    // agrees with the exact sum or difference up to whole turns
    ensures (a == RotateCW || a == RotateCCW) ==>
      && m.cursor == c.(rot := m.cursor.rot)
      && -360.0 < m.cursor.rot < 360.0
    ensures a == RotateCW ==> Whole((c.rot + pen.rotate - m.cursor.rot) / 360.0)
    ensures a == RotateCCW ==> Whole((c.rot - pen.rotate - m.cursor.rot) / 360.0)
    // the new heading keeps the sign of the exact sum or difference
    ensures a == RotateCW ==>
      && (c.rot + pen.rotate >= 0.0 ==> m.cursor.rot >= 0.0)
      && (c.rot + pen.rotate <= 0.0 ==> m.cursor.rot <= 0.0)
    ensures a == RotateCCW ==>
      && (c.rot - pen.rotate >= 0.0 ==> m.cursor.rot >= 0.0)
      && (c.rot - pen.rotate <= 0.0 ==> m.cursor.rot <= 0.0)
    ensures a == NoAction ==> m.cursor == c
    // a push saves the truncated position without moving; a pop restores the top
    ensures a == PushState ==> m.cursor.stack[..|c.stack|] == c.stack && m.cursor == c.(stack := m.cursor.stack)
    ensures a == PushState ==> m.cursor.stack[|c.stack|] == Saved(Trunc(c.x), Trunc(c.y), c.rot)
    ensures a == PopState ==>
      var top := c.stack[|c.stack| - 1];
      m.cursor == Cursor(top.x as real, top.y as real, top.rot, c.stack[..|c.stack| - 1])
  {
    var next := adv(c.x, c.y, c.rot, pen.length);
    match a
    case DrawForward => Moved(c.(x := next.0, y := next.1), [Segment(c.x, c.y, next.0, next.1)])
    case MoveForward => Moved(c.(x := next.0, y := next.1), [])
    case RotateCW => Moved(c.(rot := FmodDegrees(c.rot + pen.rotate)), [])
    case RotateCCW => Moved(c.(rot := FmodDegrees(c.rot - pen.rotate)), [])
    case PushState => Moved(c.(stack := c.stack + [Saved(Trunc(c.x), Trunc(c.y), c.rot)]), [])
    case PopState =>
      var top := c.stack[|c.stack| - 1];
      Moved(Cursor(top.x as real, top.y as real, top.rot, c.stack[..|c.stack| - 1]), [])
    case NoAction => Moved(c, [])
  }

  /** The separate copy of the action switch in the scan loop of `Center`,
      which draws nothing. It visits exactly the cursor `RenderStep` does. */
  function ScanStep(adv: Advance, pen: Pen, c: Cursor, a: Action): (r: Cursor)
    requires a == PopState ==> |c.stack| > 0
    ensures r == RenderStep(adv, pen, c, a).cursor
  {
    var next := adv(c.x, c.y, c.rot, pen.length);
    match a
    case DrawForward => c.(x := next.0, y := next.1)
    case MoveForward => c.(x := next.0, y := next.1)
    case RotateCW => c.(rot := FmodDegrees(c.rot + pen.rotate))
    case RotateCCW => c.(rot := FmodDegrees(c.rot - pen.rotate))
    case PushState => c.(stack := c.stack + [Saved(Trunc(c.x), Trunc(c.y), c.rot)])
    case PopState =>
      var top := c.stack[|c.stack| - 1];
      Cursor(top.x as real, top.y as real, top.rot, c.stack[..|c.stack| - 1])
    case NoAction => c
  }

  /** A push followed by a pop restores the heading exactly, but the
      position only as truncated to integers; the position comes back
      unchanged exactly when it was already integral. */
  lemma PushPopRestores(adv: Advance, pen: Pen, c: Cursor)
    ensures var pushed := RenderStep(adv, pen, c, PushState).cursor;
      && RenderStep(adv, pen, pushed, PopState) == Moved(c.(x := Trunc(c.x) as real, y := Trunc(c.y) as real), [])
      && (RenderStep(adv, pen, pushed, PopState).cursor == c <==> c.x == Trunc(c.x) as real && c.y == Trunc(c.y) as real)
  {
    var pushed := RenderStep(adv, pen, c, PushState).cursor;
    assert pushed.stack[..|pushed.stack| - 1] == c.stack;
  }

  /** Stack depth after a symbol sequence, starting from depth `d`. */
  function Depth(d: int, s: seq<Constant>): int {
    if |s| == 0 then d else Depth(d, s[..|s| - 1]) + Delta(s[|s| - 1].action)
  }

  /** No pop in `s` meets an empty stack, starting from depth `d`. */
  predicate Balanced(d: int, s: seq<Constant>) {
    |s| == 0 ||
    (Balanced(d, s[..|s| - 1]) && (s[|s| - 1].action == PopState ==> Depth(d, s[..|s| - 1]) > 0))
  }

  /** Every prefix of a balanced sequence is balanced. */
  lemma {:induction false} BalancedPrefix(d: int, s: seq<Constant>, k: nat)
    requires Balanced(d, s) && k <= |s|
    ensures Balanced(d, s[..k])
    decreases |s|
  {
    if k < |s| {
      assert s[..|s| - 1][..k] == s[..k];
      BalancedPrefix(d, s[..|s| - 1], k);
    } else {
      assert s[..k] == s;
    }
  }

  /** Number of `DrawForward` symbols. */
  function Draws(s: seq<Constant>): nat {
    if |s| == 0 then 0 else Draws(s[..|s| - 1]) + (if s[|s| - 1].action == DrawForward then 1 else 0)
  }

  /** Interpreting a symbol sequence step by step from cursor `c`: the cursor
      reached and every line drawn, one per `DrawForward`, in order. */
  function Run(adv: Advance, pen: Pen, c: Cursor, s: seq<Constant>): (m: Moved)
    requires Balanced(|c.stack|, s)
    ensures |m.cursor.stack| == Depth(|c.stack|, s)
    ensures |m.drawn| == Draws(s)
    decreases |s|
  {
    if |s| == 0 then Moved(c, [])
    else
      var prev := Run(adv, pen, c, s[..|s| - 1]);
      var step := RenderStep(adv, pen, prev.cursor, s[|s| - 1].action);
      Moved(step.cursor, prev.drawn + step.drawn)
  }

  /** One more step: interpreting `s[..i + 1]` is interpreting `s[..i]` and
      then stepping `s[i]` from where that left off. */
  lemma RunStep(adv: Advance, pen: Pen, c: Cursor, s: seq<Constant>, i: nat)
    requires i < |s| && Balanced(|c.stack|, s[..i + 1])
    ensures Balanced(|c.stack|, s[..i])
    ensures s[i].action == PopState ==> |Run(adv, pen, c, s[..i]).cursor.stack| > 0
    ensures var prev := Run(adv, pen, c, s[..i]);
      var step := RenderStep(adv, pen, prev.cursor, s[i].action);
      Run(adv, pen, c, s[..i + 1]) == Moved(step.cursor, prev.drawn + step.drawn)
  {
    assert s[..i + 1][..i] == s[..i];
    assert s[..i + 1][i] == s[i];
  }

  /** Interpreting `s + t` is interpreting `t` from where `s` left off. */
  lemma {:induction false} RunAppend(adv: Advance, pen: Pen, c: Cursor, s: seq<Constant>, t: seq<Constant>)
    requires Balanced(|c.stack|, s + t)
    ensures Balanced(|c.stack|, s)
    ensures Balanced(|Run(adv, pen, c, s).cursor.stack|, t)
    ensures var first := Run(adv, pen, c, s);
      var second := Run(adv, pen, first.cursor, t);
      Run(adv, pen, c, s + t) == Moved(second.cursor, first.drawn + second.drawn)
    decreases |t|
  {
    BalancedPrefix(|c.stack|, s + t, |s|);
    assert (s + t)[..|s|] == s;
    if |t| == 0 {
      assert s + t == s;
    } else {
      var t' := t[..|t| - 1];
      assert (s + t)[..|s + t| - 1] == s + t';
      assert (s + t)[|s + t| - 1] == t[|t| - 1];
      RunAppend(adv, pen, c, s, t');
      var first := Run(adv, pen, c, s);
      DepthAppend(|c.stack|, s, t');
      assert Balanced(|first.cursor.stack|, t);
      var before := Run(adv, pen, first.cursor, t');
      var step := RenderStep(adv, pen, before.cursor, t[|t| - 1].action);
      assert Run(adv, pen, c, s + t') == Moved(before.cursor, first.drawn + before.drawn);
      assert Run(adv, pen, first.cursor, t) == Moved(step.cursor, before.drawn + step.drawn);
      assert Run(adv, pen, c, s + t) == Moved(step.cursor, (first.drawn + before.drawn) + step.drawn);
      AppendAssoc(first.drawn, before.drawn, step.drawn);
    }
  }

  lemma {:induction false} DepthAppend(d: int, s: seq<Constant>, t: seq<Constant>)
    ensures Depth(d, s + t) == Depth(Depth(d, s), t)
    decreases |t|
  {
    if |t| == 0 {
      assert s + t == s;
    } else {
      assert (s + t)[..|s + t| - 1] == s + t[..|t| - 1];
      DepthAppend(d, s, t[..|t| - 1]);
    }
  }
}
