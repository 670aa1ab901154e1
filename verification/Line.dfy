/** The integer line algorithm, in every octant. */
module Line {

  datatype Pixel = Pixel(x: int, y: int)

  function Abs(x: int): int { if x < 0 then -x else x }

  function Max(x: int, y: int): int { if x < y then y else x }

  /** Twice the distance, along the minor axis and times the major extent, from the ideal line through the endpoints:
      a pixel is nearest to the line when this is at most the major extent. */
  function Deviation(p: Pixel, from: Pixel, to: Pixel): int {
    2 * (Abs(p.y - from.y) * Abs(to.x - from.x) - Abs(p.x - from.x) * Abs(to.y - from.y))
  }

  /** Of two pixels that are equally near, the one with fewer steps on the minor axis counts. */
  ghost predicate Near(p: Pixel, from: Pixel, to: Pixel) {
    var dx, dy, d := Abs(to.x - from.x), Abs(to.y - from.y), Deviation(p, from, to);
    if dx >= dy then -dx <= d && (d < dx || d == dx == 0) else -dy < d <= dy
  }

  /** From one pixel to the next the major axis moves one step towards the end, the minor axis one or none. */
  ghost predicate Steps(p: Pixel, q: Pixel, from: Pixel, to: Pixel) {
    var dx, dy, sx, sy := Abs(to.x - from.x), Abs(to.y - from.y), Sign(from.x, to.x), Sign(from.y, to.y);
    && (q.x == p.x + sx || (q.x == p.x && dx < dy))
    && (q.y == p.y + sy || (q.y == p.y && dy < dx))
  }

  function Sign(from: int, to: int): int { if from < to then 1 else -1 }

  /** A line from one end to the other: one pixel per step of the major axis, all of them nearest to the ideal line. */
  ghost predicate IsLine(s: seq<Pixel>, from: Pixel, to: Pixel) {
    && |s| == Max(Abs(to.x - from.x), Abs(to.y - from.y)) + 1
    && s[0] == from && s[|s| - 1] == to
    && IsPath(s, from, to)
  }

  ghost predicate IsPath(s: seq<Pixel>, from: Pixel, to: Pixel) {
    && (forall i {:trigger Near(s[i], from, to)} | 0 <= i < |s| :: Near(s[i], from, to))
    && (forall i {:trigger Steps(s[i], s[i + 1], from, to)} | 0 <= i < |s| - 1 :: Steps(s[i], s[i + 1], from, to))
  }

  lemma PathGrows(s: seq<Pixel>, p: Pixel, from: Pixel, to: Pixel)
    requires IsPath(s, from, to) && Near(p, from, to) && (s == [] || Steps(s[|s| - 1], p, from, to))
    ensures IsPath(s + [p], from, to)
  {
  }

  // ---- one step, on the deviation d = b * dx - a * dy after a steps in x and b in y ----

  /** The error term and the deviation stay in step, and the deviation stays within half the major extent, its upper
      or lower bound excluded. */
  ghost predicate Balanced(dx: int, dy: int, d: int) {
    && 0 <= dx && 0 <= dy && (dx == dy ==> d == 0)
    && if dx >= dy then -dx <= 2 * d && (2 * d < dx || d == dx == 0) else -dy < 2 * d <= dy
  }

  lemma StepBalanced(dx: int, dy: int, d: int)
    requires Balanced(dx, dy, d) && (dx > 0 || dy > 0)
    ensures var e2 := 2 * (dx - dy + d);
            var x, y := e2 > -dy, e2 < dx;
            && (dx >= dy ==> x) && (dy >= dx ==> y)
            && Balanced(dx, dy, d - (if x then dy else 0) + (if y then dx else 0))
  {
  }

  lemma Ordered(a: int, b: int, c: int)
    requires 0 <= c
    ensures a <= b ==> a * c <= b * c
    ensures a < b ==> a * c + c <= b * c
  {
    if a < b {
      var n := b - a - 1;
      assert b * c == (a + 1 + n) * c == a * c + c + n * c;
      NonNegative(n, c);
    }
  }

  lemma NonNegative(a: int, b: int)
    requires 0 <= a && 0 <= b
    ensures 0 <= a * b
  {
  }

  /** `n` times `k`, by addition. */
  ghost function Times(n: nat, k: int): int {
    if n == 0 then 0 else Times(n - 1, k) + k
  }

  lemma {:induction false} TimesIsProduct(n: nat, k: int)
    ensures Times(n, k) == n * k
  {
    if n > 0 {
      TimesIsProduct(n - 1, k);
    }
  }

  /** Inside the major extent, the deviation keeps the minor axis inside its own extent, and ends both together. */
  lemma MinorInside(a: int, b: int, dx: int, dy: int)
    requires 0 <= a <= dx && 0 < dx && 0 <= b && 0 <= dy && -dx <= 2 * (b * dx - a * dy) <= dx
    ensures b <= dy && (a == dx ==> b == dy)
  {
    Ordered(a, dx, dy);
    Ordered(dy, b, dx);
    Ordered(b, dy, dx);
  }

  /** The same with the axes exchanged. */
  lemma BothInside(a: nat, b: nat, dx: int, dy: int, d: int)
    requires Max(dx, dy) > 0 && Balanced(dx, dy, d) && d == Times(b, dx) - Times(a, dy)
    requires if dx >= dy then a <= dx else b <= dy
    ensures a <= dx && b <= dy
    ensures (if dx >= dy then a == dx else b == dy) <==> a == dx && b == dy
  {
    TimesIsProduct(b, dx);
    TimesIsProduct(a, dy);
    if dx >= dy {
      MinorInside(a, b, dx, dy);
    } else {
      MinorInside(b, a, dy, dx);
    }
  }

  /** `n` steps from one coordinate towards another. */
  function Toward(from: int, to: int, n: nat): int {
    if from < to then from + n else from - n
  }

  /** The state of the loop: `p` is the pixel after `a` steps in x and `b` in y. */
  ghost predicate Reached(from: Pixel, to: Pixel, p: Pixel, err: int, a: nat, b: nat) {
    var dx, dy, d := Abs(to.x - from.x), Abs(to.y - from.y),
        Times(b, Abs(to.x - from.x)) - Times(a, Abs(to.y - from.y));
    && p == Pixel(Toward(from.x, to.x, a), Toward(from.y, to.y, b))
    && a <= dx && b <= dy && Balanced(dx, dy, d) && err == dx - dy + d
  }

  lemma ReachedNear(from: Pixel, to: Pixel, p: Pixel, err: int, a: nat, b: nat)
    requires Reached(from, to, p, err, a, b)
    ensures Near(p, from, to)
  {
    TimesIsProduct(b, Abs(to.x - from.x));
    TimesIsProduct(a, Abs(to.y - from.y));
    assert Abs(p.x - from.x) == a && Abs(p.y - from.y) == b;
  }

  lemma EndReached(from: Pixel, to: Pixel, p: Pixel, a: nat, b: nat)
    requires p == Pixel(Toward(from.x, to.x, a), Toward(from.y, to.y, b))
    requires a <= Abs(to.x - from.x) && b <= Abs(to.y - from.y)
    ensures p == to <==> a == Abs(to.x - from.x) && b == Abs(to.y - from.y)
  {
  }

  lemma PathReaches(s: seq<Pixel>, from: Pixel, to: Pixel, p: Pixel, err: int, a: nat, b: nat)
    requires Reached(from, to, p, err, a, b) && IsPath(s, from, to) && (s == [] || Steps(s[|s| - 1], p, from, to))
    ensures IsPath(s + [p], from, to)
    ensures p == to <==> a == Abs(to.x - from.x) && b == Abs(to.y - from.y)
  {
    ReachedNear(from, to, p, err, a, b);
    EndReached(from, to, p, a, b);
    PathGrows(s, p, from, to);
  }

  /** The pixel and the error term after one turn of the loop. */
  function NextPixel(p: Pixel, err: int, from: Pixel, to: Pixel): Pixel {
    Pixel(if 2 * err > -Abs(to.y - from.y) then p.x + Sign(from.x, to.x) else p.x,
          if 2 * err < Abs(to.x - from.x) then p.y + Sign(from.y, to.y) else p.y)
  }

  function NextError(err: int, dx: int, dy: int): int {
    err - (if 2 * err > -dy then dy else 0) + (if 2 * err < dx then dx else 0)
  }

  /** One turn, in numbers of steps. */
  lemma NextSteps(dx: int, dy: int, a: nat, b: nat, err: int) returns (a': nat, b': nat)
    requires a <= dx && b <= dy && !(a == dx && b == dy)
    requires Balanced(dx, dy, Times(b, dx) - Times(a, dy)) && err == dx - dy + Times(b, dx) - Times(a, dy)
    ensures a' == (if 2 * err > -dy then a + 1 else a) && b' == (if 2 * err < dx then b + 1 else b)
    ensures (dx >= dy ==> a' == a + 1) && (dy >= dx ==> b' == b + 1) && a' <= dx && b' <= dy
    ensures Balanced(dx, dy, Times(b', dx) - Times(a', dy))
    ensures NextError(err, dx, dy) == dx - dy + Times(b', dx) - Times(a', dy)
  {
    a' := if 2 * err > -dy then a + 1 else a;
    b' := if 2 * err < dx then b + 1 else b;
    TimesNext(a, dy);
    TimesNext(b, dx);
    StepBalanced(dx, dy, Times(b, dx) - Times(a, dy));
    BothInside(a, b, dx, dy, Times(b, dx) - Times(a, dy));
    BothInside(a', b', dx, dy, Times(b', dx) - Times(a', dy));
  }

  lemma TimesNext(n: nat, k: int)
    ensures Times(n + 1, k) == Times(n, k) + k
  {
  }

  lemma NextReached(from: Pixel, to: Pixel, p: Pixel, err: int, a: nat, b: nat) returns (a': nat, b': nat)
    requires Reached(from, to, p, err, a, b) && p != to
    ensures var dx, dy, q := Abs(to.x - from.x), Abs(to.y - from.y), NextPixel(p, err, from, to);
            && Reached(from, to, q, NextError(err, dx, dy), a', b') && Steps(p, q, from, to)
            && (if dx >= dy then a' == a + 1 else b' == b + 1)
  {
    EndReached(from, to, p, a, b);
    a', b' := NextSteps(Abs(to.x - from.x), Abs(to.y - from.y), a, b, err);
  }

  /** The two conditional steps of the loop body. */
  method Move(x: int, y: int, e: int, dx: int, dy: int, sx: int, sy: int, ghost from: Pixel, ghost to: Pixel)
    returns (x0: int, y0: int, err: int)
    requires dx == Abs(to.x - from.x) && dy == Abs(to.y - from.y) && sx == Sign(from.x, to.x)
             && sy == Sign(from.y, to.y)
    ensures Pixel(x0, y0) == NextPixel(Pixel(x, y), e, from, to) && err == NextError(e, dx, dy)
  {
    x0, y0, err := x, y, e;
    var e2 := 2 * err;
    if e2 > -dy {
      err := err - dy;
      x0 := x0 + sx;
    }
    if e2 < dx {
      err := err + dx;
      y0 := y0 + sy;
    }
  }

  /** `draw_line`; the pixels in the order they are drawn. */
  method DrawLine(from: Pixel, to: Pixel) returns (drawn: seq<Pixel>)
    ensures IsLine(drawn, from, to)
  {
    var dx, dy := to.x - from.x, to.y - from.y;
    if dx < 0 {
      dx := -dx;
    }
    if dy < 0 {
      dy := -dy;
    }
    var sx := if from.x < to.x then 1 else -1;
    var sy := if from.y < to.y then 1 else -1;
    drawn := DrawLoop(from, to, dx, dy, sx, sy);
  }

  method DrawLoop(from: Pixel, to: Pixel, dx: int, dy: int, sx: int, sy: int) returns (drawn: seq<Pixel>)
    requires dx == Abs(to.x - from.x) && dy == Abs(to.y - from.y) && sx == Sign(from.x, to.x)
             && sy == Sign(from.y, to.y)
    ensures IsLine(drawn, from, to)
  {
    var x0, y0, err := from.x, from.y, dx - dy;
    ghost var a: nat, b: nat := 0, 0;
    drawn := [];
    while true
      invariant Reached(from, to, Pixel(x0, y0), err, a, b)
      invariant IsPath(drawn, from, to) && |drawn| == (if dx >= dy then a else b)
      invariant if drawn == [] then Pixel(x0, y0) == from
                else drawn[0] == from && Steps(drawn[|drawn| - 1], Pixel(x0, y0), from, to)
      decreases if dx >= dy then dx - a else dy - b
    {
      ghost var p := Pixel(x0, y0);
      PathReaches(drawn, from, to, p, err, a, b);
      drawn := drawn + [Pixel(x0, y0)];
      if x0 == to.x && y0 == to.y {
        break;
      }
      a, b := NextReached(from, to, p, err, a, b);
      x0, y0, err := Move(x0, y0, err, dx, dy, sx, sy, from, to);
    }
  }

  // ---- there is only one such line ----

  /** A pixel that has not stepped back from the start. */
  predicate Ahead(p: Pixel, from: Pixel, to: Pixel) {
    0 <= (p.x - from.x) * Sign(from.x, to.x) && 0 <= (p.y - from.y) * Sign(from.y, to.y)
  }

  /** From one pixel there is one way on. */
  lemma OneWay(p: Pixel, q: Pixel, r: Pixel, from: Pixel, to: Pixel)
    requires Ahead(p, from, to) && Steps(p, q, from, to) && Steps(p, r, from, to)
    requires Near(q, from, to) && Near(r, from, to) && from != to
    ensures q == r && Ahead(q, from, to)
  {
    var dx, dy := Abs(to.x - from.x), Abs(to.y - from.y);
    Apart(Abs(q.y - from.y), Abs(r.y - from.y), dx);
    Apart(Abs(q.x - from.x), Abs(r.x - from.x), dy);
  }

  lemma Apart(a: int, b: int, k: int)
    ensures a == b + 1 ==> a * k == b * k + k
    ensures b == a + 1 ==> b * k == a * k + k
  {
  }

  /** The pixels of a line are determined by its ends. */
  lemma {:induction false} LineIsUnique(s: seq<Pixel>, t: seq<Pixel>, from: Pixel, to: Pixel)
    requires IsLine(s, from, to) && IsLine(t, from, to)
    ensures s == t
  {
    if from != to {
      var i := 0;
      while i < |s| - 1
        invariant 0 <= i < |s| && s[..i + 1] == t[..i + 1] && Ahead(s[i], from, to)
      {
        assert s[i] == s[..i + 1][i] == t[..i + 1][i] == t[i];
        assert Steps(s[i], s[i + 1], from, to) && Steps(t[i], t[i + 1], from, to);
        OneWay(s[i], s[i + 1], t[i + 1], from, to);
        assert s[..i + 2] == s[..i + 1] + [s[i + 1]] && t[..i + 2] == t[..i + 1] + [t[i + 1]];
        i := i + 1;
      }
    }
  }
}
