/** The angle arithmetic of the sketch's `draw` loop: JavaScript's `%` on
    numbers, the normalisation of the view angle into one turn, the segment
    an angle falls in, the auto-rotation step and the drag step. Angles are
    reals; `turn` stands for the full turn `2 * Math.PI`. */
module Angles {

  /** `Math.trunc`: the integer part, rounding toward zero. */
  function Trunc(r: real): int
  {
    if r >= 0.0 then r.Floor else -((-r).Floor)
  }

  lemma TruncBounds(r: real)
    ensures r >= 0.0 ==> Trunc(r) as real <= r < Trunc(r) as real + 1.0
    ensures r < 0.0 ==> Trunc(r) as real - 1.0 < r <= Trunc(r) as real
  {
  }

  /** Multiplying by a positive real keeps a strict order. */
  lemma MulLess(m: real, x: real, y: real)
    requires m > 0.0 && x < y
    ensures m * x < m * y
  {
    assert m * y - m * x == m * (y - x);
  }

  /** Multiplying by a positive real keeps a weak order. */
  lemma MulAtMost(m: real, x: real, y: real)
    requires m > 0.0 && x <= y
    ensures m * x <= m * y
  {
    if x < y { MulLess(m, x, y); }
  }

  /** Comparing a quotient with `c` is comparing the dividend with `c * w`. */
  lemma DivCompare(a: real, w: real, c: real)
    requires w > 0.0
    ensures c <= a / w <==> c * w <= a
    ensures a / w < c <==> a < c * w
    ensures a / w <= c <==> a <= c * w
    ensures c < a / w <==> c * w < a
  {
    assert w * (a / w) == a;
    if c <= a / w { MulAtMost(w, c, a / w); } else { MulLess(w, a / w, c); }
  }

  /** A quotient between `c` and `c + 1` puts the dividend between `m * c`
      and `m * c + m`. */
  lemma BetweenMultiples(a: real, m: real, c: int)
    requires m > 0.0 && c as real <= a / m < c as real + 1.0
    ensures m * c as real <= a < m * c as real + m
  {
    DivCompare(a, m, c as real);
    DivCompare(a, m, c as real + 1.0);
    assert (c as real + 1.0) * m == c as real * m + m;
  }

  /** A quotient between `c - 1` and `c` puts the dividend between
      `m * c - m` and `m * c`. */
  lemma BetweenMultiplesBelow(a: real, m: real, c: int)
    requires m > 0.0 && c as real - 1.0 < a / m <= c as real
    ensures m * c as real - m < a <= m * c as real
  {
    DivCompare(a, m, c as real);
    DivCompare(a, m, c as real - 1.0);
    assert (c as real - 1.0) * m == c as real * m - m;
  }

  /** `m * t` lies within one `m` of `a`, on the side given by rounding down
      (`Floor`) or toward zero (`Trunc`). */
  lemma QuotientBounds(a: real, m: real)
    requires m > 0.0
    ensures m * (a / m).Floor as real <= a < m * (a / m).Floor as real + m
    ensures a >= 0.0 ==> m * Trunc(a / m) as real <= a < m * Trunc(a / m) as real + m
    ensures a < 0.0 ==> m * Trunc(a / m) as real - m < a <= m * Trunc(a / m) as real
  {
    BetweenMultiples(a, m, (a / m).Floor);
    DivCompare(a, m, 0.0);
    TruncBounds(a / m);
    if a >= 0.0 {
      BetweenMultiples(a, m, Trunc(a / m));
    } else {
      BetweenMultiplesBelow(a, m, Trunc(a / m));
    }
  }

  /** JavaScript `a % m` for a positive `m`: the remainder of the truncating
      division, which takes the sign of `a`. */
  function JsRem(a: real, m: real): real
    requires m > 0.0
  {
    a - m * Trunc(a / m) as real
  }

  lemma JsRemBounds(a: real, m: real)
    requires m > 0.0
    ensures -m < JsRem(a, m) < m
    ensures a >= 0.0 ==> JsRem(a, m) >= 0.0
    ensures a < 0.0 ==> JsRem(a, m) <= 0.0
  {
    QuotientBounds(a, m);
  }

  /** Reference definition: the mathematical residue of `a` modulo `m`, the
      unique value of `[0, m)` that differs from `a` by a multiple of `m`. */
  function FloorMod(a: real, m: real): (r: real)
    requires m > 0.0
    ensures 0.0 <= r < m
  {
    QuotientBounds(a, m);
    a - m * (a / m).Floor as real
  }

  /** A value of `[0, m)` that differs from `a` by a multiple of `m` is the
      residue of `a`. */
  lemma ResidueUnique(a: real, m: real, q: int, r: real)
    requires m > 0.0
    requires 0.0 <= r < m && a == m * q as real + r
    ensures FloorMod(a, m) == r
  {
    DivCompare(a, m, q as real);
    DivCompare(a, m, q as real + 1.0);
    assert (q as real + 1.0) * m == q as real * m + m;
    assert (a / m).Floor == q;
  }

  /** The view angle brought into one turn:
      `(angle % turn + turn) % turn`. */
  function Normalize(angle: real, turn: real): (r: real)
    requires turn > 0.0
    ensures 0.0 <= r < turn
  {
    JsRemBounds(angle, turn);
    JsRemBounds(JsRem(angle, turn) + turn, turn);
    JsRem(JsRem(angle, turn) + turn, turn)
  }

  /** The double remainder is the mathematical residue, for negative angles
      as well as positive ones. */
  lemma NormalizeIsFloorMod(angle: real, turn: real)
    requires turn > 0.0
    ensures Normalize(angle, turn) == FloorMod(angle, turn)
  {
    JsRemBounds(angle, turn);
    JsRemBounds(JsRem(angle, turn) + turn, turn);
    var k1 := Trunc(angle / turn);
    var r1 := JsRem(angle, turn);
    assert r1 == angle - turn * k1 as real;
    var k2 := Trunc((r1 + turn) / turn);
    var r2 := JsRem(r1 + turn, turn);
    assert r2 == r1 + turn - turn * k2 as real;
    assert angle == turn * (k1 + k2 - 1) as real + r2;
    ResidueUnique(angle, turn, k1 + k2 - 1, r2);
  }

  /** Adding whole multiples of `m` does not change the residue. */
  lemma FloorModPeriodic(a: real, m: real, k: int)
    requires m > 0.0
    ensures FloorMod(a + m * k as real, m) == FloorMod(a, m)
  {
    var f := (a / m).Floor;
    var r := FloorMod(a, m);
    assert a == m * f as real + r;
    assert m * (f + k) as real == m * f as real + m * k as real;
    ResidueUnique(a + m * k as real, m, f + k, r);
  }

  /** Whole turns do not change the normalised angle. */
  lemma NormalizePeriodic(angle: real, turn: real, k: int)
    requires turn > 0.0
    ensures Normalize(angle + turn * k as real, turn) == Normalize(angle, turn)
  {
    NormalizeIsFloorMod(angle, turn);
    NormalizeIsFloorMod(angle + turn * k as real, turn);
    FloorModPeriodic(angle, turn, k);
  }

  /** An angle already within one turn is left as it is. */
  lemma NormalizeKeepsTurn(angle: real, turn: real)
    requires turn > 0.0 && 0.0 <= angle < turn
    ensures Normalize(angle, turn) == angle
  {
    NormalizeIsFloorMod(angle, turn);
    ResidueUnique(angle, turn, 0, angle);
  }

  /** `segmentAngle`, the width of one segment: `segments` of them make up
      the turn. */
  function SegmentAngle(turn: real, segments: int): (w: real)
    requires turn > 0.0 && segments > 0
    ensures 0.0 < w <= turn && segments as real * w == turn
  {
    MulAtMost(turn / segments as real, 1.0, segments as real);
    turn / segments as real
  }

  /** A normalised angle divided by the segment width is below the number
      of segments. */
  lemma SegmentQuotientRange(n: real, turn: real, segments: int)
    requires turn > 0.0 && segments > 0 && 0.0 <= n < turn
    ensures 0.0 <= n / SegmentAngle(turn, segments) < segments as real
  {
    DivCompare(n, SegmentAngle(turn, segments), segments as real);
    DivCompare(n, SegmentAngle(turn, segments), 0.0);
  }

  /** `Math.floor(Normalize(angle) / segmentAngle) % segments`: the segment
      of the turn the view angle falls in. */
  function SegmentOf(angle: real, turn: real, segments: int): (s: int)
    requires turn > 0.0 && segments > 0
    ensures 0 <= s < segments
  {
    var n := Normalize(angle, turn);
    SegmentQuotientRange(n, turn, segments);
    (n / SegmentAngle(turn, segments)).Floor % segments
  }

  /** The floor of a quotient is `k` exactly when the dividend lies in
      `[k * w, (k + 1) * w)`. */
  lemma QuotientFloor(n: real, w: real, k: int)
    requires w > 0.0
    ensures (n / w).Floor == k <==> k as real * w <= n < (k + 1) as real * w
  {
    DivCompare(n, w, k as real);
    DivCompare(n, w, (k + 1) as real);
  }

  /** The trailing `% segments` never wraps: the segment is the floor of
      the normalised angle over the segment width. */
  lemma SegmentIsQuotientFloor(angle: real, turn: real, segments: int)
    requires turn > 0.0 && segments > 0
    ensures SegmentOf(angle, turn, segments) == (Normalize(angle, turn) / SegmentAngle(turn, segments)).Floor
  {
    SegmentQuotientRange(Normalize(angle, turn), turn, segments);
    SmallRemainder((Normalize(angle, turn) / SegmentAngle(turn, segments)).Floor, segments);
  }

  /** A number already below the modulus is its own remainder. */
  lemma SmallRemainder(f: int, n: int)
    requires 0 <= f < n
    ensures f % n == f
  {
  }

  /** The segment is the slot, among `segments` slots of width
      `segmentAngle`, of the normalised angle, which lies within them. */
  lemma SegmentIsSlot(angle: real, turn: real, segments: int)
    requires turn > 0.0 && segments > 0
    ensures 0.0 <= Normalize(angle, turn) < turn && segments as real * SegmentAngle(turn, segments) == turn
    ensures SegmentOf(angle, turn, segments) == (Normalize(angle, turn) / SegmentAngle(turn, segments)).Floor % segments
  {
  }

  /** A value `n` of `[0, total)`, with `total = segments * w`, has `slot`, the floor of `n / w`
      modulo `segments`, equal to `k` exactly when it lies in
      `[k * w, (k + 1) * w)`: the `% segments` never wraps. */
  lemma SlotFloor(n: real, w: real, segments: int, total: real, slot: int, k: int)
    requires w > 0.0 && segments > 0 && 0 <= k < segments && segments as real * w == total
    requires 0.0 <= n < total && slot == (n / w).Floor % segments
    ensures slot == k <==> k as real * w <= n < (k + 1) as real * w
  {
    DivCompare(n, w, segments as real);
    DivCompare(n, w, 0.0);
    SmallRemainder((n / w).Floor, segments);
    QuotientFloor(n, w, k);
  }

  /** The angle lies in segment `k` exactly when its normalised value lies
      in `[k * segmentAngle, (k + 1) * segmentAngle)`. */
  lemma SegmentBounds(angle: real, turn: real, segments: int, k: int)
    requires turn > 0.0 && segments > 0 && 0 <= k < segments
    ensures SegmentOf(angle, turn, segments) == k <==>
      (k as real * SegmentAngle(turn, segments) <= Normalize(angle, turn)
       && Normalize(angle, turn) < (k + 1) as real * SegmentAngle(turn, segments))
  {
    SegmentIsSlot(angle, turn, segments);
    SlotFloor(Normalize(angle, turn), SegmentAngle(turn, segments), segments, turn, SegmentOf(angle, turn, segments), k);
  }

  /** Normalising twice is normalising once. */
  lemma NormalizeIdempotent(angle: real, turn: real)
    requires turn > 0.0
    ensures Normalize(Normalize(angle, turn), turn) == Normalize(angle, turn)
  {
    NormalizeKeepsTurn(Normalize(angle, turn), turn);
  }

  /** Moving forward by at most `m` moves the residue by the same amount,
      less `m` when that passes the end. */
  lemma FloorModShift(a: real, m: real, d: real)
    requires m > 0.0 && 0.0 <= d <= m
    ensures FloorMod(a, m) + d < m ==> FloorMod(a + d, m) == FloorMod(a, m) + d
    ensures FloorMod(a, m) + d >= m ==> FloorMod(a + d, m) == FloorMod(a, m) + d - m
  {
    var f := (a / m).Floor;
    var r := FloorMod(a, m);
    assert a == m * f as real + r;
    if r + d < m {
      ResidueUnique(a + d, m, f, r + d);
    } else {
      assert m * (f + 1) as real == m * f as real + m;
      ResidueUnique(a + d, m, f + 1, r + d - m);
    }
  }

  /** Moving an angle forward by at most one turn moves its normalised
      value by the same amount, less one turn when that passes the end. */
  lemma NormalizeShift(angle: real, turn: real, d: real)
    requires turn > 0.0 && 0.0 <= d <= turn
    ensures Normalize(angle, turn) + d < turn ==> Normalize(angle + d, turn) == Normalize(angle, turn) + d
    ensures Normalize(angle, turn) + d >= turn ==> Normalize(angle + d, turn) == Normalize(angle, turn) + d - turn
  {
    NormalizeIsFloorMod(angle, turn);
    NormalizeIsFloorMod(angle + d, turn);
    FloorModShift(angle, turn, d);
  }

  /** Moving forward by one width adds one to the quotient by that width. */
  lemma QuotientNext(n: real, w: real)
    requires w > 0.0
    ensures (n + w) / w == n / w + 1.0
  {
    assert (n / w + 1.0) * w == n + w;
    DivCompare(n + w, w, n / w + 1.0);
  }

  /** Moving back by `segments` widths takes `segments` from the quotient. */
  lemma QuotientBack(n: real, w: real, segments: int, total: real)
    requires w > 0.0 && segments as real * w == total
    ensures (n - total) / w == n / w - segments as real
  {
    assert (n / w - segments as real) * w == n - total;
    DivCompare(n - total, w, n / w - segments as real);
  }

  /** Slots of width `w` over `[0, total)`, `total = segments * w`: moving a
      value forward by `w`, and back by the whole range when it passes the
      end, moves its slot `k` forward by one, from the last slot back to the
      first. */
  lemma SlotAdvance(n: real, n2: real, w: real, segments: int, total: real, k: int)
    requires w > 0.0 && segments > 0 && segments as real * w == total
    requires 0.0 <= n < total && k == (n / w).Floor % segments
    requires n + w < total ==> n2 == n + w
    requires n + w >= total ==> n2 == n + w - total
    ensures (n2 / w).Floor % segments == (k + 1) % segments
  {
    DivCompare(n, w, segments as real);
    DivCompare(n, w, 0.0);
    DivCompare(n + w, w, segments as real);
    SmallRemainder((n / w).Floor, segments);
    QuotientNext(n, w);
    if n + w < total {
      assert (n2 / w).Floor == k + 1;
      SmallRemainder(k + 1, segments);
    } else {
      QuotientBack(n + w, w, segments, total);
      assert (n2 / w).Floor == 0 && k == segments - 1;
      SmallRemainder(0, segments);
      WholeRemainder(segments);
    }
  }

  /** A positive number is its own multiple. */
  lemma WholeRemainder(n: int)
    requires n > 0
    ensures (n - 1 + 1) % n == 0
  {
  }

  /** Turning the view forward by one segment width moves the current
      segment forward by exactly one, from the last segment back to the
      first. */
  lemma SegmentStep(angle: real, turn: real, segments: int)
    requires turn > 0.0 && segments > 0
    ensures SegmentOf(angle + SegmentAngle(turn, segments), turn, segments)
         == (SegmentOf(angle, turn, segments) + 1) % segments
  {
    NormalizeShift(angle, turn, SegmentAngle(turn, segments));
    SegmentIsSlot(angle, turn, segments);
    SlotAdvance(Normalize(angle, turn), Normalize(angle + SegmentAngle(turn, segments), turn),
      SegmentAngle(turn, segments), segments, turn, SegmentOf(angle, turn, segments));
    SegmentIsSlot(angle + SegmentAngle(turn, segments), turn, segments);
  }

  /** One frame of auto-rotation: advance by `speed` and restart from zero
      once a full turn is reached. */
  function AutoAdvance(angle: real, speed: real, turn: real): (r: real)
    ensures 0.0 <= angle && 0.0 <= speed && 0.0 < turn ==> 0.0 <= r < turn
  {
    if angle + speed >= turn then 0.0 else angle + speed
  }

  /** The angle after `frames` frames of auto-rotation from zero. */
  function AutoAngle(frames: nat, speed: real, turn: real): real
  {
    if frames == 0 then 0.0 else AutoAdvance(AutoAngle(frames - 1, speed, turn), speed, turn)
  }

  /** Before the first wrap the angle grows linearly with the frame count. */
  lemma {:induction false} AutoRotateLinear(frames: nat, speed: real, turn: real)
    requires 0.0 <= speed && frames as real * speed < turn
    ensures AutoAngle(frames, speed, turn) == frames as real * speed
  {
    if frames > 0 {
      OneMoreFrame(frames, speed);
      AutoRotateLinear(frames - 1, speed, turn);
      AdvanceBelowTurn((frames - 1) as real * speed, speed, turn);
    }
  }

  /** An advance that stays below a full turn is a plain addition. */
  lemma AdvanceBelowTurn(angle: real, speed: real, turn: real)
    requires angle + speed < turn
    ensures AutoAdvance(angle, speed, turn) == angle + speed
  {
  }

  /** One more frame adds one more `speed`. */
  lemma OneMoreFrame(k: nat, speed: real)
    requires k > 0 && speed >= 0.0
    ensures k as real * speed == (k - 1) as real * speed + speed
    ensures (k - 1) as real * speed <= k as real * speed
  {
  }

  /** The first frame whose advance reaches a full turn resets the angle to zero. */
  lemma AutoRotateWraps(frames: nat, speed: real, turn: real)
    requires 0.0 <= speed && frames as real * speed < turn <= (frames + 1) as real * speed
    ensures AutoAngle(frames + 1, speed, turn) == 0.0
  {
    AutoRotateLinear(frames, speed, turn);
  }

  /** At 0.003 radians per frame with a turn of 2π (between 6.282 and 6.285),
      the view wraps back to zero on frame 2095. */
  lemma FullTurnFrames(turn: real)
    requires 6.282 < turn <= 6.285
    ensures AutoAngle(2094, 0.003, turn) == 6.282
    ensures AutoAngle(2095, 0.003, turn) == 0.0
  {
    AutoRotateLinear(2094, 0.003, turn);
    AutoRotateWraps(2094, 0.003, turn);
  }

  /** The drag sensitivity: radians per pixel of horizontal movement. */
  const DragFactor: real := 0.005

  /** One drag step: the angle grows by the pointer's horizontal movement
      since the last recorded position, times the sensitivity. */
  function Dragged(angle: real, lastX: real, x: real): (r: real)
    ensures x > lastX ==> r > angle
    ensures x < lastX ==> r < angle
    ensures x == lastX ==> r == angle
  {
    angle + (x - lastX) * DragFactor
  }

  /** The angle after a drag through the pointer positions `xs`, each step
      recording its position as the next step's starting point. */
  function DragPath(angle: real, lastX: real, xs: seq<real>): real
    decreases |xs|
  {
    if xs == [] then angle else DragPath(Dragged(angle, lastX, xs[0]), xs[0], xs[1..])
  }

  /** A drag's rotation depends only on where it starts and ends: the steps
      in between telescope. */
  lemma {:induction false} DragTelescopes(angle: real, lastX: real, xs: seq<real>)
    requires xs != []
    ensures DragPath(angle, lastX, xs) == angle + (xs[|xs| - 1] - lastX) * DragFactor
    decreases |xs|
  {
    if |xs| > 1 {
      DragTelescopes(Dragged(angle, lastX, xs[0]), xs[0], xs[1..]);
      assert xs[1..][|xs[1..]| - 1] == xs[|xs| - 1];
    }
  }
}
