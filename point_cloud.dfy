/** The point-cloud text parser of the sketch (`parsePointCloud`): header
    lines up to a line containing `end_header` are skipped, every later line
    is read as `x y z ...`, and each numeric line adds one white point to the
    flat `vertices` and `colors` buffers. */
module PointCloud {
  import opened Text

  datatype Option<T> = None | Some(value: T)

  /** A point's position in render space; its colour is always opaque white. */
  datatype Point = Point(x: real, y: real, z: real)

  /** The `scale, xAdd, yAdd, zAdd` arguments of `parsePointCloud`. */
  datatype Placement = Placement(scale: real, xAdd: real, yAdd: real, zAdd: real)

  /** The sentinel that ends the header. */
  const EndHeader: string := "end_header"

  /** The colour component pushed for every point. */
  const White: real := 1.0

  /** `parseFloat(tokens[k])`, with None standing for NaN. A missing token is
      `undefined` in JavaScript, which `parseFloat` also turns into NaN. */
  function Field(tokens: seq<string>, k: nat, parseFloat: string -> Option<real>): (r: Option<real>)
    ensures k >= |tokens| ==> r.None?
  {
    if k < |tokens| then parseFloat(tokens[k]) else None
  }

  /** A coordinate scaled and offset into render space. */
  function Place(v: real, scale: real, add: real): real
  {
    v * scale + add
  }

  /** One data line: its first three space-separated tokens, the second one
      negated, scaled and offset; None when any of the three is NaN. */
  function ParseLine(line: string, pl: Placement, parseFloat: string -> Option<real>): (r: Option<Point>)
    ensures r.Some? ==> |Split(line, ' ')| >= 3
  {
    var tokens := Split(line, ' ');
    var x := Field(tokens, 0, parseFloat);
    var y := Field(tokens, 1, parseFloat);
    var z := Field(tokens, 2, parseFloat);
    if x.None? || y.None? || z.None? then None
    else Some(Point(Place(x.value, pl.scale, pl.xAdd), Place(-y.value, pl.scale, pl.yAdd), Place(z.value, pl.scale, pl.zAdd)))
  }

  /** The points a data line yields: its point, or none when it is malformed. */
  function LinePoints(line: string, pl: Placement, parseFloat: string -> Option<real>): (r: seq<Point>)
    ensures |r| <= 1
    ensures |r| == 1 <==> ParseLine(line, pl, parseFloat).Some?
  {
    match ParseLine(line, pl, parseFloat)
    case None => []
    case Some(p) => [p]
  }

  /** What one line after the header contributes: nothing for a further
      sentinel line or a malformed line, otherwise its point. */
  function Accept(line: string, pl: Placement, parseFloat: string -> Option<real>): (r: seq<Point>)
    ensures |r| <= 1
    ensures Includes(line, EndHeader) ==> r == []
    ensures |r| == 1 <==> !Includes(line, EndHeader) && ParseLine(line, pl, parseFloat).Some?
  {
    if Includes(line, EndHeader) then [] else LinePoints(line, pl, parseFloat)
  }

  /** Reference definition of the data section's points: the accepted lines,
      in order. */
  function Body(lines: seq<string>, pl: Placement, parseFloat: string -> Option<real>): (r: seq<Point>)
    ensures forall i :: 0 <= i < |r| ==> exists j :: 0 <= j < |lines| && Accept(lines[j], pl, parseFloat) == [r[i]]
  {
    if lines == [] then []
    else Body(lines[..|lines| - 1], pl, parseFloat) + Accept(lines[|lines| - 1], pl, parseFloat)
  }

  /** Reference count: the number of data-section lines that yield a point. */
  function AcceptedCount(lines: seq<string>, pl: Placement, parseFloat: string -> Option<real>): nat
  {
    |set j | 0 <= j < |lines| && Accept(lines[j], pl, parseFloat) != []|
  }

  /** The count grows by one exactly when the appended line is accepted. */
  lemma AcceptedCountSnoc(lines: seq<string>, pl: Placement, parseFloat: string -> Option<real>)
    ensures lines == [] ==> AcceptedCount(lines, pl, parseFloat) == 0
    ensures lines != [] ==>
      AcceptedCount(lines, pl, parseFloat)
        == AcceptedCount(lines[..|lines| - 1], pl, parseFloat) + |Accept(lines[|lines| - 1], pl, parseFloat)|
  {
    var all := set j | 0 <= j < |lines| && Accept(lines[j], pl, parseFloat) != [];
    if lines == [] {
      assert all == {};
    } else {
      var init := lines[..|lines| - 1];
      var before := set j | 0 <= j < |init| && Accept(init[j], pl, parseFloat) != [];
      var here := if Accept(lines[|lines| - 1], pl, parseFloat) != [] then {|lines| - 1} else {};
      forall j | 0 <= j < |init|
        ensures init[j] == lines[j]
      {
      }
      assert all == before + here;
      assert before * here == {};
    }
  }

  /** The loop state of `parsePointCloud`: the `header` flag and the points
      pushed so far. */
  datatype ScanState = ScanState(header: bool, points: seq<Point>)

  /** One iteration of the loop over lines. */
  function Step(st: ScanState, line: string, pl: Placement, parseFloat: string -> Option<real>): (r: ScanState)
    ensures st.points <= r.points && |r.points| <= |st.points| + 1
    ensures Includes(line, EndHeader) || !st.header ==> !r.header
    ensures st.header ==> r.points == st.points
  {
    if Includes(line, EndHeader) then ScanState(false, st.points)
    else if st.header then st
    else ScanState(false, st.points + LinePoints(line, pl, parseFloat))
  }

  /** The loop state after visiting `lines` in order, starting from `st`. */
  function ScanFrom(st: ScanState, lines: seq<string>, pl: Placement, parseFloat: string -> Option<real>): (r: ScanState)
    ensures st.points <= r.points && |r.points| <= |st.points| + |lines|
    ensures !st.header ==> !r.header
  {
    if lines == [] then st
    else Step(ScanFrom(st, lines[..|lines| - 1], pl, parseFloat), lines[|lines| - 1], pl, parseFloat)
  }

  /** The state the loop starts in. */
  const Start: ScanState := ScanState(true, [])

  /** The points `parsePointCloud` appends for `data`: every element of the
      newline split but the last is visited. */
  function Cloud(data: string, pl: Placement, parseFloat: string -> Option<real>): (r: seq<Point>)
    ensures |r| < |Split(data, '\n')|
  {
    var lines := Split(data, '\n');
    ScanFrom(Start, lines[..|lines| - 1], pl, parseFloat).points
  }

  /** The flat `vertices` layout: x, y, z of each point in turn. */
  function Positions(ps: seq<Point>): (r: seq<real>)
    ensures |r| == 3 * |ps|
  {
    if ps == [] then []
    else
      var p := ps[|ps| - 1];
      Positions(ps[..|ps| - 1]) + [p.x, p.y, p.z]
  }

  /** Entries 3i, 3i+1 and 3i+2 of the flat layout are the coordinates of
      point i. */
  lemma {:induction false} PositionsAt(ps: seq<Point>, i: nat)
    requires i < |ps|
    ensures Positions(ps)[3 * i] == ps[i].x
    ensures Positions(ps)[3 * i + 1] == ps[i].y
    ensures Positions(ps)[3 * i + 2] == ps[i].z
    decreases |ps|
  {
    var init := ps[..|ps| - 1];
    if i < |init| {
      PositionsAt(init, i);
      assert ps[i] == init[i];
    }
  }

  /** The flat `colors` layout: three white components per point. */
  function Colors(ps: seq<Point>): (r: seq<real>)
    ensures |r| == 3 * |ps|
  {
    if ps == [] then [] else Colors(ps[..|ps| - 1]) + [White, White, White]
  }

  /** One more line is one more loop step. */
  lemma ScanFromSnoc(lines: seq<string>, i: nat, pl: Placement, parseFloat: string -> Option<real>)
    requires i < |lines|
    ensures ScanFrom(Start, lines[..i + 1], pl, parseFloat)
         == Step(ScanFrom(Start, lines[..i], pl, parseFloat), lines[i], pl, parseFloat)
  {
    assert lines[..i + 1][..i] == lines[..i];
  }

  /** The flat layout of a concatenation is the concatenation of the layouts. */
  lemma {:induction false} PositionsAppend(a: seq<Point>, b: seq<Point>)
    ensures Positions(a + b) == Positions(a) + Positions(b)
    decreases |b|
  {
    if b == [] {
      assert a + b == a;
    } else {
      var b' := b[..|b| - 1];
      assert (a + b)[..|a + b| - 1] == a + b';
      PositionsAppend(a, b');
    }
  }

  /** The colours of a concatenation are the concatenation of the colours. */
  lemma {:induction false} ColorsAppend(a: seq<Point>, b: seq<Point>)
    ensures Colors(a + b) == Colors(a) + Colors(b)
    decreases |b|
  {
    if b == [] {
      assert a + b == a;
    } else {
      var b' := b[..|b| - 1];
      assert (a + b)[..|a + b| - 1] == a + b';
      ColorsAppend(a, b');
    }
  }

  /** The two layouts of the same points run in lockstep: equal lengths, a
      multiple of three, and every colour component white. */
  lemma {:induction false} BuffersInStep(ps: seq<Point>)
    ensures |Positions(ps)| == |Colors(ps)|
    ensures |Colors(ps)| % 3 == 0
    ensures forall i :: 0 <= i < |Colors(ps)| ==> Colors(ps)[i] == White
    decreases |ps|
  {
    if ps != [] {
      var init := ps[..|ps| - 1];
      BuffersInStep(init);
      assert Colors(ps) == Colors(init) + [White, White, White];
    }
  }

  /** The visit of a sequence of lines can be split anywhere. */
  lemma {:induction false} ScanFromAppend(st: ScanState, a: seq<string>, b: seq<string>, pl: Placement, parseFloat: string -> Option<real>)
    ensures ScanFrom(st, a + b, pl, parseFloat) == ScanFrom(ScanFrom(st, a, pl, parseFloat), b, pl, parseFloat)
    decreases |b|
  {
    if b == [] {
      assert a + b == a;
    } else {
      var b' := b[..|b| - 1];
      assert (a + b)[..|a + b| - 1] == a + b';
      assert (a + b)[|a + b| - 1] == b[|b| - 1];
      ScanFromAppend(st, a, b', pl, parseFloat);
    }
  }

  /** While no sentinel has been seen, the loop stays in the header and
      pushes nothing. */
  lemma {:induction false} HeaderContributesNothing(lines: seq<string>, pl: Placement, parseFloat: string -> Option<real>)
    requires forall j :: 0 <= j < |lines| ==> !Includes(lines[j], EndHeader)
    ensures ScanFrom(Start, lines, pl, parseFloat) == Start
    decreases |lines|
  {
    if lines != [] {
      HeaderContributesNothing(lines[..|lines| - 1], pl, parseFloat);
    }
  }

  /** Once the header is over, the loop appends exactly the reference points. */
  lemma {:induction false} DataSectionIsBody(ps: seq<Point>, lines: seq<string>, pl: Placement, parseFloat: string -> Option<real>)
    ensures ScanFrom(ScanState(false, ps), lines, pl, parseFloat) == ScanState(false, ps + Body(lines, pl, parseFloat))
    decreases |lines|
  {
    if lines == [] {
      assert ps + [] == ps;
    } else {
      DataSectionIsBody(ps, lines[..|lines| - 1], pl, parseFloat);
      assert ps + Body(lines, pl, parseFloat)
          == ps + Body(lines[..|lines| - 1], pl, parseFloat) + Accept(lines[|lines| - 1], pl, parseFloat);
    }
  }

  /** Declarative reading of the loop: with `k` the first sentinel line,
      lines 0..k give nothing and the result is the reference points of the
      lines after `k`. (With no sentinel at all the loop never leaves the
      header and pushes nothing: HeaderContributesNothing.) */
  lemma ScanIsBodyAfterSentinel(lines: seq<string>, k: nat, pl: Placement, parseFloat: string -> Option<real>)
    requires k < |lines| && Includes(lines[k], EndHeader)
    requires forall j :: 0 <= j < k ==> !Includes(lines[j], EndHeader)
    ensures ScanFrom(Start, lines, pl, parseFloat) == ScanState(false, Body(lines[k + 1..], pl, parseFloat))
  {
    assert lines == lines[..k] + [lines[k]] + lines[k + 1..];
    ScanFromAppend(Start, lines[..k] + [lines[k]], lines[k + 1..], pl, parseFloat);
    HeaderContributesNothing(lines[..k], pl, parseFloat);
    assert (lines[..k] + [lines[k]])[..k] == lines[..k];
    assert ScanFrom(Start, lines[..k] + [lines[k]], pl, parseFloat) == ScanState(false, []);
    DataSectionIsBody([], lines[k + 1..], pl, parseFloat);
    assert [] + Body(lines[k + 1..], pl, parseFloat) == Body(lines[k + 1..], pl, parseFloat);
  }

  /** The reference points of a concatenation: input order is kept. */
  lemma {:induction false} BodyAppend(a: seq<string>, b: seq<string>, pl: Placement, parseFloat: string -> Option<real>)
    ensures Body(a + b, pl, parseFloat) == Body(a, pl, parseFloat) + Body(b, pl, parseFloat)
    decreases |b|
  {
    if b == [] {
      assert a + b == a;
    } else {
      var b' := b[..|b| - 1];
      assert (a + b)[..|a + b| - 1] == a + b';
      assert (a + b)[|a + b| - 1] == b[|b| - 1];
      BodyAppend(a, b', pl, parseFloat);
    }
  }

  /** The data section yields one point per accepted line, so at most one
      point per line, and one point per line exactly when every line is
      accepted. */
  lemma {:induction false} BodyLength(lines: seq<string>, pl: Placement, parseFloat: string -> Option<real>)
    ensures |Body(lines, pl, parseFloat)| == AcceptedCount(lines, pl, parseFloat)
    ensures |Body(lines, pl, parseFloat)| <= |lines|
    ensures |Body(lines, pl, parseFloat)| == |lines| <==> forall j :: 0 <= j < |lines| ==> |Accept(lines[j], pl, parseFloat)| == 1
    decreases |lines|
  {
    AcceptedCountSnoc(lines, pl, parseFloat);
    if lines != [] {
      var init := lines[..|lines| - 1];
      BodyLength(init, pl, parseFloat);
      if |Body(lines, pl, parseFloat)| == |lines| {
        forall j | 0 <= j < |lines| ensures |Accept(lines[j], pl, parseFloat)| == 1 {
          if j < |init| { assert lines[j] == init[j]; }
        }
      }
      if forall j :: 0 <= j < |lines| ==> |Accept(lines[j], pl, parseFloat)| == 1 {
        forall j | 0 <= j < |init| ensures |Accept(init[j], pl, parseFloat)| == 1 {
          assert init[j] == lines[j];
        }
      }
    }
  }

  /** A malformed data line (a non-numeric first, second or third token) is
      skipped: removing it changes neither the flag nor the points. */
  lemma MalformedLineSkipped(pre: seq<string>, bad: string, post: seq<string>, pl: Placement, parseFloat: string -> Option<real>)
    requires !Includes(bad, EndHeader) && ParseLine(bad, pl, parseFloat) == None
    ensures ScanFrom(Start, pre + [bad] + post, pl, parseFloat) == ScanFrom(Start, pre + post, pl, parseFloat)
  {
    ScanFromAppend(Start, pre + [bad], post, pl, parseFloat);
    ScanFromAppend(Start, pre, post, pl, parseFloat);
    assert (pre + [bad])[..|pre|] == pre;
    assert ScanFrom(Start, pre + [bad], pl, parseFloat) == ScanFrom(Start, pre, pl, parseFloat);
  }

  /** The last element of the newline split is never parsed: text after the
      final newline does not change the result. */
  lemma UnterminatedTailIgnored(t: string, tail: string, pl: Placement, parseFloat: string -> Option<real>)
    requires '\n' !in tail
    ensures Cloud(t + tail, pl, parseFloat) == Cloud(t, pl, parseFloat)
  {
    SplitExtendLast(t, tail, '\n');
  }

  /** A newline-terminated file made of header lines, the sentinel and data
      rows yields exactly the reference points of the data rows. */
  lemma DocumentCloud(header: seq<string>, rows: seq<string>, pl: Placement, parseFloat: string -> Option<real>)
    requires forall j :: 0 <= j < |header| ==> '\n' !in header[j] && !Includes(header[j], EndHeader)
    requires forall j :: 0 <= j < |rows| ==> '\n' !in rows[j]
    ensures Cloud(Join(header + [EndHeader] + rows + [""], '\n'), pl, parseFloat) == Body(rows, pl, parseFloat)
  {
    var lines := header + [EndHeader] + rows + [""];
    forall j | 0 <= j < |lines| ensures '\n' !in lines[j] {
      if j < |header| { assert lines[j] == header[j]; }
      else if j == |header| { assert lines[j] == EndHeader; }
      else if j < |header| + 1 + |rows| { assert lines[j] == rows[j - |header| - 1]; }
      else { assert lines[j] == ""; }
    }
    SplitJoin(lines, '\n');
    var visited := header + [EndHeader] + rows;
    assert lines[..|lines| - 1] == visited;
    assert Includes(EndHeader, EndHeader) by {
      IncludesOccurs(EndHeader, EndHeader);
      assert OccursAt(EndHeader, EndHeader, 0);
    }
    assert visited[|header| + 1..] == rows;
    ScanIsBodyAfterSentinel(visited, |header|, pl, parseFloat);
  }

  /** The per-point formula: a line whose first three tokens are the numbers
      `x`, `y`, `z` yields `(x*scale + xAdd, -y*scale + yAdd, z*scale + zAdd)`,
      whatever tokens follow. */
  lemma ParseLineFormula(line: string, x: real, y: real, z: real, pl: Placement, parseFloat: string -> Option<real>)
    requires |Split(line, ' ')| >= 3
    requires parseFloat(Split(line, ' ')[0]) == Some(x)
    requires parseFloat(Split(line, ' ')[1]) == Some(y)
    requires parseFloat(Split(line, ' ')[2]) == Some(z)
    ensures ParseLine(line, pl, parseFloat)
         == Some(Point(x * pl.scale + pl.xAdd, (-y) * pl.scale + pl.yAdd, z * pl.scale + pl.zAdd))
  {
    var r := ParseLine(line, pl, parseFloat);
    assert r.value.x == x * pl.scale + pl.xAdd;
    assert r.value.y == (-y) * pl.scale + pl.yAdd;
    assert r.value.z == z * pl.scale + pl.zAdd;
    assert r == Some(Point(r.value.x, r.value.y, r.value.z));
  }

  /** A line is rejected exactly when one of its first three fields is NaN,
      a missing field counting as NaN. */
  lemma ParseLineRejects(line: string, pl: Placement, parseFloat: string -> Option<real>)
    ensures ParseLine(line, pl, parseFloat).None? <==>
      var tokens := Split(line, ' ');
      |tokens| < 3 || parseFloat(tokens[0]).None? || parseFloat(tokens[1]).None? || parseFloat(tokens[2]).None?
  {
    var tokens := Split(line, ' ');
    if |tokens| >= 3 {
      assert Field(tokens, 0, parseFloat) == parseFloat(tokens[0]);
      assert Field(tokens, 1, parseFloat) == parseFloat(tokens[1]);
      assert Field(tokens, 2, parseFloat) == parseFloat(tokens[2]);
    } else {
      assert Field(tokens, 2, parseFloat).None?;
    }
  }

  /** Space-free tokens joined by spaces split back into themselves. */
  lemma TokensSplitBack(tokens: seq<string>, tx: string, ty: string, tz: string, extra: seq<string>)
    requires tokens == [tx, ty, tz] + extra
    requires ' ' !in tx && ' ' !in ty && ' ' !in tz
    requires forall j :: 0 <= j < |extra| ==> ' ' !in extra[j]
    ensures Split(Join(tokens, ' '), ' ') == tokens
  {
    forall j | 0 <= j < |tokens| ensures ' ' !in tokens[j] {
      if j >= 3 { assert tokens[j] == extra[j - 3]; }
    }
    SplitJoin(tokens, ' ');
  }

  /** Formatting and parsing agree: the line `tx ty tz extra...` whose first
      three tokens read as `x`, `y`, `z` yields the point of the formula,
      whatever tokens follow. */
  lemma LineRoundTrip(tx: string, ty: string, tz: string, extra: seq<string>, x: real, y: real, z: real,
                      pl: Placement, parseFloat: string -> Option<real>)
    requires ' ' !in tx && ' ' !in ty && ' ' !in tz
    requires forall j :: 0 <= j < |extra| ==> ' ' !in extra[j]
    requires parseFloat(tx) == Some(x) && parseFloat(ty) == Some(y) && parseFloat(tz) == Some(z)
    ensures ParseLine(Join([tx, ty, tz] + extra, ' '), pl, parseFloat)
         == Some(Point(x * pl.scale + pl.xAdd, (-y) * pl.scale + pl.yAdd, z * pl.scale + pl.zAdd))
  {
    var tokens := [tx, ty, tz] + extra;
    TokensSplitBack(tokens, tx, ty, tz, extra);
    ParseLineFormula(Join(tokens, ' '), x, y, z, pl, parseFloat);
  }

  /** The global `vertices` and `colors` buffers the renderer uploads. */
  class PointBuffers {
    var vertices: seq<real>
    var colors: seq<real>
    /** The points pushed so far, which the two flat buffers lay out. */
    ghost var points: seq<Point>

    /** The buffers are the flat layouts of the same points, so they grow in
        step (see BuffersInStep). */
    ghost predicate Valid()
      reads this
    {
      vertices == Positions(points) && colors == Colors(points)
    }

    constructor ()
      ensures Valid() && points == []
    {
      vertices, colors, points := [], [], [];
    }

    /** `parsePointCloud(data, scale, xAdd, yAdd, zAdd)`: appends the
        positions and colours of the points of `data` to the buffers. */
    method ParsePointCloud(data: string, scale: real, xAdd: real, yAdd: real, zAdd: real,
                           parseFloat: string -> Option<real>)
      requires Valid()
      modifies this
      ensures Valid()
      ensures points == old(points) + Cloud(data, Placement(scale, xAdd, yAdd, zAdd), parseFloat)
      ensures vertices == old(vertices) + Positions(Cloud(data, Placement(scale, xAdd, yAdd, zAdd), parseFloat))
      ensures colors == old(colors) + Colors(Cloud(data, Placement(scale, xAdd, yAdd, zAdd), parseFloat))
    {
      ghost var pl := Placement(scale, xAdd, yAdd, zAdd);
      var lines := Split(data, '\n');
      var header := true;
      ghost var st := Start;
      for i := 0 to |lines| - 1
        invariant st == ScanFrom(Start, lines[..i], pl, parseFloat)
        invariant header == st.header
        invariant Valid() && points == old(points) + st.points
      {
        ScanFromSnoc(lines, i, pl, parseFloat);
        if Includes(lines[i], EndHeader) {
          header := false;
        } else if !header {
          PushDataLine(lines[i], scale, xAdd, yAdd, zAdd, parseFloat);
        }
        st := Step(st, lines[i], pl, parseFloat);
      }
      PositionsAppend(old(points), st.points);
      ColorsAppend(old(points), st.points);
    }

    /** The loop body once the header is over: split the line on spaces,
        read three numbers, negate the second, and push the placed point and
        three white components unless one of the numbers is NaN. */
    method PushDataLine(line: string, scale: real, xAdd: real, yAdd: real, zAdd: real,
                        parseFloat: string -> Option<real>)
      requires Valid()
      modifies this
      ensures Valid()
      ensures points == old(points) + LinePoints(line, Placement(scale, xAdd, yAdd, zAdd), parseFloat)
    {
      var tokens := Split(line, ' ');
      var x := Field(tokens, 0, parseFloat);
      var y := Field(tokens, 1, parseFloat);
      var z := Field(tokens, 2, parseFloat);
      if x.Some? && y.Some? && z.Some? {
        var p := Point(Place(x.value, scale, xAdd), Place(-y.value, scale, yAdd), Place(z.value, scale, zAdd));
        assert LinePoints(line, Placement(scale, xAdd, yAdd, zAdd), parseFloat) == [p];
        PositionsAppend(points, [p]);
        ColorsAppend(points, [p]);
        vertices := vertices + [p.x, p.y, p.z];
        colors := colors + [White, White, White];
        points := points + [p];
      }
    }
  }
}
