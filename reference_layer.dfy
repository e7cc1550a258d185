/**
 * The reference layer that both georeferencing algorithms read: one line
 * feature per ground control point, whose first vertex lies in the start
 * system and whose last vertex lies in the destination system.
 *
 * Both processing algorithms pick the line of a feature in the same way:
 * a LineString is used as it is, a MultiLineString contributes its first
 * part, and any other geometry type assigns nothing, so the variable `line`
 * keeps the previous feature's line (or is still unbound at the first
 * feature, which raises).
 */
module ReferenceLayer {
  import opened Wrappers

  /** A vertex (QgsPointXY); coordinates are modelled as exact reals. */
  datatype Point = Point(x: real, y: real)

  /** A feature geometry, by its WKB type. */
  datatype Geometry =
    | LineString(vertices: seq<Point>)
    | MultiLineString(parts: seq<seq<Point>>)
    | OtherGeometry  // every other WKB type, including LineStringZ and MultiLineStringM

  /** A reference feature; only its geometry is read. */
  datatype Feature = Feature(geometry: Geometry)

  /** The exceptions the two algorithms raise. */
  datatype Error =
    | InvalidReferenceSource   // the reference layer parameter does not resolve
    | TooFewControlPoints      // fewer than four reference features
    | InvalidInputLayer        // the layer to transform does not resolve
    | UnboundLine              // `line` read before any assignment (UnboundLocalError)
    | IndexOutOfRange          // `[0]` of an empty part list or vertex list (IndexError)
    | DegenerateStartPoints    // all start points coincide, so D = 0

  /** The fewest reference features either algorithm accepts. */
  const MinControlPoints: nat := 4

  /** An n×2 coordinate array (the numpy array built from a list of [x, y] rows), column by column. */
  datatype Coordinates = Coordinates(x: seq<real>, y: seq<real>)

  /** The number of rows of a well-shaped array. */
  function Rows(c: Coordinates): nat
  {
    |c.x|
  }

  predicate WellShaped(c: Coordinates)
  {
    |c.x| == |c.y|
  }

  /** `list.append([p.x(), p.y()])`: one more row, p, after the existing ones. */
  function AppendRow(c: Coordinates, p: Point): (r: Coordinates)
    ensures WellShaped(c) ==> WellShaped(r) && Rows(r) == Rows(c) + 1 && Row(r, Rows(c)) == p
  {
    Coordinates(c.x + [p.x], c.y + [p.y])
  }

  /** Appending a row leaves every earlier row as it was. */
  lemma AppendRowKeepsRows(c: Coordinates, p: Point, i: nat)
    requires WellShaped(c) && i < Rows(c)
    ensures Row(AppendRow(c, p), i) == Row(c, i)
  {
  }

  /** Row i of the array, as a point. */
  function Row(c: Coordinates, i: nat): Point
    requires WellShaped(c) && i < Rows(c)
  {
    Point(c.x[i], c.y[i])
  }

  /** The two lists filled by the extraction loop: start-system and destination-system points, in feature order. */
  datatype ControlPoints = ControlPoints(source: Coordinates, dest: Coordinates)

  /** The extraction loop's state: the lists so far and the variable `line`. */
  datatype Scan = Scan(points: ControlPoints, line: Option<seq<Point>>)

  function Last(line: seq<Point>): Point
    requires |line| > 0
  {
    line[|line| - 1]
  }

  /**
   * The if/elif on the WKB type that (re)binds `line`: a line geometry binds
   * its own (first) line, any other keeps the previous binding.
   */
  function SelectLine(previous: Option<seq<Point>>, g: Geometry): (r: Result<seq<Point>, Error>)
    ensures !IsLine(g) ==> r == (if previous.Some? then Ok(previous.value) else Err(UnboundLine))
    ensures IsLine(g) ==> (r.Err? <==> g.MultiLineString? && |g.parts| == 0)
    ensures r.Err? && IsLine(g) ==> r.error == IndexOutOfRange
    ensures HasEndpoints(g) ==> r.Ok? && |r.value| > 0 && r.value[0] == StartPoint(g) && Last(r.value) == EndPoint(g)
  {
    match g
    case LineString(vertices) => Ok(vertices)
    case MultiLineString(parts) => if |parts| == 0 then Err(IndexOutOfRange) else Ok(parts[0])
    case OtherGeometry => if previous.Some? then Ok(previous.value) else Err(UnboundLine)
  }

  /**
   * One iteration of the extraction loop: bind `line`, then append its first
   * and last vertex. It raises exactly when `line` cannot be bound or is
   * empty, and otherwise keeps the loop invariant with one more row pair.
   */
  function ScanStep(st: Scan, f: Feature): (r: Result<Scan, Error>)
    ensures r.Ok? <==> SelectLine(st.line, f.geometry).Ok? && |SelectLine(st.line, f.geometry).value| > 0
    ensures r.Ok? ==> r.value.line == Some(SelectLine(st.line, f.geometry).value)
    ensures r.Ok? && ScanInvariant(st, Rows(st.points.source)) ==> ScanInvariant(r.value, Rows(st.points.source) + 1)
  {
    match SelectLine(st.line, f.geometry)
    case Err(e) => Err(e)
    case Ok(line) =>
      if |line| == 0 then Err(IndexOutOfRange)
      else Ok(Scan(ControlPoints(AppendRow(st.points.source, line[0]), AppendRow(st.points.dest, Last(line))), Some(line)))
  }

  /** What the loop has built after n features. */
  ghost predicate ScanInvariant(st: Scan, n: nat)
  {
    && WellShaped(st.points.source) && Rows(st.points.source) == n
    && WellShaped(st.points.dest) && Rows(st.points.dest) == n
    && (n == 0 <==> st.line.None?)
    && (n > 0 ==>
          && |st.line.value| > 0
          && Row(st.points.source, n - 1) == st.line.value[0]
          && Row(st.points.dest, n - 1) == Last(st.line.value))
  }

  /**
   * The extraction loop over the features `fs`, in order: the first error
   * raised, or the final state. Each feature yields exactly one pair.
   */
  function ScanFeatures(fs: seq<Feature>): (r: Result<Scan, Error>)
    ensures r.Ok? ==> ScanInvariant(r.value, |fs|)
    decreases |fs|
  {
    if |fs| == 0 then Ok(Scan(ControlPoints(Coordinates([], []), Coordinates([], [])), None))
    else
      match ScanFeatures(fs[..|fs| - 1])
      case Err(e) => Err(e)
      case Ok(st) => ScanStep(st, fs[|fs| - 1])
  }

  /** Once an error is raised, later features do not matter. */
  lemma {:induction false} ScanErrorPersists(fs: seq<Feature>, k: nat)
    requires k <= |fs|
    requires ScanFeatures(fs[..k]).Err?
    ensures ScanFeatures(fs) == ScanFeatures(fs[..k])
    decreases |fs| - k
  {
    if k < |fs| {
      assert fs[..k + 1][..k] == fs[..k];
      ScanErrorPersists(fs, k + 1);
    } else {
      assert fs[..k] == fs;
    }
  }

  /** One more feature: the loop goes on from the state after the features before it. */
  lemma {:induction false} ScanOneMore(fs: seq<Feature>, i: nat)
    requires i < |fs|
    ensures ScanFeatures(fs[..i]).Err? ==> ScanFeatures(fs[..i + 1]) == ScanFeatures(fs[..i])
    ensures ScanFeatures(fs[..i]).Ok? ==> ScanFeatures(fs[..i + 1]) == ScanStep(ScanFeatures(fs[..i]).value, fs[i])
  {
    assert fs[..i + 1][..i] == fs[..i];
  }

  /** A feature whose step raises ends the loop with that error. */
  lemma {:induction false} ScanFailsAt(fs: seq<Feature>, i: nat, st: Scan, e: Error)
    requires i < |fs| && ScanFeatures(fs[..i]) == Ok(st) && ScanStep(st, fs[i]) == Err(e)
    ensures ScanFeatures(fs) == Err(e)
  {
    ScanOneMore(fs, i);
    ScanErrorPersists(fs, i + 1);
  }

  /** The control points of a prefix of the layer are the first rows of its control points. */
  lemma {:induction false} ScanPrefix(fs: seq<Feature>, k: nat)
    requires k <= |fs|
    requires ScanFeatures(fs).Ok?
    ensures ScanFeatures(fs[..k]).Ok?
    ensures forall i :: 0 <= i < k ==>
      && Row(ScanFeatures(fs[..k]).value.points.source, i) == Row(ScanFeatures(fs).value.points.source, i)
      && Row(ScanFeatures(fs[..k]).value.points.dest, i) == Row(ScanFeatures(fs).value.points.dest, i)
    decreases |fs| - k
  {
    if k == |fs| {
      assert fs[..k] == fs;
    } else {
      ScanPrefix(fs, k + 1);
      var longer := fs[..k + 1];
      assert longer[..|longer| - 1] == fs[..k];
      if ScanFeatures(fs[..k]).Err? {
        ScanErrorPersists(longer, k);
      }
    }
  }

  /** A geometry of one of the two line types. */
  predicate IsLine(g: Geometry)
  {
    g.LineString? || g.MultiLineString?
  }

  /** A line geometry whose vertices (of its first part) can be indexed. */
  predicate HasEndpoints(g: Geometry)
  {
    match g
    case LineString(vertices) => |vertices| > 0
    case MultiLineString(parts) => |parts| > 0 && |parts[0]| > 0
    case OtherGeometry => false
  }

  /** The control point in the start system: the first vertex (of the first part). */
  function StartPoint(g: Geometry): Point
    requires HasEndpoints(g)
  {
    if g.LineString? then g.vertices[0] else g.parts[0][0]
  }

  /** The control point in the destination system: the last vertex (of the first part). */
  function EndPoint(g: Geometry): Point
    requires HasEndpoints(g)
  {
    if g.LineString? then Last(g.vertices) else Last(g.parts[0])
  }

  /**
   * On a layer of LineStrings and MultiLineStrings the extraction succeeds
   * exactly when every feature's (first) line has a vertex, and then pair i
   * is the first and last vertex of feature i's own line.
   */
  lemma {:induction false} LineFeaturesGiveEndpoints(fs: seq<Feature>)
    requires forall i :: 0 <= i < |fs| ==> IsLine(fs[i].geometry)
    ensures ScanFeatures(fs).Ok? <==> forall i :: 0 <= i < |fs| ==> HasEndpoints(fs[i].geometry)
    ensures ScanFeatures(fs).Ok? ==>
      forall i :: 0 <= i < |fs| ==>
        && Row(ScanFeatures(fs).value.points.source, i) == StartPoint(fs[i].geometry)
        && Row(ScanFeatures(fs).value.points.dest, i) == EndPoint(fs[i].geometry)
    decreases |fs|
  {
    if |fs| > 0 {
      var n := |fs| - 1;
      var init, g := fs[..n], fs[n].geometry;
      forall i | 0 <= i < n
        ensures IsLine(init[i].geometry)
      {
        assert init[i] == fs[i];
      }
      LineFeaturesGiveEndpoints(init);
      if ScanFeatures(init).Err? {
        var k :| 0 <= k < n && !HasEndpoints(init[k].geometry);
        assert fs[k] == init[k];
      } else if !HasEndpoints(g) {
        assert ScanStep(ScanFeatures(init).value, fs[n]).Err?;
      } else {
        var st := ScanFeatures(init).value;
        var line := if g.LineString? then g.vertices else g.parts[0];
        assert SelectLine(st.line, g) == Ok(line);
        var post := ScanFeatures(fs).value;
        assert post.points.source == AppendRow(st.points.source, StartPoint(g));
        assert post.points.dest == AppendRow(st.points.dest, EndPoint(g));
        forall i | 0 <= i < |fs|
          ensures HasEndpoints(fs[i].geometry)
          ensures Row(post.points.source, i) == StartPoint(fs[i].geometry)
          ensures Row(post.points.dest, i) == EndPoint(fs[i].geometry)
        {
          if i < n {
            assert fs[i] == init[i];
          }
        }
      }
    }
  }

  /** A non-line first feature reads `line` before it is bound. */
  lemma {:induction false} FirstNonLineIsUnbound(fs: seq<Feature>)
    requires |fs| > 0 && fs[0].geometry.OtherGeometry?
    ensures ScanFeatures(fs) == Err(UnboundLine)
  {
    assert fs[..1][..0] == [];
    ScanErrorPersists(fs, 1);
  }

  /** A later non-line feature repeats the control point of the feature before it. */
  lemma {:induction false} NonLineRepeatsPrevious(fs: seq<Feature>, i: nat)
    requires 0 < i < |fs| && fs[i].geometry.OtherGeometry?
    requires ScanFeatures(fs).Ok?
    ensures Row(ScanFeatures(fs).value.points.source, i) == Row(ScanFeatures(fs).value.points.source, i - 1)
    ensures Row(ScanFeatures(fs).value.points.dest, i) == Row(ScanFeatures(fs).value.points.dest, i - 1)
  {
    ScanPrefix(fs, i + 1);
    ScanOneMore(fs, i);
    var st, post := ScanFeatures(fs[..i]).value, ScanFeatures(fs[..i + 1]).value;
    assert SelectLine(st.line, fs[i].geometry) == Ok(st.line.value);
    assert post.points.source == AppendRow(st.points.source, st.line.value[0]);
    assert post.points.dest == AppendRow(st.points.dest, Last(st.line.value));
    assert Row(post.points.source, i) == Row(st.points.source, i - 1) == Row(post.points.source, i - 1);
    assert Row(post.points.dest, i) == Row(st.points.dest, i - 1) == Row(post.points.dest, i - 1);
  }
}
