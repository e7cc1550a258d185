/**
 * The polynomial transformation algorithm: it writes the ground control
 * points of the reference layer as `ogr2ogr` options, one
 * `-gcp <x> <y> <X> <Y>` group per reference line, and hands them to the
 * GDAL conversion. The conversion itself is not modelled; the number
 * formatting `str(float)` is a parameter.
 */
module PolynomialTransformation {
  import opened Wrappers
  import opened ReferenceLayer

  /** Every word followed by one space: the form in which the options are written. */
  function Spaced(words: seq<string>): string
  {
    if |words| == 0 then "" else words[0] + " " + Spaced(words[1..])
  }

  /** The index of the first space of a string that has one. */
  function FirstSpace(s: string): (k: nat)
    requires ' ' in s
    ensures k < |s| && s[k] == ' ' && ' ' !in s[..k]
  {
    if s[0] == ' ' then 0 else 1 + FirstSpace(s[1..])
  }

  /** The words of an option string, each ended by a space (or by the end of the string). */
  function Tokens(s: string): seq<string>
    decreases |s|
  {
    if |s| == 0 then []
    else if ' ' !in s then [s]
    else
      var k := FirstSpace(s);
      [s[..k]] + Tokens(s[k + 1..])
  }

  /** A word without a space. */
  predicate Spaceless(w: string)
  {
    ' ' !in w
  }

  /** Reading back one word and its space. */
  lemma {:induction false} TokensOfWord(w: string, rest: string)
    requires Spaceless(w)
    ensures Tokens(w + " " + rest) == [w] + Tokens(rest)
  {
    var s := w + " " + rest;
    assert s[|w|] == ' ';
    var k := FirstSpace(s);
    assert s[..k] == w;
    assert s[k + 1..] == rest;
  }

  /** Splitting spaced words on their spaces gives the words back. */
  lemma {:induction false} TokensOfSpaced(words: seq<string>)
    requires forall i :: 0 <= i < |words| ==> Spaceless(words[i])
    ensures Tokens(Spaced(words)) == words
    decreases |words|
  {
    if |words| > 0 {
      TokensOfSpaced(words[1..]);
      TokensOfWord(words[0], Spaced(words[1..]));
    }
  }

  lemma {:induction false} SpacedAppend(a: seq<string>, b: seq<string>)
    ensures Spaced(a + b) == Spaced(a) + Spaced(b)
    decreases |a|
  {
    if |a| > 0 {
      SpacedAppend(a[1..], b);
      assert (a + b)[1..] == a[1..] + b;
    } else {
      assert a + b == b;
    }
  }

  /** The words of one control point's option: `-gcp`, then the start and the destination coordinates. */
  function GcpWords(str: real -> string, start: Point, end: Point): seq<string>
  {
    ["-gcp", str(start.x), str(start.y), str(end.x), str(end.y)]
  }

  /** The text one reference feature adds to the options. */
  function GcpChunk(str: real -> string, start: Point, end: Point): (r: string)
    ensures r == Spaced(GcpWords(str, start, end))
  {
    var words := GcpWords(str, start, end);
    assert words[4..][1..] == [] && words[3..][1..] == words[4..];
    assert words[2..][1..] == words[3..] && words[1..][1..] == words[2..];
    assert Spaced(words[4..]) == str(end.y) + " ";
    assert Spaced(words[3..]) == str(end.x) + " " + str(end.y) + " ";
    assert Spaced(words[2..]) == str(start.y) + " " + str(end.x) + " " + str(end.y) + " ";
    assert Spaced(words[1..]) == str(start.x) + " " + str(start.y) + " " + str(end.x) + " " + str(end.y) + " ";
    "-gcp " + str(start.x) + " " + str(start.y) + " " + str(end.x) + " " + str(end.y) + " "
  }

  /** The chunks of the control points, in row order. */
  function Chunks(str: real -> string, cp: ControlPoints): (r: seq<string>)
    requires WellShaped(cp.source) && WellShaped(cp.dest) && Rows(cp.source) == Rows(cp.dest)
    ensures |r| == Rows(cp.source)
  {
    seq(Rows(cp.source), i requires 0 <= i < Rows(cp.source) => GcpChunk(str, Row(cp.source, i), Row(cp.dest, i)))
  }

  /** The strings one after the other. */
  function Concat(ss: seq<string>): string
  {
    if |ss| == 0 then "" else Concat(ss[..|ss| - 1]) + ss[|ss| - 1]
  }

  /** The words of the control points, in row order. */
  function AllWords(str: real -> string, cp: ControlPoints, n: nat): (r: seq<string>)
    requires WellShaped(cp.source) && WellShaped(cp.dest) && n <= Rows(cp.source) == Rows(cp.dest)
    ensures |r| == 5 * n
  {
    if n == 0 then []
    else AllWords(str, cp, n - 1) + GcpWords(str, Row(cp.source, n - 1), Row(cp.dest, n - 1))
  }

  /** The options are the words of the control points, each followed by a space. */
  lemma {:induction false} OptionsAreSpacedWords(str: real -> string, cp: ControlPoints, n: nat)
    requires WellShaped(cp.source) && WellShaped(cp.dest) && n <= Rows(cp.source) == Rows(cp.dest)
    ensures Concat(Chunks(str, cp)[..n]) == Spaced(AllWords(str, cp, n))
  {
    if n > 0 {
      var chunks := Chunks(str, cp)[..n];
      assert chunks[..n - 1] == Chunks(str, cp)[..n - 1];
      OptionsAreSpacedWords(str, cp, n - 1);
      SpacedAppend(AllWords(str, cp, n - 1), GcpWords(str, Row(cp.source, n - 1), Row(cp.dest, n - 1)));
    }
  }

  /**
   * Read back on its spaces, the option string of n control points is n
   * groups of five words: `-gcp` and the start and destination coordinates
   * of that point, provided no number is written with a space.
   */
  lemma {:induction false} OptionsRoundTrip(str: real -> string, cp: ControlPoints)
    requires WellShaped(cp.source) && WellShaped(cp.dest) && Rows(cp.source) == Rows(cp.dest)
    requires forall v :: Spaceless(str(v))
    ensures
      var words := Tokens(Concat(Chunks(str, cp)));
      && |words| == 5 * Rows(cp.source)
      && forall i :: 0 <= i < Rows(cp.source) ==>
           && words[5 * i] == "-gcp"
           && words[5 * i + 1] == str(Row(cp.source, i).x)
           && words[5 * i + 2] == str(Row(cp.source, i).y)
           && words[5 * i + 3] == str(Row(cp.dest, i).x)
           && words[5 * i + 4] == str(Row(cp.dest, i).y)
  {
    var n := Rows(cp.source);
    assert Chunks(str, cp)[..n] == Chunks(str, cp);
    OptionsAreSpacedWords(str, cp, n);
    AllWordsLayout(str, cp, n);
    TokensOfSpaced(AllWords(str, cp, n));
  }

  /** Where each control point's words lie in the word list, and that they have no space when the numbers have none. */
  lemma {:induction false} AllWordsLayout(str: real -> string, cp: ControlPoints, n: nat)
    requires WellShaped(cp.source) && WellShaped(cp.dest) && n <= Rows(cp.source) == Rows(cp.dest)
    requires forall v :: Spaceless(str(v))
    ensures
      var words := AllWords(str, cp, n);
      && (forall j :: 0 <= j < |words| ==> Spaceless(words[j]))
      && forall i :: 0 <= i < n ==>
           && words[5 * i] == "-gcp"
           && words[5 * i + 1] == str(Row(cp.source, i).x)
           && words[5 * i + 2] == str(Row(cp.source, i).y)
           && words[5 * i + 3] == str(Row(cp.dest, i).x)
           && words[5 * i + 4] == str(Row(cp.dest, i).y)
  {
    if n > 0 {
      AllWordsLayout(str, cp, n - 1);
      var words := AllWords(str, cp, n);
      var last := GcpWords(str, Row(cp.source, n - 1), Row(cp.dest, n - 1));
      assert words == AllWords(str, cp, n - 1) + last;
      assert Spaceless("-gcp");
      forall j | 5 * (n - 1) <= j < |words| ensures words[j] == last[j - 5 * (n - 1)] {
      }
    }
  }

  /** A non-empty option string ends with a single space. */
  lemma {:induction false} OptionsEndWithSpace(str: real -> string, cp: ControlPoints)
    requires WellShaped(cp.source) && WellShaped(cp.dest) && Rows(cp.source) == Rows(cp.dest)
    ensures var options := Concat(Chunks(str, cp));
      |options| > 0 <==> Rows(cp.source) > 0
    ensures var options := Concat(Chunks(str, cp));
      |options| > 0 ==> options[|options| - 1] == ' '
    ensures var options := Concat(Chunks(str, cp));
      |options| > 0 && (forall v :: |str(v)| > 0 && Spaceless(str(v))) ==> options[|options| - 2] != ' '
  {
    var chunks := Chunks(str, cp);
    if |chunks| > 0 {
      var n := |chunks| - 1;
      var c := chunks[n];
      var endY := str(Row(cp.dest, n).y);
      assert c == GcpChunk(str, Row(cp.source, n), Row(cp.dest, n));
      assert Concat(chunks) == Concat(chunks[..n]) + c;
      assert c[|c| - 1] == ' ';
      if forall v :: |str(v)| > 0 && Spaceless(str(v)) {
        assert |endY| > 0 && Spaceless(endY);
        assert c[|c| - 2] == endY[|endY| - 1];
      }
    }
  }

  /** A non-empty option string starts with the first control point's `-gcp ` group. */
  lemma {:induction false} OptionsStartWithGcp(str: real -> string, cp: ControlPoints)
    requires WellShaped(cp.source) && WellShaped(cp.dest) && Rows(cp.source) == Rows(cp.dest) > 0
    ensures GcpChunk(str, Row(cp.source, 0), Row(cp.dest, 0)) <= Concat(Chunks(str, cp))
  {
    PrefixOfConcat(Chunks(str, cp));
  }

  /** The first string is a prefix of the concatenation. */
  lemma {:induction false} PrefixOfConcat(ss: seq<string>)
    requires |ss| > 0
    ensures ss[0] <= Concat(ss)
    decreases |ss|
  {
    if |ss| > 1 {
      PrefixOfConcat(ss[..|ss| - 1]);
    }
  }

  /** Appending a control point appends its chunk. */
  lemma {:induction false} ChunksAppend(str: real -> string, cp: ControlPoints, start: Point, end: Point)
    requires WellShaped(cp.source) && WellShaped(cp.dest) && Rows(cp.source) == Rows(cp.dest)
    ensures
      var cp' := ControlPoints(AppendRow(cp.source, start), AppendRow(cp.dest, end));
      && WellShaped(cp'.source) && WellShaped(cp'.dest) && Rows(cp'.source) == Rows(cp'.dest)
      && Concat(Chunks(str, cp')) == Concat(Chunks(str, cp)) + GcpChunk(str, start, end)
  {
    var cp' := ControlPoints(AppendRow(cp.source, start), AppendRow(cp.dest, end));
    var n := Rows(cp.source);
    assert Chunks(str, cp')[..n] == Chunks(str, cp);
  }

  /** The loop's three appends add one control point's chunk. */
  lemma {:induction false} AppendGcpChunk(str: real -> string, before: string, start: Point, end: Point)
    ensures before + "-gcp " + str(start.x) + " " + str(start.y) + " " + str(end.x) + " " + str(end.y) + " "
      == before + GcpChunk(str, start, end)
  {
  }

  /**
   * The option-building loop: for every reference feature, in order, bind
   * `line` by its geometry type and append `-gcp ` and the coordinates of
   * the line's first and last vertex.
   */
  method BuildGcpOptions(features: seq<Feature>, str: real -> string) returns (r: Result<string, Error>)
    ensures ScanFeatures(features).Ok? ==> r == Ok(Concat(Chunks(str, ScanFeatures(features).value.points)))
    ensures ScanFeatures(features).Err? ==> r == Err(ScanFeatures(features).error)
  {
    var options := "";
    var line: Option<seq<Point>> := None;
    ghost var points := ControlPoints(Coordinates([], []), Coordinates([], []));
    var i := 0;
    while i < |features|
      invariant 0 <= i <= |features|
      invariant ScanFeatures(features[..i]) == Ok(Scan(points, line))
      invariant options == Concat(Chunks(str, points))
    {
      ghost var st := Scan(points, line);
      ScanOneMore(features, i);
      var g := features[i].geometry;
      if g.LineString? {
        line := Some(g.vertices);
      } else if g.MultiLineString? {
        if |g.parts| == 0 {
          ScanFailsAt(features, i, st, IndexOutOfRange);
          return Err(IndexOutOfRange);
        }
        line := Some(g.parts[0]);
      }
      ghost var before := options;
      options := options + "-gcp ";
      if line.None? {
        ScanFailsAt(features, i, st, UnboundLine);
        return Err(UnboundLine);
      }
      if |line.value| == 0 {
        ScanFailsAt(features, i, st, IndexOutOfRange);
        return Err(IndexOutOfRange);
      }
      var first, last := line.value[0], Last(line.value);
      options := options + str(first.x) + " " + str(first.y) + " ";
      options := options + str(last.x) + " " + str(last.y) + " ";
      AppendGcpChunk(str, before, first, last);
      ChunksAppend(str, points, first, last);
      points := ControlPoints(AppendRow(points.source, first), AppendRow(points.dest, last));
      i := i + 1;
    }
    assert features[..i] == features;
    return Ok(options);
  }

  /**
   * The algorithm up to the conversion: the checks on its parameters in
   * order, then the option string handed to `gdal:convertformat`.
   * `reference` is the reference layer's features, or None when the
   * parameter does not resolve; `inputFound` says whether the layer to
   * transform resolves.
   */
  method ProcessAlgorithm(reference: Option<seq<Feature>>, inputFound: bool, str: real -> string)
    returns (r: Result<string, Error>)
    ensures reference.None? ==> r == Err(InvalidReferenceSource)
    ensures reference.Some? && |reference.value| < MinControlPoints ==> r == Err(TooFewControlPoints)
    ensures reference.Some? && |reference.value| >= MinControlPoints && !inputFound ==> r == Err(InvalidInputLayer)
    ensures reference.Some? && |reference.value| >= MinControlPoints && inputFound ==>
      var scan := ScanFeatures(reference.value);
      && (scan.Err? ==> r == Err(scan.error))
      && (scan.Ok? ==>
            && |Chunks(str, scan.value.points)| == |reference.value| >= MinControlPoints
            && r == Ok(Concat(Chunks(str, scan.value.points))))
  {
    if reference.None? {
      return Err(InvalidReferenceSource);
    }
    var features := reference.value;
    if |features| < MinControlPoints {
      return Err(TooFewControlPoints);
    }
    if !inputFound {
      return Err(InvalidInputLayer);
    }
    r := BuildGcpOptions(features, str);
  }

  /**
   * On a layer of LineStrings and MultiLineStrings whose lines all have a
   * vertex, chunk i holds the first and last vertex of feature i's line (of
   * its first part, for a MultiLineString).
   */
  lemma {:induction false} LineLayerChunks(fs: seq<Feature>, str: real -> string)
    requires forall i :: 0 <= i < |fs| ==> IsLine(fs[i].geometry) && HasEndpoints(fs[i].geometry)
    ensures ScanFeatures(fs).Ok?
    ensures forall i :: 0 <= i < |fs| ==>
      Chunks(str, ScanFeatures(fs).value.points)[i]
        == GcpChunk(str, StartPoint(fs[i].geometry), EndPoint(fs[i].geometry))
  {
    LineFeaturesGiveEndpoints(fs);
  }
}
