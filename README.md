# Georeferencing algorithms and string predicates, in Dafny

This project models the logic of a set of QGIS Processing scripts and expression functions:

- **Helmert transformation** (`HelmertTransformationProcessing.py`). The algorithm reads a reference layer. Each line feature of that layer is one ground control point: its first vertex lies in the start system and its last vertex in the destination system. The algorithm:
  - collects the start and destination points;
  - reduces both point sets to their centroids;
  - estimates the 4-parameter (similarity) transformation by least squares, through the auxiliary variables `D`, `a` and `b`;
  - reports the translation between the centroids and the residuals of the fitted points.
- **Polynomial transformation** (`PolynominalTransformationProcessing.py`). The algorithm reads the same kind of reference layer. It writes the control points as `ogr2ogr` options, one `-gcp <x> <y> <X> <Y>` group per feature, for the GDAL conversion.
- **`starts_with` and `ends_with`** (`starts_with.py`, `ends_with.py`). These expression functions test whether the text of a value begins or ends with a comparison string.

Modules:

- `Wrappers`: `Option` and `Result`.
- `Vectors`: columns of exact reals, with `np.sum`, element-wise arithmetic and dot products, plus their linearity lemmas.
- `ReferenceLayer`: the shared representation.
  - Features, geometries and the exceptions.
  - The control-point extraction loop, written as a specification function `ScanFeatures` over the features.
- `HelmertAlgebra`: the sums behind the Helmert estimate over the reduced coordinates: the auxiliary variable `D`, the normal equations that `a` and `b` solve, and the sums for an exact rotation and scale.
- `HelmertTransformation`:
  - the estimation, as a pure function `Estimate`, with its least-squares lemmas;
  - the extraction loop, as the method `ReadControlPoints`;
  - the algorithm's checks, as `ProcessAlgorithm`.
- `PolynomialTransformation`:
  - the option-building loop, as the method `BuildGcpOptions`, proved against `Concat(Chunks(...))`;
  - the round trip from the option string back to its words.
- `StartsWithFunction` and `EndsWithFunction`: the two predicates.

The extraction loop picks each feature's `line` by its WKB type:

- A `LineString` is used as it is.
- A `MultiLineString` contributes its first part.
- Any other geometry type assigns nothing, so `line` keeps the previous feature's line. At the first feature it is still unbound, and reading it raises.

The model keeps this behaviour: `line` is an `Option` carried through the loop. The failures are errors of the `Result`:

- `UnboundLine` for the unbound case.
- `IndexOutOfRange` for `[0]` on an empty part list or an empty line.

Coordinates are exact reals. Float-to-text conversion (`str`) is a function parameter. The code divides `np.sum` of a column by `array.size / 2`. For an n×2 array that is n, which `Centroid` states.

## Model

| member | source | states |
|---|---|---|
| ReferenceLayer.AppendRow | HelmertTransformationProcessing.py:207-209 | `append` on a well-shaped array gives one more row, the appended point, at the end |
| ReferenceLayer.AppendRowKeepsRows | HelmertTransformationProcessing.py:207-209 | `append` leaves every earlier row as it was |
| ReferenceLayer.SelectLine | HelmertTransformationProcessing.py:202-205 | A LineString binds `line` to its vertices and a MultiLineString to its first part, with their first and last vertex as the control-point pair. An empty part list raises IndexError. Any other geometry keeps the previous `line`, or raises UnboundLocalError when there is none |
| ReferenceLayer.ScanStep | HelmertTransformationProcessing.py:200-209 | One iteration raises exactly when `line` cannot be bound or has no vertex. Otherwise it binds `line` as the if/elif does and keeps the loop's invariant with one more row pair |
| ReferenceLayer.ScanFeatures | HelmertTransformationProcessing.py:196-209 | After the loop over n features, both lists have n rows, `line` is bound exactly when n > 0, and the last row pair is the first and last vertex of the current `line` |
| ReferenceLayer.ScanOneMore | HelmertTransformationProcessing.py:200-209 | One more feature continues the loop from the state after the features before it, or keeps the error already raised |
| ReferenceLayer.ScanFailsAt | HelmertTransformationProcessing.py:200-209 | A feature whose iteration raises makes that error the outcome of the whole loop |
| ReferenceLayer.ScanErrorPersists | HelmertTransformationProcessing.py:200-209 | Once a feature raises, the later features do not change the outcome |
| ReferenceLayer.ScanPrefix | HelmertTransformationProcessing.py:200-209 | Rows only get appended: the rows built from a prefix of the layer are the first rows of the full result |
| ReferenceLayer.LineFeaturesGiveEndpoints | HelmertTransformationProcessing.py:202-209 | On a layer of LineStrings and MultiLineStrings, extraction succeeds iff every (first) line has a vertex. Pair i is then the first and last vertex of feature i's own line, and of the first part only for a MultiLineString |
| ReferenceLayer.FirstNonLineIsUnbound | HelmertTransformationProcessing.py:202-207 | A first feature that is neither line type reads `line` unbound and raises |
| ReferenceLayer.NonLineRepeatsPrevious | HelmertTransformationProcessing.py:202-209 | A later feature that is neither line type repeats the previous feature's control-point pair |
| HelmertTransformation.ReadControlPoints | HelmertTransformationProcessing.py:195-209 | The imperative loop returns exactly the control points of `ScanFeatures`, or its error |
| HelmertTransformation.Centroid | HelmertTransformationProcessing.py:226-227 | The centroid times n is the column sum, so it is the arithmetic mean, because `size / 2` is n |
| HelmertTransformation.Reduce | HelmertTransformationProcessing.py:231-240 | One entry per row: each coordinate minus its column's centroid (`x_strich`, `y_strich`, `X_strich`, `Y_strich`) |
| HelmertTransformation.CentroidOfConstant | HelmertTransformationProcessing.py:234-235 | A column of one repeated value has that value as its centroid |
| HelmertTransformation.CentroidAffine | HelmertTransformationProcessing.py:234-235 | The centroid of `c + p·u + q·v` is `c + p·centroid(u) + q·centroid(v)` |
| HelmertTransformation.ReducedSumsToZero | HelmertTransformationProcessing.py:231-232 | The centroid-reduced coordinates (`x_strich`, `X_strich`, ...) sum to zero |
| HelmertAlgebra.AuxDNonNegative | HelmertTransformationProcessing.py:252 | The auxiliary variable `D = Σx'² + Σy'²` is never negative, and is zero exactly when every reduced start coordinate is zero |
| HelmertTransformation.CoefficientA | HelmertTransformationProcessing.py:255 | `a·D = Σ(x'X') + Σ(y'Y')` |
| HelmertTransformation.CoefficientB | HelmertTransformationProcessing.py:256 | `b·D = Σ(x'Y') − Σ(y'X')` |
| HelmertTransformation.Estimate | HelmertTransformationProcessing.py:223-266 | Fails iff D = 0. Otherwise the centroids are the column means and the translation is `(Xs − xs, Ys − ys)`. `a` and `b` solve their equations through D. The residuals have one entry per point and equal fitted (`Xs + a·x' − b·y'`, `Ys + b·x' + a·y'`) minus observed |
| HelmertTransformation.DegenerateExactlyWhenStartPointsCoincide | HelmertTransformationProcessing.py:252-256 | D ≥ 0, and the estimation fails exactly when all start points are the same point |
| Vectors.SumOfSquares | HelmertTransformationProcessing.py:252 | `Σ(v·v) ≥ 0`, and it is 0 only when every entry is 0 |
| HelmertTransformation.CentredResidualsSumToZero | HelmertTransformationProcessing.py:263-266 | Residuals fitted from the observed column's centroid and two zero-sum columns sum to zero |
| HelmertTransformation.ResidualsSumToZero | HelmertTransformationProcessing.py:263-266 | The residuals sum to zero in X and in Y |
| HelmertAlgebra.FirstNormalEquation | HelmertTransformationProcessing.py:252-266 | For any `a` solving its equation through D and any `b`, the reduced residual columns `a·x' − b·y' − X'` and `b·x' + a·y' − Y'` satisfy `Σ(x'rX) + Σ(y'rY) = 0` |
| HelmertAlgebra.SecondNormalEquation | HelmertTransformationProcessing.py:252-266 | For any `b` solving its equation through D and any `a`, the same residual columns satisfy `Σ(x'rY) − Σ(y'rX) = 0` |
| HelmertTransformation.FittedResidualsOrthogonal | HelmertTransformationProcessing.py:252-266 | The same, for the residuals of the fit built from the observed centroids |
| HelmertTransformation.NormalEquations | HelmertTransformationProcessing.py:252-266 | The normal equations hold for the estimation: `Σ(x'rX + y'rY) = 0` and `Σ(x'rY − y'rX) = 0`. So `a`, `b` are the stationary point of the squared residuals |
| HelmertTransformation.ReducedSimilarity | HelmertTransformationProcessing.py:239-240 | Reducing an exact similarity of the start columns gives that rotation-scale of the reduced start columns, with no translation |
| HelmertAlgebra.SimilaritySums | HelmertTransformationProcessing.py:255-256 | For rotated and scaled reduced columns, the numerators of `a` and `b` are `a0·D` and `b0·D` |
| HelmertAlgebra.ExactCoefficients | HelmertTransformationProcessing.py:252-256 | For such columns and a non-zero D, any `a`, `b` that solve their equations through D are `a0`, `b0` |
| HelmertTransformation.ZeroResiduals | HelmertTransformationProcessing.py:263-266 | The residuals vanish when the reduced observed column equals the fitted combination |
| HelmertTransformation.ExactFit | HelmertTransformationProcessing.py:226-266 | For column-wise exact similarities, the fit recovers `a0`, `b0` and every residual is zero |
| HelmertTransformation.ExactSimilarityRecovered | HelmertTransformationProcessing.py:252-266 | If every destination point is `tx + a0·x − b0·y`, `ty + b0·x + a0·y`, the estimation gives `a = a0`, `b = b0` and all residuals zero |
| HelmertTransformation.ProcessAlgorithm | HelmertTransformationProcessing.py:179-266 | Raises in order for a missing reference layer, then for fewer than four features, then for a missing input layer. Otherwise the extraction's error, or the estimation of the extracted (equal-length, non-empty) control points |
| PolynomialTransformation.GcpChunk | PolynominalTransformationProcessing.py:193-195 | The text one feature adds is the five words `-gcp`, sx, sy, dx, dy, each followed by one space |
| PolynomialTransformation.Chunks | PolynominalTransformationProcessing.py:185-195 | One chunk per control point, in row order |
| PolynomialTransformation.ChunksAppend | PolynominalTransformationProcessing.py:187-195 | Appending one control point appends its chunk to the concatenated options, after the earlier ones |
| PolynomialTransformation.BuildGcpOptions | PolynominalTransformationProcessing.py:181-195 | The `+=` loop, starting from the empty string, returns exactly the in-order concatenation of the chunks of `ScanFeatures`' control points, or its error |
| PolynomialTransformation.OptionsAreSpacedWords | PolynominalTransformationProcessing.py:182-195 | The concatenated chunks are the control points' words, each followed by a space, with no other text |
| PolynomialTransformation.TokensOfSpaced | PolynominalTransformationProcessing.py:193-195 | Splitting space-terminated, spaceless words on their spaces gives the words back |
| PolynomialTransformation.AllWordsLayout | PolynominalTransformationProcessing.py:193-195 | Word 5i is `-gcp` and words 5i+1..5i+4 are point i's coordinates |
| PolynomialTransformation.OptionsRoundTrip | PolynominalTransformationProcessing.py:182-195 | If numbers are written without spaces, the option string splits into exactly 5n words. Group i is `-gcp` followed by point i's start and destination coordinates |
| PolynomialTransformation.OptionsEndWithSpace | PolynominalTransformationProcessing.py:195 | The string is non-empty iff there is a control point. It then ends with a space, and with only one when numbers are non-empty and spaceless |
| PolynomialTransformation.OptionsStartWithGcp | PolynominalTransformationProcessing.py:193-194 | A non-empty option string begins with the first point's `-gcp ` group |
| PolynomialTransformation.LineLayerChunks | PolynominalTransformationProcessing.py:187-195 | On a layer of lines with vertices, chunk i holds the endpoints of feature i's line, and of its first part only for a MultiLineString |
| PolynomialTransformation.ProcessAlgorithm | PolynominalTransformationProcessing.py:165-195 | Raises in order for a missing reference layer, then for fewer than four features, then for a missing input layer. Otherwise the options string or the extraction's error. When options are built there are as many chunks as features, so at least four |
| StartsWithFunction.StartsWith | starts_with.py:19 | True exactly when the comparison string is a prefix of `str(input_string)` |
| StartsWithFunction.StartsWithSplits | starts_with.py:19 | True exactly when the text is the comparison string followed by some rest |
| StartsWithFunction.EmptyCompareMatches | starts_with.py:19 | An empty comparison string gives true |
| StartsWithFunction.StartsWithItself | starts_with.py:19 | Every text starts with itself |
| StartsWithFunction.MatchIsNoLonger | starts_with.py:19 | A true result means the comparison string is no longer than the text |
| StartsWithFunction.PrefixOfMatchMatches | starts_with.py:19 | A text that starts with `c1 + c2` starts with `c1` |
| StartsWithFunction.HelloWorldExample | starts_with.py:17 | `starts_with('Hello World', 'H')` is true |
| StartsWithFunction.IgnoresFeatureAndParent | starts_with.py:5-19 | The result does not depend on `feature` or `parent` |
| EndsWithFunction.EndsWith | ends_with.py:19 | True exactly when `str(input_string)` is some rest followed by the comparison string |
| EndsWithFunction.EndsWithIsReversedStartsWith | ends_with.py:19 | `ends_with` is `starts_with` on the reversed text and reversed comparison string |
| EndsWithFunction.SuffixIsReversedPrefix | ends_with.py:19 | `c` is a suffix of `s` iff `c` reversed is a prefix of `s` reversed |
| EndsWithFunction.EmptyCompareMatches | ends_with.py:19 | An empty comparison string gives true |
| EndsWithFunction.EndsWithItself | ends_with.py:19 | Every text ends with itself |
| EndsWithFunction.MatchIsNoLonger | ends_with.py:19 | A true result means the comparison string is no longer than the text |
| EndsWithFunction.HelloWorldExample | ends_with.py:17 | `ends_with('Hello World', 'd')` is true |
| EndsWithFunction.IgnoresFeatureAndParent | ends_with.py:5-19 | The result does not depend on `feature` or `parent` |

## Findings

| source | as written | input that shows it | evidently intended | confidence | as-written member | corrected member |
|---|---|---|---|---|---|---|
| HelmertTransformationProcessing.py:202-209 | The reference parameter accepts any line layer (line 125), but the loop binds `line` only for the exact WKB types LineString and MultiLineString. A feature of another line type (`LineStringZ`, `MultiLineStringZ`, ...) assigns nothing. | A layer whose first feature is a `LineStringZ` raises UnboundLocalError. A `LineStringZ` after a LineString silently repeats the previous control-point pair. | One control-point pair per line feature, from that feature's own line (docstring, lines 42-45). | medium, not executed | ReferenceLayer.FirstNonLineIsUnbound, ReferenceLayer.NonLineRepeatsPrevious | ReferenceLayer.LineFeaturesGiveEndpoints |

The corrected behaviour is proved for layers whose features are all of the two line types. Testing the flat WKB type would make every feature of a line layer one of them. The rest of the model keeps the code as written.

## Left out

- HelmertTransformation.Estimate: returns `Err(DegenerateStartPoints)` when D = 0, because over exact reals `a` and `b` are undefined there. numpy divides by zero instead, producing `nan`/`inf` with a warning rather than an exception, and the algorithm goes on with them.
- Floating point: all coordinates and sums are exact reals. IEEE rounding, overflow and `nan` propagation are not modelled.
- The scale `sqrt(a² + b²)`, the rotation `arctan2(b, a)` and its conversion to degrees (HelmertTransformationProcessing.py:272-281) are not modelled. They are transcendental floating-point operations.
- The host algorithms the scripts chain are foreign calls and are not modelled:
  - `native:translategeometry`, `native:affinetransform` (HelmertTransformationProcessing.py:287-329);
  - `gdal:convertformat` (PolynominalTransformationProcessing.py:197-209).
- The HTML report with its `%.4f`/`%.6f` formatting is file I/O, and the `feedback.pushInfo` messages and progress texts are logging. Neither is modelled.
- `feedback.isCanceled()` early returns are cancellation by the host and are not modelled. Parameter registration and metadata (`name`, `displayName`, `group`, `tr`) are not modelled either.
- Resolving the parameters (`parameterAsSource`, `parameterAsVectorLayer`) becomes the inputs `reference: Option<seq<Feature>>` and `inputFound: bool`. The model assumes that iterating `getFeatures()` yields exactly `featureCount()` features, that is, that the host skips no feature. The check against four and the loop both use the length of that one sequence. A provider that reports an unknown count (-1) is not modelled.
- Geometries are reduced to LineString, MultiLineString and every other WKB type. 2.5D and measured line types (`LineStringZ`, ...) fall into the third group, as the equality tests on `wkbType()` treat them.
- `str(float)` is the parameter `str: real -> string`. Python's float repr is not modelled. The round trip assumes only that it writes numbers without a space, as repr does.
- PolynomialTransformation.Tokens: splits only on single spaces. It stands for how the options are read back, not for GDAL's full option tokenizer (quotes, repeated blanks).
- StartsWithFunction.StartsWith: models a string `compare_string` only. A tuple of prefixes, the optional start/end arguments and the `TypeError` for other types are not modelled. `str(input_string)` is the parameter `str`.
- EndsWithFunction.EndsWith: the same restriction to a string `compare_string`.
- FtpUploadProcessing.py is not part of this model: a network upload.
- UnzipArchiveProcessing.py is not part of this model: file-system access and a foreign unzip call.
- Ili2PgExportProcessingAlgorithm.py and Ili2PgValidateProcessingAlgorithm.py are not part of this model: database connection lookup and an external process.
