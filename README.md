# Asteriods, modelled in Dafny

A model of the core of the "Asteriods" SDL game. It covers:

- **The outline generator of `bezier_shapes.h`.** It draws random seed points,
  sorts them counter-clockwise around their centroid, picks a tangent at every
  vertex and joins the vertices with cubic Bezier segments.
- **`generateAsteroidModel`.** It turns that curve into a centred outline of
  unit radius, or falls back to a jittered polygon.
- **The high-score file.** This covers the line `saveHighScore` appends and how
  `getHighScores` parses, ranks and formats the file.
- **Keyboard and mouse state (class `Input`).**
- **The menu flags and the name buffer of class `Menus`.**
- **The game's screen transitions, Back handlers and name entry.**
- **The rules applied in each frame of play.** Every bullet is tested against
  every asteroid. A hit asteroid larger than 16 splits into two pieces worth
  100 points. Dead and off-screen objects are removed. A cleared field brings a
  new wave worth 1000 points.

## How the model is built

**Pure and imperative code.** The pure helpers of `bezier_shapes.h` are Dafny
functions. The loops of the source are methods with loop invariants, proved
against those functions.

**Objects with state.** The objects whose fields the source updates are classes:

- `Inputs.Input`, `MenuSystem.Menus` and `Game.Asteriods`;
- the four control points of a `Segment`, which live in an `array`;
- the sorts, which run in place on an array.

**Things supplied as parameters.** These pieces of the source are not modelled
and enter as parameters:

- **Maths functions.** `sqrt`, `atan2`, `atan`, `sin` and `cos` are fields of a
  `Math` value. `Math.Valid()` lists the only facts assumed about them:
  - `sqrt` is the non-negative square root;
  - `cos² + sin² = 1`;
  - `atan` takes values in (-π/2, π/2);
  - `atan(0) = 0`.
- **Random numbers.**
  - The outline code draws uniform reals, given as `draw: nat -> real` with a
    cursor.
  - The outline code also draws C `rand()` values, given as `crand: nat -> nat`
    with a cursor.
  - In play, the headings of the asteroids created and the safe spawn spots are
    a `Chance` value, indexed by creation order.
- **The collision test.** It is a `Collider` parameter.
- **SDL events.** They arrive as a sequence of `Event` values.
- **The high-score file.** It is a string. An unreadable file is `None`.

**Numbers.** Integers are unbounded and `double`/`float` are exact reals.

## Model

| member | source | states |
|---|---|---|
| Numeric.Fmod | Asteriods/bezier_shapes.h:192 | For a positive divisor the remainder lies strictly between -y and y. It has the sign of the dividend. An input already in [0, y) is returned unchanged. |
| Numeric.NormalizeAnglePositive | Asteriods/bezier_shapes.h:191-197 | The result lies in [0, 2π). An angle already in that range is unchanged. The result differs from the input by a whole number of turns. |
| Numeric.Pow | Asteriods/bezier_shapes.h:79 | pow(t, 0) is 1 (0⁰ included). 0 to a positive power is 0. 1 to any power is 1. |
| Geometry.Point.MagSq | Asteriods/bezier_shapes.h:36-38 | magSq is non-negative and equals the dot product of the point with itself. |
| Geometry.MagFacts | Asteriods/bezier_shapes.h:39-41 | mag is non-negative and its square is magSq. |
| Geometry.SumRecentred | Asteriods/main.cpp:683-699 | Shifting n points by c shifts their sum by n·c. |
| Geometry.CentroidOfRecentredIsOrigin | Asteriods/main.cpp:683-699 | Points shifted by their own centroid have their centroid at the origin. |
| Geometry.ComputeCentroid | Asteriods/bezier_shapes.h:174-180 | The accumulate-then-divide loop yields the centroid of a non-empty point list. |
| Sampling.Linspace | Asteriods/bezier_shapes.h:45-57 | num ≤ 0 gives the empty list and 1 gives [start]. Otherwise there are num samples from start to end exactly, with equal steps (end - start)/(num - 1). |
| Sampling.Pascal | Asteriods/bezier_shapes.h:60-75 | The binomial coefficient the loop computes obeys Pascal's rule. |
| Sampling.ChooseSymmetric | Asteriods/bezier_shapes.h:67-69 | C(n, k) = C(n, n-k), which justifies the k := n - k shortcut. |
| Sampling.ChooseAbsorb | Asteriods/bezier_shapes.h:71-73 | (Absorption) k·C(n, k) = n·C(n-1, k-1). |
| Sampling.BinomStep | Asteriods/bezier_shapes.h:72 | Each step res·(n-i+1)/i is an exact division taking C(n, i-1) to C(n, i). |
| Sampling.Binom | Asteriods/bezier_shapes.h:60-75 | The result is 0 outside 0 ≤ k ≤ n, 1 at either end, and the binomial coefficient C(n, k) in general. |
| Sampling.Bernstein | Asteriods/bezier_shapes.h:78-80 | The result is 0 for k out of range. At t = 0 only the basis k = 0 is 1, and at t = 1 only k = n is 1. |
| BezierCurves.BezierCurve | Asteriods/bezier_shapes.h:83-98 | The curve has num samples, or none for no control points. |
| BezierCurves.PartialSumAtZero | Asteriods/bezier_shapes.h:90-96 | At t = 0 the weighted sum is the first control point. |
| BezierCurves.PartialSumAtOne | Asteriods/bezier_shapes.h:90-96 | At t = 1 every control point but the last has weight 0. |
| BezierCurves.BezierEndpoints | Asteriods/bezier_shapes.h:83-98 | The curve starts at the first control point and ends at the last. |
| BezierCurves.Bezier | Asteriods/bezier_shapes.h:83-98 | The nested accumulation loop equals the Bernstein sum at each of the num linspace parameters. Its endpoints are the first and last control points. |
| Segments.CalcIntermediatePoints | Asteriods/bezier_shapes.h:131-134 | Only control points 1 and 2 change. They become p1 + r·(cos a1, sin a1) and p2 + r·(cos(a2+π), sin(a2+π)). |
| Segments.FilledControls | Asteriods/bezier_shapes.h:120-124 | The end points in slots 0 and 3, with the two handles written between them, form the control polygon. |
| Segments.NewSegment | Asteriods/bezier_shapes.h:112-128 | The control polygon is p1, two handles, p2, and the curve is the Bezier curve of it. The curve has numpoints samples and runs from p1 to p2. |
| Segments.RDistFacts | Asteriods/bezier_shapes.h:117-119 | r_dist is non-negative and equals r_factor times the distance from p1 to p2. |
| Segments.HandleLengths | Asteriods/bezier_shapes.h:132-133 | Both inner control points lie exactly r_dist from their endpoint. |
| Segments.SegmentsOf | Asteriods/bezier_shapes.h:147-161 | With fewer than two vertices there are no segments. Otherwise there is one per consecutive pair. |
| Segments.FlattenLength | Asteriods/bezier_shapes.h:163-166 | Concatenating segments of num samples each gives (number of segments)·num points. |
| Segments.FlattenAt | Asteriods/bezier_shapes.h:163-166 | Sample j of segment k sits at index k·num + j of the concatenation. |
| Segments.SegmentsInterpolate | Asteriods/bezier_shapes.h:152-161 | Segment k starts at vertex k and ends at vertex k+1. |
| Segments.CurveThroughVertices | Asteriods/bezier_shapes.h:143-168 | The full curve passes through every vertex, at the first and the last sample of each segment. |
| Segments.GetCurve | Asteriods/bezier_shapes.h:143-168 | It returns the segments of consecutive vertices and their concatenated samples. Both are empty for fewer than two vertices. |
| Sorting.InsertionSort | Asteriods/bezier_shapes.h:182-186 | Under a total preorder the array ends sorted and is a permutation of what it held. This is the std::sort of ccw_sort and getHighScores. |
| Sorting.SortedUnique | Asteriods/main.cpp:928 | Under an antisymmetric order, two sorted permutations of the same list are equal. |
| Ccw.AngleLe | Asteriods/bezier_shapes.h:182-186 | The comparison holds iff the atan2 angle about the centroid is not larger. |
| Ccw.CcwSort | Asteriods/bezier_shapes.h:171-188 | Empty input gives empty output. Otherwise the output is a permutation of the input in non-decreasing angle about its centroid. |
| Ccw.CcwOrdersAgreeOnAngles | Asteriods/bezier_shapes.h:171-188 | Any two such orders are permutations of each other with the same angle at every position. The result is fixed up to ties. |
| BezierShape.Weight | Asteriods/bezier_shapes.h:209 | p_edgy_factor lies strictly between 0 and 1 and is 1/2 for edgy = 0. |
| BezierShape.BlendTangentFacts | Asteriods/bezier_shapes.h:236-243 | The vertex tangent lies in [0, 2π). Two equal normalised edge angles give that angle. |
| BezierShape.BlendBetween | Asteriods/bezier_shapes.h:239 | Before the π correction, the blend lies between the two edge angles. |
| BezierShape.BlendStep | Asteriods/bezier_shapes.h:239-243 | The blend-plus-correction the loop computes, once normalised, is BlendTangent. |
| BezierShape.CloseLoop | Asteriods/bezier_shapes.h:213-220 | The sorted points with angle 0, followed by the first point again. |
| BezierShape.SegmentAngles | Asteriods/bezier_shapes.h:224-228 | Entry k is the normalised direction of the edge from vertex k to vertex k+1, closing the loop. |
| BezierShape.TangentAngles | Asteriods/bezier_shapes.h:232-244 | Entry k blends edge k with edge k-1 (the last edge for k = 0). |
| BezierShape.WriteAngles | Asteriods/bezier_shapes.h:246-251 | Vertex k takes tangent k and the closing copy takes tangent 0. Points are untouched. |
| BezierShape.Coordinates | Asteriods/bezier_shapes.h:257-260 | The x and y columns of the curve, in order. |
| BezierShape.GetBezierCurve | Asteriods/bezier_shapes.h:206-263 | Empty input gives an empty result. Otherwise the augmented points are a counter-clockwise order of the input plus a closing copy, with the blended tangents. The coordinates are the concatenated segment samples: 100 per input point, with the first sample equal to the last. |
| BezierShape.ClosedCurve | Asteriods/bezier_shapes.h:249-253 | When the last augmented point repeats the first, the curve is closed. |
| RandomPoints.MinDist | Asteriods/bezier_shapes.h:283 | A non-negative threshold is kept. A negative one becomes 0.7/n. |
| RandomPoints.ThresholdStable | Asteriods/bezier_shapes.h:283 | The threshold passed to the retry is the same threshold. |
| RandomPoints.Draws | Asteriods/bezier_shapes.h:287-290 | Point i takes draws 2i and 2i+1 after the cursor. Which of the two becomes x is the model's choice. |
| RandomPoints.Scaled | Asteriods/bezier_shapes.h:320-322 | Every point is multiplied by scale. |
| RandomPoints.DrawPoints | Asteriods/bezier_shapes.h:287-290 | It fills n points from the draws and advances the cursor by 2n. |
| RandomPoints.ScaleInPlace | Asteriods/bezier_shapes.h:320-322 | The array is scaled in place. |
| RandomPoints.Distances | Asteriods/bezier_shapes.h:298-307 | Entry i is abs(dx + dy) from sorted point i to the next, with the last entry wrapping to the first. |
| RandomPoints.AllAtLeast | Asteriods/bezier_shapes.h:309-317 | The flag is true iff every distance reaches the threshold. |
| RandomPoints.SpacingOk | Asteriods/bezier_shapes.h:296-317 | The test passes only when some counter-clockwise order of the draws is well spaced. It fails only when some such order has a gap below the threshold. |
| RandomPoints.AcceptOutcome | Asteriods/bezier_shapes.h:319-323 | A draw that is well spaced, or at the recursion cap, is accepted after zero retries. |
| RandomPoints.RetryOutcome | Asteriods/bezier_shapes.h:324-326 | A draw that failed the spacing test, followed by the recursive call's outcome on the next draws, is an outcome with one more retry. |
| RandomPoints.OutcomeIsDetermined | Asteriods/bezier_shapes.h:319-326 | When no attempt passes in one counter-clockwise order and fails in another, there is only one outcome. It is the first well-spaced attempt, or the attempt at depth 200. |
| RandomPoints.GetRandomPoints | Asteriods/bezier_shapes.h:278-327 | n = 0 gives no points and consumes no draws. Otherwise the result has n points: the scaled draws of the last attempt, with the cursor past every attempt. Every earlier attempt failed the spacing test. The last one passed it, unless it was made at recursion depth 200. |
| AsteroidModel.RandUnit | Asteriods/main.cpp:674 | rand()/RAND_MAX lies in [0, 1]. |
| AsteroidModel.BasePointCount | Asteriods/main.cpp:673 | 5 + rand() % 5 lies in 5..9. |
| AsteroidModel.RadFactor | Asteriods/main.cpp:674 | The radius factor lies in [0.2, 0.7]. |
| AsteroidModel.EdgyFactor | Asteriods/main.cpp:675 | The edginess lies in [0.1, 0.7]. |
| AsteroidModel.FallbackVertexCount | Asteriods/main.cpp:719 | 8 + rand() % 8 lies in 8..15. |
| AsteroidModel.FallbackRadius | Asteriods/main.cpp:722 | The vertex radius lies in [0.7, 1.3]. |
| AsteroidModel.FallbackPolygon | Asteriods/main.cpp:719-725 | The fallback polygon has 8 to 15 vertices. |
| AsteroidModel.FallbackVertexOnCircle | Asteriods/main.cpp:722-724 | Each fallback vertex lies on the circle of its radius factor. |
| AsteroidModel.MaxMag | Asteriods/main.cpp:696-704 | The running maximum is non-negative. |
| AsteroidModel.MaxMagIsMax | Asteriods/main.cpp:696-704 | No point is longer than the running maximum, and the maximum is 0 or the length of some point. |
| AsteroidModel.Normalized | Asteriods/main.cpp:706-713 | Every point is divided by k. |
| AsteroidModel.NormalizedInUnitDisc | Asteriods/main.cpp:706-713 | Dividing by the maximum length puts every point in the unit disc. |
| AsteroidModel.SumNormalized | Asteriods/main.cpp:706-713 | Dividing by k divides the sum by k. |
| AsteroidModel.NormalizedStaysCentred | Asteriods/main.cpp:683-713 | A centred outline stays centred after the division. |
| AsteroidModel.Pairs | Asteriods/main.cpp:684-686 | Point i is (x_i, y_i). |
| AsteroidModel.PairsOfCoordinates | Asteriods/main.cpp:684-686 | Splitting a curve into columns and pairing them back gives the curve. |
| AsteroidModel.CollectPoints | Asteriods/main.cpp:682-693 | It pairs the columns and returns their centroid. |
| AsteroidModel.RecentreInPlace | Asteriods/main.cpp:696-704 | Subtracts the centroid in place and returns the largest length. |
| AsteroidModel.RecentredCopy | Asteriods/main.cpp:737-744 | The same, building a new list (the fallback's loop). |
| AsteroidModel.NormalizeBy | Asteriods/main.cpp:706-713 | The normalising loop yields Normalized. |
| AsteroidModel.DrawFallbackPolygon | Asteriods/main.cpp:719-725 | The loop yields FallbackPolygon and consumes 1 + verts rand() values. |
| AsteroidModel.NormalizeOutline | Asteriods/main.cpp:681-714 | With at least 3 samples and a maximum length above 1e-6, the outline is centred and normalised; otherwise it is empty. |
| AsteroidModel.Fallback | Asteriods/main.cpp:716-760 | The fallback model of the polygon drawn. |
| AsteroidModel.BezierResultIsShapeCurve | Asteriods/main.cpp:678-679 | The result of get_bezier_curve on the seeds is the outline curve of those seeds. |
| AsteroidModel.GenerateAsteroidModel | Asteriods/main.cpp:670-762 | The model has at least 3 points. It is the normalised Bezier outline when that outline is not degenerate, and the fallback polygon model otherwise. The seeds are the outcome of get_random_points, as RandomPoints.Outcome states it. The rand() values consumed are stated exactly. |
| AsteroidModel.SuccessModelIsUnitAndCentred | Asteriods/main.cpp:706-713 | A successful model has its centroid at the origin and every point in the unit disc. |
| AsteroidModel.FallbackModelShape | Asteriods/main.cpp:717-759 | A fallback model has 8 to 15 points and, once normalised, is centred and in the unit disc. |
| HighScores.Find | Asteriods/main.cpp:909-910 | It gives the first index of the delimiter, or None iff the delimiter is absent. |
| HighScores.GetLine | Asteriods/main.cpp:901-910 | getline fails iff nothing is left to read, and otherwise consumes input. |
| HighScores.SkipSpace | Asteriods/main.cpp:912 | Drops exactly the leading isspace characters. |
| HighScores.WordLength | Asteriods/main.cpp:912 | Counts the longest prefix without whitespace. |
| HighScores.Word | Asteriods/main.cpp:912 | A word read by >> is non-empty and contains no whitespace. |
| HighScores.DigitRun | Asteriods/main.cpp:914 | Counts the longest prefix of decimal digits. |
| HighScores.Stoi | Asteriods/main.cpp:913-920 | A parsed score fits in 32 bits. Out-of-range and digit-less words are rejected. |
| HighScores.SignedDigits | Asteriods/main.cpp:913-920 | The same, after the sign has been taken off. |
| HighScores.NatToString | Asteriods/main.cpp:969 | Non-empty and all digits. |
| HighScores.IntToString | Asteriods/main.cpp:969 | Non-empty, with no whitespace and no quote. |
| HighScores.NatToStringValue | Asteriods/main.cpp:969 | The digits printed for n read back as n. |
| HighScores.StoiOfIntToString | Asteriods/main.cpp:914 | stoi of a printed 32-bit score gives the score back. |
| HighScores.StoiOfUnsigned | Asteriods/main.cpp:914 | stoi of a digit string in range is its value. |
| HighScores.StoiOfNegative | Asteriods/main.cpp:914 | stoi of '-' and a digit string in range is minus its value. |
| HighScores.NegatedDigits | Asteriods/main.cpp:914 | A negated digit string down to INT_MIN is accepted. |
| HighScores.AllDigits | Asteriods/main.cpp:914 | A string of digits is one digit run. |
| HighScores.ParseLine | Asteriods/main.cpp:902-923 | A parsed line has a 32-bit score and a name without quotes. |
| HighScores.ParsedEntries | Asteriods/main.cpp:901-924 | Each line gives at most one entry. |
| HighScores.SavedName | Asteriods/main.cpp:968 | An empty name is saved as "Player". Any other name is saved as itself. |
| HighScores.SavedRecord | Asteriods/main.cpp:969 | A name without a newline gives a record without a newline. |
| HighScores.SavedRecordParses | Asteriods/main.cpp:902-923 | The record written for a quote-free name and a 32-bit score parses back to that score and saved name. |
| HighScores.WordsOfScore | Asteriods/main.cpp:912 | After the name, >> reads ":" and then the score digits. |
| HighScores.WordOfColon | Asteriods/main.cpp:912 | The first >> after the name reads ":". |
| HighScores.WordOfDigits | Asteriods/main.cpp:912 | The second >> reads the whole score. |
| HighScores.GetLineAtFirstDelimiter | Asteriods/main.cpp:909-910 | getline stops at the first delimiter and consumes it. |
| HighScores.GetLineWithoutDelimiter | Asteriods/main.cpp:901 | Without a delimiter, getline takes the rest. |
| HighScores.AllWord | Asteriods/main.cpp:912 | A string without whitespace is one word. |
| HighScores.LinesAppend | Asteriods/main.cpp:901 | Appending a line and "\n" to a file that ends with a newline adds exactly that line. |
| HighScores.LinesCons | Asteriods/main.cpp:901 | A first line followed by "\n" is read first. |
| HighScores.SaveThenRead | Asteriods/main.cpp:894-975 | Saving a score adds exactly the entry (score, saved name) to what getHighScores parses, after the entries already there. |
| HighScores.ParsedEntriesSnoc | Asteriods/main.cpp:901-924 | A parsable last line adds its entry. An unparsable one adds nothing. |
| HighScores.StrLessIrreflexive | Asteriods/main.cpp:928 | The string order used to break ties is irreflexive. |
| HighScores.StrLessTrichotomy | Asteriods/main.cpp:928 | It is total and asymmetric. |
| HighScores.StrLessTransitive | Asteriods/main.cpp:928 | It is transitive. |
| HighScores.RankedBefore | Asteriods/main.cpp:928 | p may precede q in the reverse sort iff (score, name) of p is not less than that of q. |
| HighScores.RankingOrder | Asteriods/main.cpp:928 | That order is a total preorder and antisymmetric. |
| HighScores.RankingUnique | Asteriods/main.cpp:928 | The descending order of a list of entries is unique. |
| HighScores.Display | Asteriods/main.cpp:931-947 | It shows 1 to 10 lines: "name - score" for the first entries, or the placeholder when there are none. |
| HighScores.ParseAll | Asteriods/main.cpp:901-924 | The reading loop yields ParsedEntries of the lines. |
| HighScores.Rank | Asteriods/main.cpp:928 | The reverse sort yields the ranking of the entries. |
| HighScores.FormatAll | Asteriods/main.cpp:931-933 | One "name - score" string per entry, in order. |
| HighScores.TopTen | Asteriods/main.cpp:940-947 | Truncates to 10, or gives the placeholder when empty. |
| HighScores.ShownOfRanking | Asteriods/main.cpp:931-947 | The formatted and truncated list is Display of the ranking. |
| HighScores.GetHighScores | Asteriods/main.cpp:894-950 | An unreadable file gives just the placeholder. A readable one gives Display of the descending ranking of its parsed lines, so 1 to 10 lines. |
| HighScores.DisplayIsDescending | Asteriods/main.cpp:927-928 | In a ranking, scores never increase. |
| Inputs.ButtonName | Asteriods/input.h:60-64 | Only the left, middle and right buttons have a flag. |
| Inputs.MouseAfterSetsOnlyItsFlag | Asteriods/input.h:60-64 | A known button sets its own flag. An unknown button changes nothing, and every other flag is kept. |
| Inputs.RemoveFirst | Asteriods/input.h:35-37 | erase(find(k)) drops one copy of k if there is one, and otherwise leaves the list unchanged. |
| Inputs.Input.constructor | Asteriods/input.h:10-16 | No quit and empty key lists. The left, right and middle flags are all false. |
| Inputs.Input.ResetStates | Asteriods/input.h:17-19 | Clears this frame's presses and releases only. |
| Inputs.Input.UpdateMouse | Asteriods/input.h:60-64 | Only the mouse flags change, as MouseAfter. |
| Inputs.Input.HandleEvent | Asteriods/input.h:23-44 | One event applied as Step. |
| Inputs.Input.Update | Asteriods/input.h:20-46 | The new state is Run of the frame's events from the reset state. |
| Inputs.Input.ShouldQuit | Asteriods/input.h:47 | Returns the quit flag. |
| Inputs.Input.KeyDown | Asteriods/input.h:49 | True iff k was pressed this frame. |
| Inputs.Input.KeyUp | Asteriods/input.h:51 | True iff k was released this frame. |
| Inputs.Input.KeyHeld | Asteriods/input.h:53 | True iff k is held. |
| Inputs.Input.GetMouseStates | Asteriods/input.h:55 | The button flags. |
| Inputs.Input.GetKeysDown | Asteriods/input.h:57 | The keys pressed this frame. |
| Inputs.FindKey | Asteriods/input.h:28-35 | std::find returns the first index holding k, or the end. |
| Inputs.EraseIsRemoveFirst | Asteriods/input.h:35-37 | Erasing at the found index is RemoveFirst. |
| Inputs.StepKeepsHeldDistinct | Asteriods/input.h:26-40 | A key is never held twice. |
| Inputs.RemoveFirstKeepsDistinct | Asteriods/input.h:35-37 | Releasing a key from a list of distinct keys removes it entirely. |
| Inputs.RemoveFirstMembers | Asteriods/input.h:35-37 | Other keys keep their membership. |
| Inputs.DistinctCons | Asteriods/input.h:28-30 | Adding a key not held keeps the list distinct. |
| Inputs.RunKeepsHeldDistinct | Asteriods/input.h:20-46 | No key is ever held twice, over any sequence of events. |
| Inputs.PressAndRelease | Asteriods/input.h:26-40 | A press holds the key and records it once. A repeated press is ignored. A release of a held key frees it and records it. An unheld release is ignored. Other keys are unaffected. |
| Inputs.QuitIsSticky | Asteriods/input.h:23-25 | Once set, quit stays set, and a Quit event sets it. |
| Inputs.ResetKeepsHeld | Asteriods/input.h:17-19 | A reset keeps the held keys, the mouse flags and quit. |
| Inputs.RunKeepsMouseFlags | Asteriods/input.h:41-64 | The three mouse flags are the only mouse entries, forever. |
| Inputs.StepKeepsMouseFlags | Asteriods/input.h:41-64 | No event adds or removes a mouse flag. |
| Inputs.MouseAfterKeepsKeys | Asteriods/input.h:60-64 | updateMouse only updates the three existing flags. |
| MenuSystem.InitialMenuFlags | Asteriods/menus.h:65-71 | There are seven flags and only mainMenu is on. |
| MenuSystem.Menus.constructor | Asteriods/menus.h:63-107 | The initial flags and an empty name. |
| MenuSystem.EditAllSnoc | Asteriods/menus.h:249-258 | Keys are applied one after another. |
| MenuSystem.EditNameEffect | Asteriods/menus.h:249-258 | Backspace drops the last character of a non-empty name. Space appends a blank. A single character is appended while the name is under 20 characters. Anything else is ignored. |
| MenuSystem.EditNameKeepsLimit | Asteriods/menus.h:256 | Apart from Space, no key takes a name past 20 characters. |
| MenuSystem.EditAllKeepsLimit | Asteriods/menus.h:249-258 | Any key sequence without Space keeps a name within 20 characters. |
| MenuSystem.SpacePassesLimit | Asteriods/menus.h:254-255 | Space lengthens any name, even past the limit. |
| MenuSystem.Menus.HandleTextInput | Asteriods/menus.h:249-258 | The name becomes EditName of the old name. The flags are unchanged. |
| MenuSystem.Menus.GetCurrentNameInput | Asteriods/menus.h:264-266 | Returns the name buffer. |
| MenuSystem.Menus.ClearCurrentNameInput | Asteriods/menus.h:268-273 | Empties the name and keeps the flags. |
| MenuSystem.Menus.BackFromControls | Asteriods/menus.h:380-385 | The flags become ReturnFlags for "controls". The name is kept. |
| MenuSystem.Menus.BackFromVolume | Asteriods/menus.h:436-441 | The flags become ReturnFlags for "volume". |
| MenuSystem.Menus.BackFromHighScore | Asteriods/menus.h:532-533 | highScore is turned off, then mainMenu on. |
| MenuSystem.ReturnFlagsEffect | Asteriods/menus.h:380-385 | Back turns its own flag off and the menu it came from on, and keeps every other flag. |
| MenuSystem.HighscoreLabels | Asteriods/menus.h:517-525 | Lists the first min(10, n) scores, in order. |
| Game.MarkAsteroidStep | Asteriods/main.cpp:409-414 | One more bullet kills an asteroid exactly when it hits. |
| Game.MarkBulletStep | Asteriods/main.cpp:409-414 | One more asteroid kills a bullet exactly when it is hit. |
| Game.SplitsByStep | Asteriods/main.cpp:410-433 | A hit asteroid larger than 16 is added to the splits. |
| Game.PairStep | Asteriods/main.cpp:411-415 | Marking bullet i and asteroid j dead on a hit extends the hit pass by one pair. |
| Game.HitByAnyIff | Asteriods/main.cpp:409-411 | An asteroid is hit iff some bullet touches it. |
| Game.HitsAnyIff | Asteriods/main.cpp:409-411 | A bullet hits iff it touches some asteroid. |
| Game.SplitsBy | Asteriods/main.cpp:410-433 | A bullet splits at most as many asteroids as there are. |
| Game.Pieces | Asteriods/main.cpp:417-431 | Two pieces per split. |
| Game.PiecesSnoc | Asteriods/main.cpp:418-431 | A split appends two pieces at the parent's place with the next two headings. |
| Game.SplitPieces | Asteriods/main.cpp:418-431 | The two new pieces depend only on the parent's position and size, not on its alive flag. |
| Game.PiecesHalve | Asteriods/main.cpp:417-431 | Every piece is alive and half its parent's size, so of size at least 8. |
| Game.PiecesAreAlive | Asteriods/main.cpp:420-431 | Every piece is alive. |
| Game.SplitParentsAreLarge | Asteriods/main.cpp:417 | Only asteroids of the field larger than 16 split. |
| Game.SplitsByAreLarge | Asteriods/main.cpp:410-417 | A bullet's splits are large asteroids of the field that it touches. |
| Game.Keep | Asteriods/main.cpp:450-462 | erase(remove_if) keeps exactly the elements that satisfy the test. |
| Game.Wave | Asteriods/main.cpp:467-475 | A wave has three asteroids. |
| Game.FrameLeavesLiveField | Asteriods/main.cpp:407-476 | After a frame the field is non-empty and all alive. When every size was 16, 32 or 64 before the frame, every size still is. |
| Game.FrameScoreRises | Asteriods/main.cpp:432-476 | The 1000 bonus is paid exactly when the frame clears the field: nothing split, and every asteroid was already dead or was hit. The field is then the new wave. Otherwise the score rises by 100 per split. It never falls. |
| Game.FrameBulletsAreSurvivors | Asteriods/main.cpp:409-456 | The bullets kept are exactly the live, on-screen bullets that touch no asteroid. |
| Game.FrameAsteroidsAreSurvivors | Asteriods/main.cpp:409-462 | Unless the field is cleared, the asteroids kept are exactly the pieces and the live asteroids no bullet touched. |
| Game.DoubleHitSplitsTwice | Asteriods/main.cpp:409-433 | Dead asteroids are tested again: a large asteroid touched by two bullets splits twice, giving four pieces and 200 points. |
| Game.TwoSplits | Asteriods/main.cpp:409-433 | Two touching bullets record the asteroid twice. |
| Game.KeepAllAlive | Asteriods/main.cpp:457-462 | Removing the dead from dead-then-live leaves the live ones. |
| Game.KeepNone | Asteriods/main.cpp:457-462 | Removing the dead from the dead leaves nothing. |
| Game.NoHitNoSplit | Asteriods/main.cpp:411 | Without any contact nothing splits. |
| Game.NoHitBy | Asteriods/main.cpp:411 | A bullet touching nothing splits nothing. |
| Game.ForwardedKeys | Asteriods/main.cpp:977-993 | Only forwarded keys remain. |
| Game.ForwardedSnoc | Asteriods/main.cpp:979-991 | Keys are filtered one after another. |
| Game.EditKeepsClean | Asteriods/main.cpp:983-990 | A forwarded key keeps a name of letters, digits and blanks. |
| Game.TypedNameIsClean | Asteriods/main.cpp:977-993 | Any typed name holds only letters, digits and blanks. |
| Game.CleanNameRoundTrip | Asteriods/main.cpp:958-975 | A typed name survives the high-score file unchanged. |
| Game.MenuFlag | Asteriods/menus.h:65-71 | Every menu state has one of the seven flags. |
| Game.MenuOrigin | Asteriods/main.cpp:869-877 | The return state is the pause menu iff the menu was opened from it. |
| Game.BackAgreesWithMenus | Asteriods/main.cpp:811-828 | The game's Back handler goes to the state whose flag the menu's Back lambda switches on, and the menu's own flag is off. |
| Game.Asteriods.constructor | Asteriods/main.cpp:57-77 | Main menu, score 0, no bullets, three opening asteroids of size 64 at speed 3, and fresh menus. |
| Game.Asteriods.StartGame | Asteriods/main.cpp:848-852 | resetGame and play: score 0, no bullets, a new opening wave. |
| Game.Asteriods.ResumeGame | Asteriods/main.cpp:854-857 | Back to play with nothing else changed. |
| Game.Asteriods.ShowGameOverScreen | Asteriods/main.cpp:859-861 | Game over, nothing else changed. |
| Game.Asteriods.ShowHighscoreRecordingScreen | Asteriods/main.cpp:863-867 | Name entry, remembering game over, with an empty name. The flags, score, file and field are unchanged. |
| Game.Asteriods.ShowControls | Asteriods/main.cpp:869-873 | The controls menu, remembering where it was opened from. The score, menus, file, asteroids and bullets are unchanged. |
| Game.Asteriods.ShowVolume | Asteriods/main.cpp:875-879 | The volume menu, remembering where it was opened from. The score, menus, file, asteroids and bullets are unchanged. |
| Game.Asteriods.ShowHighScores | Asteriods/main.cpp:881-884 | The high-score menu, returning to the main menu. The score, menus, file, asteroids and bullets are unchanged. |
| Game.Asteriods.ReturnToMainMenu | Asteriods/main.cpp:886-888 | The main menu. The score, menus, file, asteroids and bullets are unchanged. |
| Game.Asteriods.BackFromControls | Asteriods/main.cpp:811-819 | The menu lambda and then the game handler. The state and the flags agree on where to go back to. previousState, the score, the file, asteroids and bullets are unchanged. |
| Game.Asteriods.BackFromVolume | Asteriods/main.cpp:821-829 | The same for the volume menu, with the same fields unchanged. |
| Game.Asteriods.BackFromHighScore | Asteriods/main.cpp:831-833 | Back to the main menu, with the flags updated. previousState, the score, the file, asteroids and bullets are unchanged. |
| Game.Asteriods.HandleNameInput | Asteriods/main.cpp:977-993 | On the recording screen the name becomes EditAll of the forwarded keys. Elsewhere it is unchanged. |
| Game.Asteriods.SubmitName | Asteriods/main.cpp:796-799 | Appends the saved line to the file and returns to the main menu. previousState, the score, menus, asteroids and bullets are unchanged. |
| Game.Asteriods.ResolveHits | Asteriods/main.cpp:407-443 | Every asteroid and bullet is marked dead iff something touched it. The pieces are the pieces of every split, in order, and the score gains 100 per split. |
| Game.Asteriods.ResolveBullet | Asteriods/main.cpp:410-435 | One bullet against every asteroid. |
| Game.Asteriods.ResolvePair | Asteriods/main.cpp:411-433 | One bullet against one asteroid. |
| Game.Asteriods.MarkPair | Asteriods/main.cpp:411-415 | The hit test sees the original asteroid and bullet. On a hit both are marked dead, and the pass moves on by one asteroid. |
| Game.Asteriods.MergePieces | Asteriods/main.cpp:445-447 | The pieces are appended to the asteroids. |
| Game.Asteriods.RefillIfEmpty | Asteriods/main.cpp:464-476 | An empty field gets a wave of three at speed 2.5 and 1000 points. |
| Game.Asteriods.RenderGameplay | Asteriods/main.cpp:407-476 | The asteroids, bullets and score after the frame are FrameAsteroids, FrameBullets and FrameScore. |
| Game.SpawnWave | Asteriods/main.cpp:467-475 | The spawn loop yields Wave. |
| Game.RemoveIf | Asteriods/main.cpp:450-462 | erase(remove_if) yields Keep. |

## Left out

- Rendering, SDL windows, fonts, sound, the UI elements and labels (`setText`), and the player ship with its physics (updateGameplay) are not modelled: they are presentation, or lie outside the rules above.
- `Collide`, `getSafeSpawn` and `rand()` in play are parameters (`Collider`, `Chance`). The model fixes only how their results are used, not their values. Headings are indexed by the order asteroids are created, which ignores the `rand()` calls that `generateAsteroidModel` makes in between.
- menuBackgroundUpdate (main.cpp:218-260) is not modelled. In the controls and volume menus, even when they are opened from pause, it moves the asteroids and spawns new ones of size 16 + rand() % 48. So an asteroid of non-standard size can enter play after pause, controls, Back and resume. Game.FrameLeavesLiveField therefore assumes standard sizes rather than proving them for every reachable state.
- Game.SpaceObject: the outline of an asteroid is not a field. Each piece and wave asteroid gets a fresh outline from `generateAsteroidModel`, which is modelled separately.
- Game.Asteriods.constructor: `previousState` is left uninitialised by the source; the model starts it as MainMenu.
- Game.Asteriods.SubmitName: opening or creating the file and its failure are not modelled; the append always succeeds.
- HighScores.GetHighScores: the file is given as a string or as None for an unopened file; reading errors part way through are not modelled.
- No integer overflow is modelled: `binom`'s `long long`, the score and the loop counters are unbounded. HighScores.Stoi does model stoi's 32-bit range.
- Floating point is modelled as exact reals: `float` and `double` rounding, `sinf`/`cosf` precision and the float casts of generateAsteroidModel are not captured.
- Numeric.Fmod is exact on reals, a stronger statement than the library's rounding-dependent result.
- Transcendental functions are parameters with only the Math.Valid() facts assumed about them.
- AsteroidModel.GenerateAsteroidModel: the final square fallback (main.cpp, lines 754-759) is unreachable, because the fallback polygon always has at least 8 vertices, so it is not modelled.
- RandomPoints.GetRandomPoints: the `distances.empty() && n > 1` test (bezier_shapes.h:310) can never hold, so it is not modelled.
- BezierShape.GetBezierCurve: the early returns for fewer than two augmented points and for no segment angles (bezier_shapes.h:222, 230) cannot happen after a point is appended, so they are not modelled.
- HighScores.StrLess: names are compared by character code. `std::string`'s `operator<` compares characters as `unsigned char`, so for names held as bytes the order is the same. Only the mapping of multi-byte UTF-8 names to `char` sequences is not modelled.
- Game.IsAlnum and HighScores.IsSpace: `isalnum` and `isspace` follow the C locale.
- MenuSystem.EditName: Space is not bound by the 20-character limit, exactly as in the source (SpacePassesLimit states it).
- The pause menu's Restart button and the restart button do `resetGame` and then start play, which is StartGame without clearing menu elements; they have no member of their own.
- Volume buttons (`increaseVolume`, `decreaseVolume`) have empty bodies and `quitGame` only stops the main loop; they are not modelled.
