# Hair-colour matching and lightening calculator

A Dafny model of the colour logic of a salon management app, and proofs
about it. The app detects a client's base hair shade from a "before" photo,
matches it against a fixed catalogue of nineteen reference shades, and
computes a lightening plan from a base shade and a target shade. The model
covers these steps:

- the sampling loop that averages a window of pixels into one colour
  (`Sampler`);
- the RGB to HSL conversion and the weighted HSL distance (`ColorSpace`);
- the nearest-shade search with its NaN fallback and its shortlist
  (`Matcher`, over the catalogue in `Catalog`);
- `parseInt` of shade codes and the lightening plan (`Formulation`);
- the component state: the selected base and target shades and their
  handlers (`ColorReference`).

It also covers two small list toggles: the sidebar's expanded-submenu list
with its collapse flag (`SidebarState`), and the multi-select's value list
(`MultiSelect`). Both use one toggle function (`Toggling`).

JavaScript numbers are modelled where their special values matter:

- `JsInt` is an integer or NaN. It is used for colour channels and parsed
  levels.
- `Number` is a finite real, +Infinity or NaN. It is used for distances,
  with comparisons that are false on NaN.

`rgbToHsl` is computed exactly over `real`. A divisor that is zero gives
+Infinity. This can happen for channels outside [0, 255]. Distances are
squared: `Math.sqrt` is monotone, so the same shade is chosen, and the
"within 20%" shortlist test becomes "within 1.44 times" the squared
minimum. `Array.prototype.sort` is stable (section 22.1.3.27 of
ECMAScript 2019), so it is modelled by a stable insertion sort.
`parseInt` without a radix follows section 18.2.5 of ECMAScript 2019: leading
white space, a sign, a `0x` prefix, the longest run of digits, and NaN when
there is no digit.

Three points of the code's behaviour that the model follows:

- The sampling window is `min(100, floor(min(w, h) / 4))` as a *half*-width.
  Each axis runs from `-size` to `size` in steps of 2, which is `size` reads
  per axis.
- The NaN guard only checks for NaN. Integer channels outside [0, 255]
  still go through the search.
- The oxidant volume is the constant 20, whatever the number of levels.

## Model

| member | source | states |
|---|---|---|
| Numeric.RoundedAverage | src/components/ColorReferenceSystem.tsx:174-176 | Math.round(total / count) with halves rounded up: 2·q·count − count ≤ 2·total < 2·q·count + count |
| Numeric.RoundedAverageInRange | src/components/ColorReferenceSystem.tsx:173-177 | when the total is the sum of `count` channels in [0, 255], the rounded average is in [0, 255] |
| Numeric.Scale | src/components/ColorReferenceSystem.tsx:292 | `menorDistancia * k`: for k ≥ 1 a non-negative, non-NaN number is at most its own scaled value (so the new running minimum always passes the shortlist test); finite iff the number is finite, then the product; NaN exactly when the number is NaN |
| Numeric.AtMostIsNotLess | src/components/ColorReferenceSystem.tsx:286-292 | when neither side is NaN, the shortlist test `<=` is the negation of the swapped `<` of the running-minimum update |
| Sampler.SampleSize | src/components/ColorReferenceSystem.tsx:145 | the window half-width is at most 100 and at most a quarter of each side, and is the largest such value |
| Sampler.AnalyzeImage | src/components/ColorReferenceSystem.tsx:143-177 | the nested stride-2 loops collect exactly the sums `Collected`; no valid sample fails with NoValidSamples, otherwise the result is the rounded per-channel average |
| Sampler.RowCount | src/components/ColorReferenceSystem.tsx:151-166 | the inner loop takes at most one sample per step, and exactly one per step when every read is valid |
| Sampler.GridCount | src/components/ColorReferenceSystem.tsx:150-167 | after k full columns at most k·sampleSize samples are counted, and exactly that many when every read is valid |
| Sampler.SquareAtMost | src/components/ColorReferenceSystem.tsx:145 | proof helper: a half-width of at most 100 squares to at most 10000 |
| Sampler.SampleCountBound | src/components/ColorReferenceSystem.tsx:150-167 | at most sampleSize² ≤ 10000 samples are counted, and exactly sampleSize² when every read is valid |
| Sampler.SmallImageYieldsNoSample | src/components/ColorReferenceSystem.tsx:169-171 | an image narrower or shorter than 4 pixels yields no sample, so the analysis fails |
| Sampler.WindowInsideImage | src/components/ColorReferenceSystem.tsx:143-157 | every position the loops read lies inside the image |
| Sampler.RowInRange | src/components/ColorReferenceSystem.tsx:160-165 | with in-range reads, each channel sum stays between 0 and 255 times the count through the inner loop |
| Sampler.GridInRange | src/components/ColorReferenceSystem.tsx:150-167 | with in-range reads, each channel sum stays between 0 and 255 times the count through both loops |
| Sampler.SampledColorInRange | src/components/ColorReferenceSystem.tsx:160-177 | when every pixel read has channels in [0, 255], every channel of the sampled colour is in [0, 255] |
| ColorSpace.Max3 | src/components/ColorReferenceSystem.tsx:213 | `Math.max` of three channels: one of them, and at least each of them |
| ColorSpace.Min3 | src/components/ColorReferenceSystem.tsx:214 | `Math.min` of three channels: one of them, and at most each of them |
| ColorSpace.Abs | src/components/ColorReferenceSystem.tsx:244-246 | `Math.abs`: non-negative, and equal to the number or to its negation |
| ColorSpace.QuotientBounds | src/components/ColorReferenceSystem.tsx:222-225 | proof helper: a numerator bounded by the positive divisor `d` gives a quotient in [-1, 1] with the numerator's sign |
| ColorSpace.RgbToHsl | src/components/ColorReferenceSystem.tsx:208-231 | the hue is in [0, 1) for any integer channels |
| ColorSpace.LightnessOfChannels | src/components/ColorReferenceSystem.tsx:209-215 | proof helper: the lightness is (max + min) / 510 of the integer channels |
| ColorSpace.HslInRange | src/components/ColorReferenceSystem.tsx:208-231 | for channels in [0, 255] the saturation is finite and in [0, 1], and the lightness is in [0, 1] |
| ColorSpace.AchromaticIff | src/components/ColorReferenceSystem.tsx:215-219 | R = G = B gives hue 0 and saturation 0; for channels in [0, 255], saturation 0 holds only then |
| ColorSpace.HueDelta | src/components/ColorReferenceSystem.tsx:245 | the circular hue difference min(\|h1−h2\|, 1−\|h1−h2\|)·360 is in [0, 180] for hues in [0, 1), and 0 exactly for equal hues |
| ColorSpace.HslDistanceSq | src/components/ColorReferenceSystem.tsx:244-254 | the squared weighted distance is never negative; it is NaN exactly when both saturations are infinite and finite exactly when both are finite |
| ColorSpace.DistanceSq | src/components/ColorReferenceSystem.tsx:234-255 | calcularDistanciaCores squared: never negative, NaN only when both colours have infinite saturation |
| ColorSpace.HslDistanceSymmetric | src/components/ColorReferenceSystem.tsx:244-254 | the HSL distance is symmetric |
| ColorSpace.DistanceSymmetric | src/components/ColorReferenceSystem.tsx:234-255 | the distance between two colours is symmetric |
| ColorSpace.SquareSign | src/components/ColorReferenceSystem.tsx:251-253 | proof helper: a square is never negative, and it is zero only for zero |
| ColorSpace.HslDistanceZeroIff | src/components/ColorReferenceSystem.tsx:244-254 | for hues in [0, 1) the HSL distance is 0 exactly when the two HSL triples are equal with finite saturation |
| ColorSpace.DistanceZeroIffSameHsl | src/components/ColorReferenceSystem.tsx:234-255 | two colours are at distance 0 exactly when they have the same HSL form with finite saturation |
| ColorSpace.DistanceToSelf | src/components/ColorReferenceSystem.tsx:234-255 | a colour with channels in [0, 255] is at distance 0 from itself |
| Catalog.CatalogWellFormed | src/components/ColorReferenceSystem.tsx:15-111 | nineteen shades, the first is code "1", all codes are distinct and all reference colours are in [0, 255] |
| Catalog.CatalogDarkToLight | src/components/ColorReferenceSystem.tsx:15-111 | the catalogue runs from darkest to lightest: a later shade's reference colour has a strictly larger HSL lightness, so no two shades share an HSL form |
| Catalog.CatalogStepsLighter | src/components/ColorReferenceSystem.tsx:15-111 | proof helper: each reference colour's max + min channel exceeds the one before it |
| Matcher.FromRgb | src/components/ColorReferenceSystem.tsx:173-177 | a sampled colour reaches the matcher with no NaN channel and with the same channels |
| Matcher.NotLessTransitive | src/components/ColorReferenceSystem.tsx:301 | proof helper: "not below" is transitive on distances that are not NaN |
| Matcher.SortedCons | src/components/ColorReferenceSystem.tsx:301 | proof helper: a candidate no later candidate is below, put in front of a sorted list, keeps it sorted |
| Matcher.Insert | src/components/ColorReferenceSystem.tsx:301 | inserting a candidate keeps the same multiset plus the candidate |
| Matcher.InsertSorted | src/components/ColorReferenceSystem.tsx:301 | inserting into a sorted shortlist keeps it sorted by distance |
| Matcher.SortByDistance | src/components/ColorReferenceSystem.tsx:301 | sorting the shortlist is a permutation of it |
| Matcher.SortByDistanceSorted | src/components/ColorReferenceSystem.tsx:301 | with no NaN distance, the sorted shortlist is ascending by distance |
| Matcher.SortLeader | src/components/ColorReferenceSystem.tsx:299-308 | the stable sort puts first the earliest candidate that no candidate beats and that beats every candidate before it |
| Matcher.FirstMin | src/components/ColorReferenceSystem.tsx:277-290 | the first pass settles on the earliest strictly smallest finite distance, or on the first shade when none is finite |
| Matcher.FirstMinStep | src/components/ColorReferenceSystem.tsx:286-289 | proof helper: one step of the strict `<` update extends the first minimum of a prefix to the next prefix |
| Matcher.FirstMinUnique | src/components/ColorReferenceSystem.tsx:277-290 | proof helper: the first minimum is unique |
| Matcher.HslMetricProper | src/components/ColorReferenceSystem.tsx:283-285 | against catalogue colours in [0, 255], calcularDistanciaCores is never NaN and never negative |
| Matcher.ShortlistLeader | src/components/ColorReferenceSystem.tsx:291-309 | when the shortlist lists candidates in catalogue order with their own distances and holds the first-pass winner, sorting puts that winner first |
| Matcher.FirstPassWinner | src/components/ColorReferenceSystem.tsx:277-290 | after any prefix of the scan, the running choice is that prefix's first minimum and the running minimum is its distance |
| Matcher.FirstPassListing | src/components/ColorReferenceSystem.tsx:291-294 | the shortlist holds candidates in catalogue order, each with its own shade's distance |
| Matcher.FirstPassKeepsWinner | src/components/ColorReferenceSystem.tsx:291-294 | the first-pass winner is always in the shortlist: the running minimum is pushed whenever it changes, and it stays there |
| Matcher.FirstPassOutcome | src/components/ColorReferenceSystem.tsx:277-309 | after the whole scan the running choice is the first minimum, and with more than one candidate the sorted shortlist starts with that same shade |
| Matcher.FindNearestIn | src/components/ColorReferenceSystem.tsx:268-314 | the loop, shortlist, sort and top-three slice return NearestIn: "1" on a NaN channel, otherwise the code of the first minimum |
| Matcher.FindNearest | src/components/ColorReferenceSystem.tsx:268-314 | encontrarCorMaisProxima on the catalogue returns Nearest, and "1", the first shade, on a NaN channel |
| Matcher.NearestInIsClosest | src/components/ColorReferenceSystem.tsx:282-290 | the result is the code of a shade that no shade is strictly closer than, and that every earlier shade is strictly farther than |
| Matcher.NearestInFallback | src/components/ColorReferenceSystem.tsx:269-278 | a NaN channel gives "1", and when no distance is finite the first shade is kept |
| Matcher.NearestInExactMatch | src/components/ColorReferenceSystem.tsx:282-290 | a colour at distance 0 from some shade is matched to a shade at distance 0 |
| Matcher.NaNFallsBackToDarkest | src/components/ColorReferenceSystem.tsx:269-272 | on the catalogue, a NaN channel gives "1", the code of the first, darkest shade |
| Matcher.NearestIsClosest | src/components/ColorReferenceSystem.tsx:282-313 | on the catalogue the result is a closest shade's code, and ties go to the earliest shade |
| Matcher.ExactMatchHasSameHsl | src/components/ColorReferenceSystem.tsx:282-313 | a colour equal to a reference colour is matched to a shade with the same HSL form, and that shade is the reference colour's own |
| Matcher.CatalogColorMatchesItself | src/components/ColorReferenceSystem.tsx:15-111 | every catalogue reference colour, detected as it is, is matched to its own shade code |
| Matcher.DarkestReferenceMatchesItself | src/components/ColorReferenceSystem.tsx:15-18 | the reference colour (14, 14, 14) of shade "1" is matched to "1" |
| Formulation.TrimStart | src/components/ColorReferenceSystem.tsx:375-376 | parseInt first drops the longest prefix of white space: what is left starts with no white space |
| Formulation.DigitPrefix | src/components/ColorReferenceSystem.tsx:375-376 | parseInt reads the longest prefix of radix digits |
| Formulation.ParseInt | src/components/ColorReferenceSystem.tsx:375-376 | parseInt gives NaN exactly when, after the white space and the sign, there is no decimal digit, or there is a "0x" prefix with no hex digit after it; after a leading "-" the number is at most 0, otherwise at least 0 |
| Formulation.Decimal | src/components/ColorReferenceSystem.tsx:15-111 | the decimal digits of a level: nonempty, all in '0'..'9' |
| Formulation.DigitPrefixOfDigits | src/components/ColorReferenceSystem.tsx:375-376 | proof helper: a digit run followed by a non-digit is read as exactly that run |
| Formulation.DecimalValue | src/components/ColorReferenceSystem.tsx:375-376 | proof helper: the decimal digits of n denote n |
| Formulation.ParseIntDecimal | src/components/ColorReferenceSystem.tsx:375-376 | parseInt reads back the digits of any natural number followed by any non-digit text ("7.1" reads as 7), except an "x" or "X" right after a lone "0", which would make a hex prefix ("0x1" reads as 1) |
| Formulation.ParseIntUnsigned | src/components/ColorReferenceSystem.tsx:375-376 | text starting with a decimal digit and not with "0x" reads as its leading decimal digits |
| Formulation.NoHexPrefix | src/components/ColorReferenceSystem.tsx:375-376 | the decimal digits of a level followed by a tone suffix never start with a hex prefix |
| Formulation.LevelsNeeded | src/components/ColorReferenceSystem.tsx:377 | Math.max(0, target − base): NaN exactly when a level is NaN, otherwise ≥ 0, ≥ target − base, and equal to 0 or to target − base |
| Formulation.PlanContents | src/components/ColorReferenceSystem.tsx:372-388 | a plan has volume 20; with numeric levels it has max(0, target − base) levels and 15 minutes per level; with a NaN level both are NaN |
| Formulation.LevelsMonotoneInTarget | src/components/ColorReferenceSystem.tsx:377 | for a fixed base, a higher target never gives fewer levels or less time |
| Formulation.PlanOfLevels | src/components/ColorReferenceSystem.tsx:377-385 | between integer levels the plan has max(0, target − base) levels and 15 minutes per level |
| Formulation.SingleDigitPlan | src/components/ColorReferenceSystem.tsx:372-388 | between one-digit codes the plan has max(0, target − base) levels and 15 minutes per level |
| Formulation.SingleDigitDecimal | src/components/ColorReferenceSystem.tsx:375-376 | proof helper: a number below 10 is written as its one digit |
| Formulation.ParseSingleDigit | src/components/ColorReferenceSystem.tsx:375-376 | a one-digit code parses to its digit |
| Formulation.LiftFiveToEight | src/components/ColorReferenceSystem.tsx:372-388 | base "5" and target "8" give 3 levels and 45 minutes |
| Formulation.LowerSevenToFour | src/components/ColorReferenceSystem.tsx:372-388 | base "7" and target "4" give 0 levels and 0 minutes |
| ColorReference.ColorReferenceSystem.constructor | src/components/ColorReferenceSystem.tsx:323-324 | the selections start from the corBase and corDesejada props |
| ColorReference.ColorReferenceSystem.SyncFromProps | src/components/ColorReferenceSystem.tsx:328-331 | new props reset both selections |
| ColorReference.ColorReferenceSystem.HandleBaseChange | src/components/ColorReferenceSystem.tsx:362-365 | the base becomes the value, the target is kept, and onColorSelect gets (new base, target) |
| ColorReference.ColorReferenceSystem.HandleTargetChange | src/components/ColorReferenceSystem.tsx:367-370 | the target becomes the value, the base is kept, and onColorSelect gets (base, new target) |
| ColorReference.ColorReferenceSystem.CalcularClareamento | src/components/ColorReferenceSystem.tsx:372-388 | no plan iff a selection is empty; otherwise volume 20, max(0, target − base) levels and 15 minutes per level, never NaN for catalogue codes |
| ColorReference.CalculateOutcome | src/components/ColorReferenceSystem.tsx:372-388 | for any pair of selections: no plan iff one is empty; otherwise the plan of the parsed levels, volume 20, max(0, target − base) levels and 15 minutes per level, numeric for two catalogue codes |
| ColorReference.ColorReferenceSystem.ApplyDetectedColor | src/components/ColorReferenceSystem.tsx:340-350 | a detected colour sets the base to the nearest catalogue code through handleBaseChange; the match is never empty, and the target is kept |
| ColorReference.CodePartsMatch | src/components/ColorReferenceSystem.tsx:15-111 | each catalogue code is the decimal digits of its level followed by "", ".1" or ".12" |
| ColorReference.CodePartsShape | src/components/ColorReferenceSystem.tsx:15-111 | the levels run from 1 to 10 in non-decreasing order, and every tone suffix starts with a dot |
| ColorReference.CodeLevels | src/components/ColorReferenceSystem.tsx:375-376 | every catalogue code parses to a level in [1, 10], and the levels never decrease along the catalogue |
| ColorReference.CodeLevel | src/components/ColorReferenceSystem.tsx:375-376 | a catalogue code is not empty and parses to a level in [1, 10] |
| ColorReference.CodesGiveNumericPlan | src/components/ColorReferenceSystem.tsx:372-388 | two catalogue codes always give a plan with a numeric level count and time |
| ColorReference.DetectedLevelIsCode | src/components/ColorReferenceSystem.tsx:342-347 | the detected level is always a catalogue code and never empty, so the "not detected" branch is never taken |
| Toggling.Without | src/components/Sidebar.tsx:62 | filtering out x leaves no x, and every other item is still there exactly when it was before |
| Toggling.WithoutCounts | src/components/Sidebar.tsx:62 | filtering drops every occurrence of x and keeps the count of every other item |
| Toggling.WithoutKeepsOrder | src/components/Sidebar.tsx:62 | the filtered list is a subsequence of the original: the other items keep their relative order |
| Toggling.SubsequenceOfTail | src/components/Sidebar.tsx:62 | proof helper: a subsequence of a list's tail is a subsequence of the list |
| Toggling.DropHead | src/components/Sidebar.tsx:62 | proof helper: dropping the head of a subsequence leaves a subsequence |
| Toggling.WithoutAbsent | src/components/Sidebar.tsx:62 | filtering out an absent item changes nothing |
| Toggling.WithoutAppended | src/components/Sidebar.tsx:62-63 | appending an absent item and then filtering it out gives back the list |
| Toggling.WithoutNoDuplicates | src/components/Sidebar.tsx:62 | filtering never introduces a duplicate |
| Toggling.TailNoDuplicates | src/components/Sidebar.tsx:62 | proof helper: the tail of a duplicate-free list is duplicate-free and lacks the head |
| Toggling.ConsNoDuplicates | src/components/Sidebar.tsx:62 | proof helper: an absent item put in front of a duplicate-free list keeps it duplicate-free |
| Toggling.Toggle | src/components/Sidebar.tsx:60-64 | the item's membership flips and every other item's membership is kept; absent ⇒ appended at the end; present ⇒ filtered out and the list gets shorter |
| Toggling.ToggleTwiceAbsent | src/components/Sidebar.tsx:60-64 | toggling an absent item twice gives back the original list |
| Toggling.ToggleTwicePresent | src/components/Sidebar.tsx:60-64 | toggling a present item twice moves a single copy of it to the end |
| Toggling.ToggleNoDuplicates | src/components/Sidebar.tsx:60-64 | a duplicate-free list stays duplicate-free after a toggle |
| Toggling.ToggleRemovesAll | src/components/Sidebar.tsx:61-62 | removing a present item keeps every other item, with its count and in its order |
| SidebarState.Sidebar.constructor | src/components/Sidebar.tsx:56-57 | the sidebar starts expanded, with no submenu open |
| SidebarState.Sidebar.ToggleSubmenu | src/components/Sidebar.tsx:59-65 | the expanded list becomes its toggle: the title's membership flips, the others' is kept, no duplicate appears, and the collapse flag is kept |
| SidebarState.Sidebar.ToggleCollapsed | src/components/Sidebar.tsx:71 | the collapse flag is negated, so two clicks restore it, and the expanded list is kept |
| MultiSelect.HandleValueChange | src/components/ui/multi-select.tsx:16-21 | the list handed to onChange: an absent option is appended; a present one is removed everywhere, with the others keeping their counts and order; only its membership changes, and no duplicate appears |

## Left out

- Image loading and canvas access are left out: `new Image`, `crossOrigin`, `onload`/`onerror`, `drawImage` and `getImageData`. They are browser I/O. The pixel read is the parameter `pixel(x, y)`, which gives None for an invalid read. The load and canvas-context errors are not modelled.
- The photo-analysis effect is partly left out. Its asynchronous flow (`.then`/`.catch`/`.finally`), `isAnalyzing` and `errorMessage` are not modelled. Only its success step is modelled, as `ApplyDetectedColor`.
- `console.log` calls and the JSX rendering are left out.
- ColorReference.ColorReferenceSystem.HandleBaseChange: the model reads the current target. React handlers can capture a stale target from an earlier render, and the model does not capture that.
- ColorSpace.DistanceSq: the model works over exact reals and compares squared distances. IEEE rounding of `/`, `Math.pow` and `Math.sqrt` is not modelled.
- Matcher.FindNearestIn requires the metric never to give NaN against the catalogue. Because of that, the source's skip of NaN distances is never exercised. For the real catalogue, `HslMetricProper` proves this requirement. `FindNearest` needs no precondition.
- Matcher.RgbInput: channels are integers or NaN. Non-integer and infinite channels are not modelled. The only producer is `Math.round` of an average.
- The `rgbToHsl` call on the detected colour whose results are never used is left out.
- The unused `simple-statistics` import and the `ColorStats` type are left out. They are dead code.
- Formulation.ParseInt uses unbounded integers. It does not model the precision loss of very long digit strings.
- Formulation.Calculate, Formulation.PlanOf, Formulation.OxidantVolume, Formulation.EstimatedMinutes, Formulation.Backdrop, Formulation.RecommendedProducts, Formulation.SignStripped, Formulation.Magnitude, Formulation.DigitsValue, Numeric.Less, Numeric.AtMost, Matcher.Distances, Matcher.FirstPass, Sampler.WindowOf, Sampler.Add, Sampler.RowTotals, Sampler.GridTotals, Sampler.Collected, Sampler.Average, Matcher.HasNaN, Catalog.Shades, Formulation.IsStrWhiteSpace, Formulation.DigitValue, Formulation.IsDigit, Formulation.HasHexPrefix and ColorReference.OrEmpty are plain definitions: they have no contract of their own, or one that only restates them, so they have no row. Their promises are stated by the members that use them: PlanContents, PlanOfLevels, LevelsMonotoneInTarget, CalculateOutcome and CalcularClareamento for the plan; ParseInt, ParseIntUnsigned, ParseIntDecimal and ParseSingleDigit for the sign, the magnitude and the digit value; AtMostIsNotLess and Scale for the comparisons; FirstPassWinner, FirstPassListing, FirstPassKeepsWinner and FirstPassOutcome for the scan; SampleSize and WindowInsideImage for the window; AnalyzeImage and SampleCountBound for the accumulation and the sampling loops; FindNearestIn, NearestInFallback and NaNFallsBackToDarkest for the NaN guard; CatalogWellFormed and CatalogDarkToLight for the catalogue; TrimStart, DigitPrefix and ParseInt for the white space, digit and hex-prefix tests; RoundedAverage and SampledColorInRange for the averaged colour; the constructor and SyncFromProps for the props.
- MultiSelect.HandleValueChange: the incoming value is a Dafny sequence, so it cannot be mutated. `onChange` is called once, with the method's result.
- The pure handlers in the sidebar and the multi-select are modelled through one shared toggle function. The multi-select, which has no state of its own, is a method returning the list it hands to `onChange`.
- ColorSpace.InRange, ColorSpace.HueInTurn, ColorSpace.ChannelSpan, Matcher.ToRgb, Matcher.NoNaNKeys, Matcher.SortedByDistance, Matcher.HasFinite, Matcher.IsFirstMin, Matcher.ColorsInRange, Matcher.ProperOn, Matcher.ProperDistances, Sampler.NoTotals, Sampler.AllValid, Sampler.ValidInRange, Sampler.InWindow, Toggling.IsSubsequence, Toggling.NoDuplicates, ColorReference.IsCode and ColorReference.CodeParts are the predicates and constants in which the contracts above are written. They model no source line of their own, so they have no row.
