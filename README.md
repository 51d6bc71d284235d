# DAFIF map-layer builders, modelled in Dafny

The repository turns tab-separated DAFIF tables (the Digital Aeronautical
Flight Information File) into map layers: GeoJSON feature collections and
drawing documents for a moving-map program. This project models the three
builders that carry the logic:

- **suas.py** — the Special Use Airspace ring builder. One forward pass over
  SUAS.TXT groups consecutive rows with the same SUAS_IDENT into a boundary
  ring. Each row adds a circle, an arc or a polygon edge. The ring is kept
  only if a sampled point lies in the area filter. A finished ring becomes a
  GeoJSON polygon and a line object of the drawing (`Suas`, with the drawing
  document in `Drx` and the point arithmetic in `Geo`).
- **agear.py** — arresting gear. It reads AGEAR.txt rows and normalises
  LOCATION with `str(int(...))`. It deletes rows that fail the country or
  system-type filter, scanning backwards. It then groups consecutive rows of
  one airport into one feature, which lists each runway with the
  descriptions of its gear (`Agear`).
- **iap.py** — instrument approach minima. It expands each RWY.txt row into
  its two runway ends and filters them by length and width. It filters
  TRM_MIN.txt procedures and builds first-index tables for both lists. For
  each airport it picks the procedure with the lowest category C height
  above touchdown that serves a runway end the airport has (`Iap`).

`Text` holds the Python string operations the scripts rely on: `upper()`,
`split()`, `strip()`, `lstrip`, `replace`, `int()`/`str()`, substring tests
and slicing. `Seqs` holds generic sequence lemmas. `Wrappers` holds the
`Option` type. Every error path of the scripts (a `KeyError`, a failing
`int()`, an `IndexError`) is an `Option`/`None` result or a `Crashed`
output, not a precondition.

## Model

| member | source | states |
|---|---|---|
| Geo.WholeGlobeKeepsAll | suas.py:66-70 | the default area `90 -180 -90 180` contains every valid latitude/longitude |
| Geo.RoundHalfEven | suas.py:404-406 | Python's `round()` to an integer: within 0.5 of the argument, and even on an exact tie |
| Geo.Round4 | suas.py:227 | `round(x, 4)`: within 0.00005 of x and a whole number of ten-thousandths |
| Geo.Round4Idempotent | suas.py:233-235 | rounding an already rounded coordinate to 4 places changes nothing |
| Geo.InBox | suas.py:136-139 | the inclusive bounding-box test: a point is in the area when its latitude lies between south and north and its longitude between west and east, bounds included |
| Drx.DrxPoints | suas.py:431-437 | one Point element per coordinate, its Latitude/Longitude the pair's second/first component |
| Drx.Coordinates | suas.py:431-437 | reading the Point elements back yields one coordinate per element |
| Drx.DrxPointsRoundTrip | suas.py:431-437 | reading back the Point elements written for a ring gives the ring exactly |
| Drx.PointElements | suas.py:431-437 | the element-building loop produces exactly the point list of the ring, in order |
| Drx.DrxPointsSnoc | suas.py:431-437 | appending a coordinate appends exactly its Point element |
| Drx.NewFigure | suas.py:379-437 | a line carries the polygon flag and exactly the ring's points; an ellipse or text is centred on the last coordinate; ellipse radii are the rounded arguments |
| Drx.Drawing.constructor | suas.py:85 | a new drawing has no objects and no Next attribute |
| Drx.Drawing.Append | suas.py:365-451 | appends exactly one object whose ID is the current Next (0 when there is none) and sets Next to that ID + 1; the drawing stays consecutively numbered |
| Text.UpperChar | suas.py:96 | an upper-cased character is never a lower-case letter |
| Text.Upper | agear.py:112 | `upper()` maps every character in place and keeps the length |
| Text.UpperIdempotent | suas.py:96 | upper-casing twice is upper-casing once |
| Text.Prefix | suas.py:95-96 | `s[:n]` is a prefix of s of length min(n, len(s)) |
| Text.DropLastLastN | agear.py:117 | `TYPE[:-2] + TYPE[-2:]` is the whole type code, and the suffix has at most 2 characters |
| Text.ContainsInSingleton | iap.py:157 | `t in ident[0]` holds exactly when t is empty or is that one character |
| Text.WordEnd | agear.py:117 | a word ends at the first space or at the end of the string |
| Text.Words | agear.py:117 | every piece returned by `split()` is a non-empty run without whitespace, made of characters of the input |
| Text.JoinSnoc | agear.py:135-137 | joining one more part appends the separator and that part |
| Text.WordEndAt | agear.py:117 | the end of a word is the unique space-or-end position after a run of non-spaces |
| Text.WordsCons | agear.py:117 | splitting a word followed by whitespace gives that word, then the split of the rest |
| Text.WordsOfJoin | agear.py:117 | `split()` of words joined by single spaces gives the words back (round trip) |
| Text.SkipSpaces | iap.py:211 | the leading run of whitespace ends at a non-space or at the end |
| Text.SkipSpacesBack | iap.py:211 | the trailing run of whitespace starts after a non-space or at the start |
| Text.Strip | iap.py:211 | `strip()` leaves no whitespace at either end, keeps a string already without it, and is empty exactly for all-whitespace input |
| Text.StripSlice | iap.py:211 | `strip()` removes exactly the leading and trailing whitespace: the result is a slice `s[i..j]` with only whitespace before i and after j |
| Text.LStripChar | iap.py:235 | `lstrip('0')` removes exactly the leading run of zeros and keeps a suffix of the input |
| Text.Find | iap.py:211 | the position returned leaves room for the whole pattern |
| Text.FindSpec | iap.py:211 | a found position is a match with no match before it; not found means no match anywhere |
| Text.FindUnique | iap.py:211 | a match with no earlier match is the position Find returns |
| Text.StartsWithMatch | iap.py:211 | a pattern at the start is found at position 0 |
| Text.NoRoom | iap.py:211 | a pattern longer than the string does not occur in it |
| Text.ShiftMatch | iap.py:211 | a match one position into the string is a match at the start of its tail, and conversely |
| Text.FindShift | iap.py:211 | when the string does not start with the pattern, its first match is one past the first match in its tail |
| Text.PrefixBeforeFind | iap.py:211 | the text before the first match holds no match |
| Text.SplitOn | iap.py:211 | `split(pat)` gives at least one piece |
| Text.SplitOnPieces | iap.py:211 | no piece of `split(pat)` contains the pattern |
| Text.SplitOnJoin | iap.py:211 | joining the pieces of `split(pat)` with pat gives the string back (round trip) |
| Text.Reassemble | iap.py:211 | the text before a match, the pattern and the text after it make up the string |
| Text.JoinCons | iap.py:211 | joining a piece in front of other pieces puts the separator between them |
| Text.SplitOnCons | iap.py:211 | when the string does not start with the pattern, its first character joins the first piece of its tail's split |
| Text.SplitOnConsNone | iap.py:211 | as SplitOnCons, when neither the string nor its tail holds the pattern |
| Text.SplitOnConsSome | iap.py:211 | as SplitOnCons, when the first match is one past the tail's first match |
| Text.SplitOnNotFound | iap.py:211 | splitting a string without the pattern gives one piece |
| Text.SplitOnFound | iap.py:211 | splitting at a found match gives the prefix followed by the split of the rest |
| Text.ReplaceIsJoinOfSplit | iap.py:211 | `s.replace(pat, rep)` is `rep.join(s.split(pat))`: every non-overlapping match, left to right, becomes rep |
| Text.ReplaceAbsent | iap.py:211 | `replace` leaves a string without the pattern unchanged |
| Text.ReplaceAtStart | iap.py:211 | with a match at the start, `replace` is the join of the split when it is so for the rest after the match |
| Text.ReplaceElsewhere | iap.py:211 | without a match at the start, `replace` is the join of the split when it is so for the tail |
| Text.JoinHead | iap.py:211 | a character put in front of the first piece stands in front of the join |
| Text.ContainsTail | iap.py:211 | a pattern in the tail of a string is in the string |
| Text.IndexOfChar | iap.py:210 | the first occurrence of a character, or the length when it is absent |
| Text.AfterFirstSpace | iap.py:210 | `split(' ', maxsplit=1)[1]` exists exactly when there is a space, and is the text after the first one |
| Text.DigitChar | agear.py:107 | a decimal digit maps to a digit character |
| Text.NatToString | agear.py:107 | `str(n)` is a non-empty digit string without a leading zero unless it is "0" |
| Text.NatRoundTrip | agear.py:107 | the digits of `str(n)` read back as n |
| Text.IntRoundTrip | agear.py:107 | `int(str(i)) == i` for every integer |
| Text.SignedRoundTrip | agear.py:107 | a signed decimal text produced for i reads back as i |
| Text.ParseDigits | iap.py:110-111 | a digit string, with or without a minus sign, parses to its value or its negation |
| Text.DigitNotSpace | agear.py:107 | a digit is never whitespace, so `int()` does not strip it |
| Text.Canonical | agear.py:107 | `str(int(s))` is defined exactly when `int(s)` is, and denotes the same number |
| Text.CanonicalIdempotent | agear.py:107 | normalising a normalised LOCATION changes nothing |
| Text.CanonicalNoLeadingZero | agear.py:107 | a normalised LOCATION is "0" or has no leading zero, after an optional minus sign |
| Text.IntToStringNoLeadingZero | agear.py:107 | `str(n)` is "0" or has no leading zero, after an optional minus sign |
| Text.ParseInt | agear.py:107 | `int(s)`: the text without surrounding whitespace must be an optional sign and at least one decimal digit; otherwise no value (Python's ValueError) |
| Text.ParseSigned | iap.py:110-111 | an optional `+` or `-` followed by at least one decimal digit reads as that number, negated after `-`; anything else has no value |
| Text.IntToString | agear.py:107 | `str(i)`: a minus sign before the digits of a negative number, the digits alone otherwise |
| Text.ReplaceAll | iap.py:211 | `replace('RW', 'RWY ')`: occurrences replaced left to right without overlap, the text between them kept |
| Text.Join | iap.py:211 | `sep.join(parts)`: the parts in order with sep between neighbours, empty for no parts |
| Suas.SkippedIgnoresFilterCase | suas.py:96-97 | the country filter gives the same verdict whatever the case of the filter text |
| Suas.LowerCaseCountrySkipped | suas.py:96-97 | with a filter given, a country code with a lower-case letter in its first two characters is always skipped, since only the filter is upper-cased |
| Suas.Colour | suas.py:99-108 | the pen colour is one of five, and red exactly for TYPE T or R |
| Suas.ColourByPalette | suas.py:99-108 | the colour is the palette entry for the TYPE, black for any other TYPE |
| Suas.AnyInBoxAppend | suas.py:111-236 | a point of a concatenated ring lies in the area exactly when one of the parts has one |
| Suas.AnyInBoxSingle | suas.py:228-232 | a one-point ring is in the area exactly when its point is |
| Suas.Ellipses | suas.py:134-156 | one ellipse, or two with RADIUS2, numbered consecutively, centred on the row's centre, with radii within 0.5 ft of the radii in feet |
| Suas.Circle | suas.py:158-173 | 36 projected points at bearings 0, 10, …, 350 and the first point again |
| Suas.SampleCircle | suas.py:158-191 | the sampling loop yields exactly the circle, and `valid` is set exactly when one of its points is in the area |
| Suas.Sweep | suas.py:204-207 | the arc's angle has the sign of the direction, lies in (-360, 360) and is the bearing difference, corrected by one turn if needed |
| Suas.SampleCount | suas.py:208-209 | `ceil(abs(angdiff)/10)`: the fewest 10° steps covering the sweep |
| Suas.ArcSamples | suas.py:209-215 | point i is the projection at bearing theta1 + direction·i·10 |
| Suas.SampleArc | suas.py:209-221 | the sampling loop yields exactly those points, and `valid` is set exactly when one of them is in the area |
| Suas.ArcShape | suas.py:193-224 | an arc adds its samples followed by the rounded end point, one more point than the step count |
| Suas.HitIsWitnessed | suas.py:111-236 | whenever a row sets `valid`, a point it added lies in the area |
| Suas.SegmentSize | suas.py:133-236 | a circle adds 37 points (74 with RADIUS2), an arc its step count + 1, an edge exactly 2 |
| Suas.EdgeSecondPointNotTested | suas.py:226-236 | an example of an edge testing only its first point: with the whole-globe area, a first point at latitude 100 and a second point inside the area, the row does not set `valid` |
| Suas.DropJunction | suas.py:237-238 | deleting `coordinates[-3]` when it repeats `coordinates[-2]` shortens the ring by one, else changes nothing, and never changes the set of points |
| Suas.CollapseRemoveRepeat | suas.py:237-238 | removing one of two equal neighbours does not change the path with repeats collapsed |
| Suas.DropJunctionKeepsPath | suas.py:237-238 | the junction de-duplication keeps the drawn path, and every point keeps its place except the deleted one |
| Suas.CloseRing | suas.py:112-113 | the ring is closed by appending its first point only when it is not closed already, and the original points are kept as a prefix |
| Suas.DrawnRing | suas.py:122-126 | the drawn line is the ring without the closing point it got, and closing a closed ring changes nothing |
| Suas.CloseRingKeepsHits | suas.py:112-116 | closing a ring keeps a point in the area |
| Suas.EmitOne | suas.py:115-126 | emitting a closed ring with a point in the area, with its line object, keeps features and drawing in step |
| Suas.Assembler.constructor | suas.py:84-89 | empty ring, `valid` false, empty identifier, no features and an empty drawing |
| Suas.Assembler.CloseGroup | suas.py:111-131 | on a new identifier a ring of more than 3 points is closed and, if valid, emitted as a feature and a line object; an invalid ring is dropped; a short valid ring is carried into the next identifier |
| Suas.Assembler.AddEllipses | suas.py:133-156 | drawing mode: a circle whose centre is in the area becomes one or two ellipses and empties the ring |
| Suas.Assembler.AddCircles | suas.py:158-191 | the ring grows by the sampled circle(s), and `valid` is set exactly when a sample is in the area |
| Suas.Assembler.AddArc | suas.py:193-224 | the ring grows by the arc samples and end point, and `valid` is set exactly when a sample is in the area |
| Suas.Assembler.AddEdge | suas.py:226-236 | the ring grows by the edge's two rounded points, and `valid` is set by the first one |
| Suas.Assembler.RemoveJunctionDuplicate | suas.py:237-238 | the ring becomes its junction-de-duplicated form; nothing else changes |
| Suas.Assembler.Extend | suas.py:133-238 | the new ring and `valid` as a function of the row's shape, the output mode and the old ring; the drawing gains the one or two ellipses of a drawing-mode circle centred in the area and is otherwise unchanged |
| Suas.Assembler.Step | suas.py:94-245 | a skipped row changes nothing; a kept row sets identifier, properties and colour, and the ring and `valid` are the carried ring extended by the row; the features gain the finished ring of the previous identifier exactly when the identifier changes and that ring has more than 3 points and is valid; the drawing gains that ring's line object, then the row's ellipses in drawing mode; the new state is one step of the fold `Next` |
| Suas.Assembler.Finish | suas.py:246-260 | an empty ring makes `coordinates[0]` fail; otherwise the last ring is closed with no length check and emitted when valid |
| Suas.Assembler.StepKept | suas.py:94-245 | a kept row: identifier, properties, colour, features, drawing, ring and `valid` as one step of `Next` |
| Suas.Assembler.Advance | suas.py:94-245 | a kept row moves the state one step of `Next` |
| Suas.Assembler.Produce | suas.py:246-269 | the output is `Final` of the state after the last row: GeoJSON rings or a numbered drawing |
| Suas.ReadAll | suas.py:94-245 | the loop over the rows leaves the state `After` all of them |
| Suas.ReadRow | suas.py:94-245 | one row moves the state from `After` i rows to `After` i + 1 rows |
| Suas.WrittenFromEmitted | suas.py:261-269 | the features emitted while reading form the written collection |
| Suas.WrittenSnoc | suas.py:249-260 | adding the last valid ring keeps the written collection consistent with the drawing |
| Suas.Provenance | suas.py:94-97 | every property set and feature stems from a row the country filter kept |
| Suas.Run | suas.py:84-269 | the output is the outcome of folding `Next` over the rows; it is `Crashed` exactly when the ring is empty after the last row, so always when no row is kept; the GeoJSON output holds closed rings, each with a point in the area and properties of a kept row; the drawing output is consecutively numbered |
| Suas.NextAfterColour | suas.py:94-108 | a kept row sets the colour before closing the group, and sets identifier and properties after extending |
| Suas.NextGrows | suas.py:94-245 | a row never removes features or drawing objects |
| Suas.NextKept | suas.py:94-245 | the state after a kept row, field by field |
| Suas.NextObjects | suas.py:111-156 | the drawing after a kept row: the finished ring's line object, then the row's ellipses |
| Suas.CloseObjects | suas.py:111-131 | closing a group adds the ring's line object exactly when the identifier changes and the ring is long enough and valid |
| Suas.ExtendObjects | suas.py:133-156 | extending adds the ellipses of a drawing-mode circle centred in the area, and no other object |
| Suas.AfterStep | suas.py:94-245 | the state after i + 1 rows is one step from the state after i rows |
| Suas.FinalFromFinish | suas.py:246-269 | what Finish does equals the reference outcome `Final` |
| Suas.NextReady | suas.py:94-245 | a step keeps the state's invariant (a ring implies properties and a colour) |
| Suas.AfterReady | suas.py:94-245 | the invariant holds after every prefix of the rows |
| Suas.AfterMonotone | suas.py:94-245 | features and drawing objects only grow while the rows are read |
| Suas.AllSkippedCrashes | suas.py:94-247 | when every row is skipped the state stays initial and the script crashes at `coordinates[0]` |
| Suas.KeptRowLeavesPoints | suas.py:133-238 | in GeoJSON mode, after a kept row the ring is never empty |
| Suas.NonEmptyExtension | suas.py:133-238 | in GeoJSON mode a kept row leaves a non-empty ring |
| Suas.GeoJsonCrashIffAllSkipped | suas.py:94-247 | in GeoJSON mode the script crashes exactly when every row is skipped |
| Suas.GroupRingEmitted | suas.py:111-126 | every finished group whose ring has more than 3 points and is valid appears in the output at its position |
| Suas.HoldsToEnd | suas.py:94-245 | an emitted feature and object stay in place until the last row |
| Suas.FinalKeeps | suas.py:246-269 | the end of the run keeps every feature and object emitted before |
| Suas.FinalRingReported | suas.py:246-260 | a non-empty valid last ring is appended, closed, to the output |
| Suas.AfterProvenance | suas.py:94-97 | after every prefix, each properties value comes from a kept row of that prefix |
| Suas.NextProvenance | suas.py:94-97 | a step keeps properties traced to kept rows |
| Suas.OutcomeFromKeptRows | suas.py:94-122 | every GeoJSON feature has the properties of a kept row |
| Suas.Skipped | suas.py:96-97 | a row is skipped when a filter is given and the first two letters of its country are not one of the upper-cased filter's words |
| Suas.Segment | suas.py:157-236 | the points a row adds: one or two sampled circles, the arc samples and its rounded end point, or the two rounded points of an edge |
| Suas.SegmentHit | suas.py:157-236 | whether the row sets `valid`: any circle sample or arc sample in the area, or the first point of an edge |
| Suas.RingObject | suas.py:123-126 | the drawing object for a finished ring: a polygon line through the ring without its closing point, with the group's colour and identifier as tooltip |
| Suas.Carried | suas.py:111-131 | what is left of the ring when a row starts: all of it within a group; on a new identifier nothing after a ring of more than 3 points or an invalid one, but a valid short ring runs on |
| Suas.CloseStep | suas.py:111-131 | on a new identifier, a valid ring of more than 3 points is closed, emitted as a feature and drawn; then Carried decides the ring and `valid` |
| Suas.ExtendStep | suas.py:133-238 | a drawing-mode circle centred in the area becomes ellipses and empties the ring; any other row appends its Segment and sets `valid` on a SegmentHit, then drops a junction duplicate |
| Suas.Next | suas.py:94-245 | one pass of the row loop: a skipped row changes nothing; a kept row picks its colour, closes the previous group, adds its shape, and becomes the current identifier with its properties |
| Suas.After | suas.py:93-245 | the state after the first i rows: Next folded over them from the initial state |
| Suas.Final | suas.py:247-260 | after the last row: an empty ring crashes at `coordinates[0]`; otherwise the ring is closed and, when valid, emitted and drawn |
| Suas.Outcome | suas.py:84-269 | the script's output on all the rows: Final of the state after the last row |
| Agear.IcaoOf | agear.py:93 | the longer of ICAO and FAA_HOST_ID, FAA_HOST_ID on a tie |
| Agear.AirportOf | agear.py:84-93 | an ARPT.txt row gives its airport's name and position, and `IcaoOf`'s identifier: the longer of ICAO and FAA_HOST_ID, FAA_HOST_ID on a tie |
| Agear.DictOfKeys | agear.py:73-95 | the dictionary built from a table has exactly the table's keys |
| Agear.DictOfLastWins | agear.py:73-95 | a key maps to the value of its last row (later assignments overwrite) |
| Agear.Dictionary | agear.py:73-95 | the dictionary-building loop yields the reference dictionary |
| Agear.GearRows | agear.py:96-108 | the rows as read, one per raw row, each the result of ReadGearRow |
| Agear.ReadGear | agear.py:96-108 | the reading loop succeeds exactly when every LOCATION parses, and yields the rows as read |
| Agear.Run | agear.py:68-161 | the whole script: the reference result of reading, dictionaries, filtering and grouping; on success, one feature per airport run of the kept rows |
| Agear.ReadGearRow | agear.py:105-108 | a row is read exactly when LOCATION parses as an integer; the LOCATION stored denotes the same number, without a leading zero |
| Agear.Verdict | agear.py:110-119 | the lookup fails exactly when the country passes, a type filter is given and the type code is missing from a table; the row is kept exactly when both filters pass |
| Agear.FilterGear | agear.py:110-119 | the deletion loop succeeds exactly when no lookup fails, and then leaves the rows that pass, in their order |
| Agear.DeleteFailing | agear.py:110-119 | the backward `del` loop leaves exactly the passing rows in order, or fails on the first failing lookup |
| Agear.DeleteStep | agear.py:110-119 | deleting row i while walking backwards keeps the list equal to the untouched prefix plus the filtered suffix |
| Seqs.Filter | agear.py:110-119 | a filter keeps at most the input's elements, all satisfying the test |
| Seqs.FilterSnoc | agear.py:110-119 | filtering one more element adds it exactly when it is kept |
| Seqs.FilterKeepsExactly | iap.py:116-171 | an element survives exactly when it is present and kept, and survivors keep their order |
| Seqs.FilterDistinct | iap.py:176-177 | filtering a list without repeats leaves no repeats |
| Seqs.IndexOf | iap.py:191 | `list.index`: a position holding the element |
| Seqs.IndexOfFirst | iap.py:191 | `list.index` gives the first position |
| Seqs.FirstOccurrences | iap.py:173-177 | the elements without repeats, all and only those of the list |
| Seqs.FirstOccurrencesOrder | iap.py:173-177 | the elements without repeats come in the order of their first occurrence, as sorting the first-occurrence indices gives |
| Seqs.FilterInOrder | iap.py:176-177 | filtering a list that is in order of first occurrence keeps it in that order |
| Seqs.IndexOfSnoc | iap.py:173-177 | appending does not move a first occurrence |
| Seqs.FoldInvariant | suas.py:94-245 | a property that every step keeps holds after the whole pass once it holds at the start |
| Seqs.ReadEach | agear.py:96-108 | a reading loop succeeds exactly when every element reads, and yields the values read in order |
| Agear.SurvivorsPassFilters | agear.py:110-119 | a row survives exactly when it was present and passes both filters, and survivors keep their order |
| Agear.TypeFilterAlone | agear.py:111-119 | with no country filter, a row survives exactly when it was present and passes the type filter |
| Agear.NoFiltersKeepAll | agear.py:111-119 | with neither filter given, the rows are kept unchanged |
| Agear.Runs | agear.py:127-159 | consecutive rows of one airport form one non-empty run; there are no runs exactly when there are no rows |
| Agear.Extend | agear.py:145-159 | the runs stay non-empty and the last run now ends with the new row |
| Agear.RunsMaximal | agear.py:130 | each run is one airport, and neighbouring runs are different airports |
| Agear.ExtendMaximal | agear.py:130 | adding a row keeps the runs single-airport and maximal |
| Agear.RunsSnoc | agear.py:130-150 | a row of the same airport joins the last run, any other row opens a new run |
| Agear.RunsMembers | agear.py:127-159 | every row of a run is an input row |
| Agear.ExtendMembers | agear.py:145-159 | adding a row keeps every run member an input row |
| Agear.ConcatSnoc | agear.py:127-159 | concatenating one more run appends its rows |
| Agear.RunsCover | agear.py:127-159 | the runs concatenated are the rows, in order: none lost, none repeated |
| Agear.ExtendConcat | agear.py:145-159 | adding a row to the runs appends exactly that row to their concatenation |
| Agear.ExtendMergeConcat | agear.py:151-159 | a row joining the last run appends exactly that row to the concatenation |
| Agear.ExtendNewConcat | agear.py:145-150 | a row opening a run appends exactly that row to the concatenation |
| Agear.ConcatMerge | agear.py:151-159 | growing the last run by a row appends that row to the concatenation |
| Agear.RunsAppendBreak | agear.py:130 | where the airport changes, the runs of the two halves are simply put together |
| Agear.RunsSnocSingle | agear.py:130-144 | a row of a new airport adds a one-row run |
| Agear.RunsSnocConcat | agear.py:150-159 | a row joins the final run only, leaving the runs before untouched |
| Agear.RunsCount | agear.py:130 | the number of features is the number of airport changes plus one |
| Agear.Describe | agear.py:146-148 | a description exists exactly when both type codes are in the tables |
| Agear.Keys | agear.py:137 | the runway dictionary's keys, in insertion order |
| Agear.Put | agear.py:146-159 | dictionary assignment: the key order is unchanged for an existing key and extended for a new one; the key maps to the new value and other keys keep theirs |
| Agear.RunEntries | agear.py:145-159 | the last row's runway is a key of the run's dictionary |
| Agear.RwyIdents | agear.py:151 | the runway identifiers of a run, row by row |
| Agear.EntryKeysFirstSeen | agear.py:145-159 | the dictionary keys are the run's runway identifiers in order of first appearance |
| Agear.Block | agear.py:151-159 | the block of consecutive same-runway rows at the end of a run is non-empty and ends with the run's last row |
| Agear.Descriptions | agear.py:156-159 | one description per row |
| Agear.BlockDescribed | agear.py:151-159 | the rows of the final block are rows of the run, all described |
| Agear.LastBlockDescribed | agear.py:151-159 | the last block of a runway consists of described rows |
| Agear.EntryValue | agear.py:151-159 | every runway of a run is a key, and its last block is described |
| Agear.KeyOfEntries | agear.py:145-159 | every runway of a run is a key of its dictionary |
| Agear.FreshEntry | agear.py:151-154 | when the runway changes, its entry is replaced by the new row's description alone, even if the runway appeared earlier in the run |
| Agear.OtherEntry | agear.py:151-159 | a row leaves the entries of other runways unchanged |
| Agear.MergedEntry | agear.py:155-159 | a row of the same runway as the previous row extends the entry by `&#10;` and its description |
| Agear.RunFeatures | agear.py:130-141 | one feature per run |
| Agear.RunFeaturesAt | agear.py:130-141 | feature k is built from run k's airport and dictionary |
| Agear.ReadyInit | agear.py:130-141 | the runs before the last are still ready to emit, and the last run is described with a known airport |
| Agear.FeaturesPerRun | agear.py:130-141 | on success there is one feature per airport run, in run order |
| Agear.Group | agear.py:120-159 | the grouping loop, with the first row appended as sentinel, returns the per-run features, or fails exactly where a lookup fails |
| Agear.GroupRow | agear.py:129-159 | one iteration keeps the loop invariant, or proves that the whole grouping fails |
| Agear.GroupedOpen | agear.py:130 | after the first row the runway dictionary is never empty |
| Agear.GroupFirst | agear.py:145-150 | the first row opens the first run |
| Agear.GroupSame | agear.py:150-159 | a row of the current airport updates its runway's entry, replacing or extending it |
| Agear.RunEntriesSnoc | agear.py:150-159 | the dictionary after one more row of the same airport |
| Agear.GroupClose | agear.py:130-143 | closing a run emits the feature of that run, with the airport's ICAO, name and position |
| Agear.GroupNew | agear.py:142-150 | after closing, a row of a new airport opens a one-entry dictionary |
| Agear.DescribedSnoc | agear.py:146-159 | appending a described row keeps the rows described |
| Agear.RunEntriesSingle | agear.py:145-150 | a one-row run has exactly one entry, its runway with its description |
| Agear.GroupMissing | agear.py:132-133 | an airport missing from ARPT.txt makes the grouping fail |
| Agear.FeaturesMissing | agear.py:132-133 | any run whose airport is unknown makes the grouping fail |
| Agear.GroupUndescribed | agear.py:146-159 | a row with an unknown type code makes the grouping fail |
| Agear.GroupDone | agear.py:129-141 | at the sentinel, the features emitted are those of all runs |
| Agear.GroupStep | agear.py:129-159 | the runs of one more row, by whether the airport changed |
| Agear.DictOf | agear.py:73-82 | the dictionary that `d[key] = value` builds over the rows in turn: each key maps to its last row's value |
| Agear.LastBlock | agear.py:151-159 | the rows that make up a runway's final entry: its last unbroken stretch of consecutive rows |
| Agear.Span | agear.py:135-137 | one `<span>` per runway, the entry as its title and the runway as its text |
| Agear.RwyText | agear.py:135-137 | the RWY property: the runways' spans joined by ' · ', in key order |
| Agear.Features | agear.py:120-159 | the features, one per airport run with its ICAO, name, position and RWY text; none on an empty list, an unknown gear code or an airport missing from ARPT.txt |
| Agear.Expected | agear.py:68-161 | the whole script as a reference: the gear rows read, filtered and grouped against the three dictionaries; none where the script raises |
| Iap.RunwayEnds | iap.py:107-115 | expansion succeeds exactly when every length and width parses, and gives two ends per row |
| Iap.ReadRwyRow | iap.py:104-111 | a row is read exactly when it has at least 7 fields; airport, length and width come from fields 0, 5 and 6 |
| Iap.Table | iap.py:107-115 | four aligned lists holding exactly the given runway ends |
| Iap.TableOfEnds | iap.py:107-115 | aligned lists are the table of their own ends (round trip) |
| Iap.RunwayEndsTwoPerRow | iap.py:107-115 | entries 2j and 2j+1 are the two ends of row j, with its length and width |
| Iap.EndsAppend | iap.py:107-115 | appending the two ends of one more row to the four lists |
| Iap.ExpandRunways | iap.py:104-115 | the reading loop keeps the four lists aligned and yields the runway ends, or fails where `int()` fails |
| Iap.RunwayEndsPrefix | iap.py:107-115 | a failure in the first rows is a failure of the whole file |
| Iap.FilterRunways | iap.py:116-130 | the filter loop keeps the lists aligned and keeps exactly the long and wide enough ends, in order |
| Iap.ReadTrmRow | iap.py:139-148 | a row is read exactly when it has at least 20 fields; airport and IDENT come from fields 0 and 2 |
| Iap.RunwayFilterExact | iap.py:120-126 | an end survives exactly when it is long and wide enough, and survivors keep their order |
| Iap.FilterProcedures | iap.py:150-171 | the filter fails exactly on an empty IDENT (the `[0]` index), else keeps exactly the qualifying procedures in order |
| Iap.ProcedureFilterExact | iap.py:156-165 | a procedure survives exactly when its type letter matches, it is not a COPTER procedure and its airport has a runway left |
| Iap.TableSlice | iap.py:190-200 | consecutive table entries delimit a non-empty slice starting at an airport's first index |
| Iap.TableGroupOf | iap.py:191 | every airport's first index appears in the table before the sentinel |
| Iap.GroupEnd | iap.py:190-200 | the end of the group starting at k is past k, and is the next first index or the end |
| Iap.GroupEndFirst | iap.py:190-200 | no first index lies strictly inside a group |
| Iap.TableEnd | iap.py:173-200 | the next table entry, clamped to the length, is the end of the group |
| Iap.FirstOccurrencesGroup | iap.py:173-200 | one group adds exactly its airport to the airports in order of first appearance |
| Iap.FirstIndices | iap.py:173-185 | the table lists, in increasing order, exactly the first index of each airport, followed by the length + 1 |
| Iap.SortedSet | iap.py:176-177 | `sorted(set(xs))`: strictly increasing, with the same elements as xs |
| Iap.SortedSetHead | iap.py:176-177 | the sorted table starts at index 0 |
| Iap.MatchAt2 | iap.py:206 | a match of `[0-9]{2}[LRC]?` is two digits and an optional L, R or C, taken from the identifier |
| Iap.DesignatorFrom | iap.py:205-209 | from position p on, the first match of the pattern, or the circling mark when there is none |
| Iap.Designator | iap.py:204-209 | the circling mark exactly when no runway designator occurs, otherwise the first match |
| Iap.ProcedureName | iap.py:210-211 | the name exists exactly when IDENT has a space, and is `strip()` of the text after the first space with every `RW` replaced by `RWY ` (a join of its split on `RW`) |
| Iap.NameKeptVerbatim | iap.py:210-211 | a name without `RW` and without outer spaces is the text after the first space, verbatim |
| Iap.ExtractedStep | iap.py:204-211 | one more procedure adds its designator and name |
| Iap.ExtractIdents | iap.py:204-211 | extraction succeeds exactly when every IDENT has a space, and gives a designator and a name per procedure |
| Iap.Designators | iap.py:204-209 | the designator of each procedure of a group |
| Iap.Names | iap.py:210-211 | the name of each procedure of a group that has one |
| Iap.StrLessIrreflexive | iap.py:213 | the string order is strict |
| Iap.StrLessTrans | iap.py:213 | the string order is transitive |
| Iap.StrLessTotal | iap.py:213 | any two different strings are ordered |
| Iap.Insert | iap.py:213 | inserting an index adds exactly it to the order |
| Iap.StableOrder | iap.py:213 | the sort order is a permutation of the procedure indices |
| Iap.InsertSorted | iap.py:213 | inserting the next index keeps the order sorted by key, ties in index order |
| Iap.StableOrderSorted | iap.py:213 | `sorted(range(n), key=...)` orders by CATCHA text, ties in index order (stable sort) |
| Iap.Catchas | iap.py:213 | the sort keys are the CATCHA texts, one per procedure |
| Iap.FirstLongest | iap.py:221 | `rwy_len.index(max(rwy_len))`: a longest end, and the first one |
| Iap.SelectProcedure | iap.py:213-239 | no choice exactly when no procedure qualifies; otherwise the chosen one qualifies, precedes every other qualifying procedure in the sort order, and its texts are reported; the result is the reference choice |
| Iap.ScanOutcome | iap.py:213-239 | the scan of the sorted order stops past the end with no choice, or at the first qualifying procedure, and either way yields the reference choice |
| Iap.Report | iap.py:220-237 | the reported runway is the first longest end for circling, else the first end with the designator; RWY and IAP texts are built from it |
| Iap.FirstInOrderIsLeast | iap.py:213-219 | the first qualifying procedure in the sorted order precedes every other qualifying one |
| Iap.Least | iap.py:213-219 | a found procedure qualifies |
| Iap.LeastSpec | iap.py:213-219 | none exactly when no procedure qualifies; otherwise the found one precedes every other qualifying one in the stable CATCHA order |
| Iap.LeastUnique | iap.py:213-219 | a qualifying procedure preceding all others is the one found |
| Iap.RunwayFor | iap.py:220-225 | the reported runway end for a designator |
| Iap.ReportsRunwayUnique | iap.py:220-225 | only one runway end can be reported for a designator |
| Iap.ChooseSpec | iap.py:213-237 | the reference choice is none exactly when no procedure qualifies, otherwise the least qualifying procedure with the texts of its runway end |
| Iap.ChoiceIsReference | iap.py:213-237 | a choice with the promised properties is the reference choice |
| Iap.Airports | iap.py:190-191 | the airport of each procedure |
| Iap.Clamp | iap.py:192-200 | a slice bound past the end means the end |
| Iap.SelectMinima | iap.py:186-239 | fails exactly when some IDENT has no space; otherwise three aligned lists of distinct airports, each an airport of the procedures, and equal to the reference tabulation of each airport's choice |
| Iap.TabulateSpec | iap.py:186-239 | the reference lists report each airport that has a choice, once, in order of first appearance (`IndexOf` in the airports strictly increasing), with that choice's texts |
| Iap.GroupBounds | iap.py:190-195 | the slice bounds of group j are the group of the procedures and the group of the runway ends of its airport |
| Iap.SelectGroup | iap.py:190-239 | one airport either fails on an IDENT without a space or extends the lists to the reference tabulation up to the group's end |
| Iap.GroupOutcome | iap.py:190-239 | recording one airport's choice keeps the lists equal to the reference tabulation |
| Iap.GroupChoice | iap.py:190-239 | the choice made for a group is the reference choice for its airport |
| Iap.TabulateStep | iap.py:186-239 | one group extends the tabulation by its airport exactly when that airport has a choice |
| Iap.TabulatedDone | iap.py:186-239 | at the end of the procedures the lists are the reference tabulation |
| Iap.RunwaySlice | iap.py:191-195 | the runway slice of an airport is non-empty and starts at its first runway end |
| Iap.ScanStep | iap.py:190-239 | one airport more keeps the chosen airports distinct and drawn from the scanned procedures |
| Iap.GroupCrash | iap.py:204-211 | a procedure without a space in its slice is a procedure without a space in the list |
| Iap.ScanDone | iap.py:190-239 | every reported airport is an airport of the procedures |
| Iap.KeptIsReported | iap.py:156-165 | a kept procedure is an input procedure of the right type, not COPTER, at an airport with a long and wide enough end |
| Iap.AllReported | iap.py:156-239 | every reported airport has such a procedure and such a runway end |
| Iap.ReportedIsKept | iap.py:150-171 | a procedure that passes every filter (type letter, not COPTER, an airport with a long and wide enough end) is among the kept procedures |
| Iap.KeptSpaceless | iap.py:150-211 | a kept procedure without a space in IDENT exists exactly when an input procedure without one passes every filter |
| Iap.Run | iap.py:104-239 | fails exactly when a RWY.txt number does not parse, an IDENT is empty, or a procedure that passes every filter has an IDENT without a space; otherwise the reference result: for each airport of the kept procedures, in order, the least qualifying procedure's texts; the airports are distinct, each with a kept procedure and a long and wide enough runway end |
| Iap.RwyRows | iap.py:104-111 | the runway rows of RWY.txt after its header line |
| Iap.TrmRows | iap.py:139-148 | the procedures of TRM_MIN.txt after its header line |
| Iap.RwyRowAt | iap.py:104-111 | a record with at least 7 fields yields the runway row that ReadRwyRow reads from it |
| Iap.TrmRowAt | iap.py:139-148 | a record with at least 20 fields yields the procedure that ReadTrmRow reads from it |
| Iap.RunFiles | iap.py:100-239 | an empty file fails at its header, a short row fails; otherwise the result of Run on the rows read |
| Iap.WideFiles | iap.py:100-148 | reading every row means the files are wide enough, and gives exactly the rows read |
| Iap.Kept | iap.py:156-159 | the procedure filter: the type filter occurs in the IDENT's first character, the IDENT does not contain COPTER, and the airport has a runway end left |
| Iap.IndexTable | iap.py:173-185 | the index table: every first-occurrence position in increasing order, starting at 0, then the length + 1 |
| Iap.StrLess | iap.py:213 | Python's `<` on strings: character by character, a proper prefix first |
| Iap.Before | iap.py:213 | the order of `sorted(range(n), key=...)`: a smaller CATCHA, or an equal one and a smaller index |
| Iap.Qualifies | iap.py:216-219 | a procedure qualifies when it is circling or its designator is a runway end of the airport, and its CATCHA is not empty |
| Iap.RwyLabel | iap.py:220-228 | the RWY text: the circling mark for circling, the runway end, its length and width |
| Iap.IapLabel | iap.py:231-236 | the IAP text: the procedure name, CATCDH, CATCHA, CATCWC without leading zeros and CATCWV |
| Iap.Choose | iap.py:213-239 | the choice for one airport: the first qualifying procedure in the stable CATCHA order, with its runway end and texts; none when nothing qualifies |
| Iap.ChoiceFor | iap.py:190-239 | the choice for an airport of the kept procedures: Choose on its procedure group and its runway slice; none when it is missing from either list or nothing in its group qualifies |
| Iap.Tabulate | iap.py:186-239 | the three result lists: the airports that have a choice, in order of first appearance, each with its choice's texts |
| Iap.Expected | iap.py:116-239 | the result on inputs where the script does not raise: the runway ends that meet both minima, the procedures kept by the filter, and Tabulate of their choices |
| Iap.Outcome | iap.py:104-239 | the script's outcome: none on a bad RWY.txt number, an empty IDENT, or an IDENT without a space on a procedure that passes every filter; otherwise Expected |

## Left out

- Opening files, `argparse`, the Tk file dialogs and the `input()` prompts. The csv module's tab splitting is left out: the models start from rows split into fields (iap.py) or into named fields (agear.py, suas.py), and from the filter values.
- Suas: a finished ring is handed to `geojson.Polygon` before `coordinates.pop()` removes its closing point (suas.py:115-123, 250-256). The geojson package copies the coordinates it is given, so the emitted feature keeps the closing point; the model emits a copy of the closed ring accordingly.
- Writing GeoJSON, CSV and XML. Outputs are the values the scripts would serialise: features, `trm_arpt`/`trm_rwy`/`trm_iap`, drawing objects.
- The cosmetic XML attributes of `append2drx` (line width, fonts, text anchors and the like) are not modelled. Only the ID, Next, figure kind, points, centre, radii, colour and tooltip are.
- `projection` and `bearing` (suas.py:271-294) use trigonometry. They are a `Geodesy` parameter: bearings and projected points are uninterpreted apart from their shape.
- `float()` parsing is left out: coordinates arrive as reals. Real arithmetic is exact, not IEEE 754 floating point.
- Geo.Round4: stated as a rounding within 0.00005, not as Python's exact binary rounding of ties.
- The `KeyError` of suas.py:95-96 for a SUAS_IDENT missing from SUAS_CTRY.TXT is not modelled: each row carries its country.
- `int()` accepting underscores and non-ASCII digits, and `upper()` on non-ASCII letters, are left out. Only ASCII digits and a sign are modelled; the whitespace `int()` and `strip()` skip is Python's whitespace set (`str.isspace`).
- The ARPT.txt dictionaries of iap.py:85-98 and the output loop iap.py:250-261 are left out, and so are the failures they can raise: `next(arpt_raw)` on an empty ARPT.txt (StopIteration, iap.py:92), a short ARPT.txt row (IndexError on `row[10]`, iap.py:94-98), and a reported airport missing from ARPT.txt (KeyError on `arpt_ident[a]`, iap.py:253). Iap.Run's "fails exactly when" therefore covers RWY.txt and TRM_MIN.txt only.
- Agear.AirportOf: WGS_DLAT and WGS_DLONG arrive as reals. The script keeps them as texts and converts them with `float()` when it builds the point (agear.py:139-140); a text that `float()` rejects is not modelled.
- The csv reading of agear.py:73-108 starts from rows already split into fields. A short row of APPC_ABSORBING_SYS.txt or APPC_ENGAGING_DEV.txt (`row[1]` failing) is not modelled: each row arrives as a code and a name.
- Agear.Run: the geojson writing and the file names are left out; the result is the list of features.
- The six parallel TRM lists of iap.py are one list of procedure records. The four RWY lists are kept as four aligned sequences.
- Iap.SortedSet: `list(set(...)).sort()` is computed by an increasing scan over the index range, with the same result.
- Iap.SelectMinima: the slicing by `i_rwy` is modelled as written. That includes its reliance on each airport's runway ends being contiguous, which the script does not check. The contract does not state which runway ends an airport's slice holds when they are not contiguous. The `i_trm` slicing (iap.py:196-200) relies on each airport's procedures being contiguous in the same way, and is also modelled as written: when they are not, an airport's group `procs[k..GroupEnd(s, k)]` can hold procedures of an airport that appeared earlier, and one of those can be reported under this airport's name.
- The agear loop body is factored into Agear.GroupRow. The backward deletion loop is written once for any row type, as Agear.DeleteFailing.
- fuel.py, ccx.py, mtr.py and merge-geojson.py are not part of this model.
