# Mining-Log deed pipeline in Dafny

Mining-Log watches an Entropia Universe game client. It reads the mining
deed tooltip by OCR, keeps the deeds it finds on a map with a countdown,
tracks the player's compass position, and listens to the chat log for the
"resource is depleted" system message that removes the nearest deed.

This project models the parts of that pipeline that are pure text,
integer and coordinate logic, and proves properties of them:

- **Deed text parsing.** This covers the tooltip line recognisers of
  `src/Scanner/ocr_core.py`, the line preparation and `Position:` merge of
  both `parser.py` files, and the two `parse_deed_text` variants. The
  variants are a dictionary with `ttl_sec`/`time_left` and a model with an
  absolute expiry. The deed model's `ttl_sec` and `time_left` are modelled
  too. The OCR text normalisation of `ocr_text_block` is included.
- **Three deed stores.** The in-memory repository dedupes on
  (x, y, resource), removes the nearest deed within a cap and
  garbage-collects. The scene marker controller dedupes by Euclidean
  distance and counts down once per tick. The marker service dedupes by
  Manhattan distance and emits added/updated/tick/removed events. Each
  store is a function from state and input to the new state and the
  emitted events.
- **Coordinates.** This covers the lon/lat to scene map, its inverse from
  the map view, the player circle radius and the player rectangle.
- **Region arithmetic.** This covers the radar best-scale selection, the
  deed ROI clamp, the capture region and the compass region.
- **Line classifiers.** This covers the compass `Lon:`/`Lat:` reader, the
  chat-log channel router and the depleted-resource filter.

Each regex is a hand-written deterministic matcher over the text from a
candidate position on. `SearchFrom` is `re.search`: with `^` under `re.M`
the candidates are position 0 and every position after a `'\n'`, and
otherwise every position. Wall-clock and monotonic reads are a `now: real`
parameter. OCR, image processing and I/O are inputs.

One module per source concern:

| file | module | source |
|---|---|---|
| wrappers.dfy | Wrappers | Python `None` |
| seqs.dfy | Seqs | filtering, counting, first minimum |
| text.dfy | Text, Words | `str` operations |
| decimal.dfy | Decimal | `int(...)`, `str(n)`, `:02` |
| clock.dfy | Clock | `H:MM:SS` texts |
| reals.dfy | Reals | `int(float)` truncation |
| deed_model.dfy | Deeds | src/Models/deed_model.py |
| deed_patterns.dfy | DeedPatterns | src/Scanner/ocr_core.py regexes |
| deed_parser.dfy | DeedParser | both parser.py files |
| ocr_text.dfy | OcrText | `ocr_text_block` |
| ocr_controller.dfy | OcrController | src/Scanner/ocr_controller.py |
| deed_repository.dfy | DeedRepository | src/Repositories/deed_repository.py |
| map_geometry.dfy | MapGeometry | src/map/map_utils.py, src/Map/map_view.py |
| player_position.dfy | PlayerPosition | src/Services/player_position_service.py |
| marker_controller.dfy | MarkerController | src/Map/map_deed_controller.py |
| marker_service.dfy | MarkerService | src/services/map_deed_service.py |
| screen_capture.dfy | ScreenCapture | src/scanner/screen_capture.py |
| compass.dfy | Compass | src/Scanner/player_position_scanner.py |
| radar.dfy | Radar | Modules/OCR/ocr.py |
| chat_log.dfy | ChatLog | src/chat_logger/log_listener.py, src/Services/system_event_manager.py |

## Model

| member | source | states |
|---|---|---|
| Decimal.DecimalRoundTrip | src/Scanner/parser.py:44 | `int(str(n)) == n`: a printed count reads back as itself |
| Decimal.DecimalLength | src/Scanner/ocr_core.py:17 | a printed number has at most k digits exactly when it is below 10^k; this is how the `{1,4}` and `{3,6}` bounds become value bounds |
| Decimal.ZeroPad2 | src/Models/deed_model.py:33 | `:02` gives at least two digits, exactly two below 100, no leading zero when longer than two, and reads back as the number |
| Clock.FormatTimeLeft | src/Models/deed_model.py:29-33 | the `HH:MM:SS` text reads back as the seconds it was made from; of its three ':'-separated fields the hours have at least two digits and a leading zero only when exactly two, and minutes and seconds are two digits below 60 |
| Clock.FormatTtl | src/Map/map_deed_controller.py:6-12 | the caption clock reads back as the count, with a negative count read as 0; hours are unpadded, minutes and seconds two digits below 60 |
| Clock.ClockValueOfFields | src/Scanner/parser.py:55-56 | splitting `h:mi:s` at ':' and taking `h*3600 + mi*60 + s` is the value of three digit fields |
| Clock.HmsDecompose | src/Models/deed_model.py:31-32 | `divmod` by 3600 and 60 recombines to the count, with minutes and seconds below 60 |
| Reals.Trunc | src/Models/deed_model.py:23 | `int(x)` truncates toward zero: the floor for non-negative x and the ceiling for negative x |
| Reals.TruncMonotone | src/Models/deed_model.py:23 | truncation keeps order |
| Deeds.BareDeed | src/Models/deed_model.py:6-16 | `raw` is the only required field; every other field starts unset |
| Deeds.TtlSec | src/Models/deed_model.py:19-24 | none exactly when there is no expiry; 0 exactly when less than a second is left; otherwise the whole seconds left |
| Deeds.TtlNonIncreasing | src/Models/deed_model.py:22-23 | the remaining seconds never grow as time passes |
| Deeds.PastExpiryIsZero | src/Models/deed_model.py:23 | an expiry in the past clamps to 0 |
| Deeds.TimeLeft | src/Models/deed_model.py:27-34 | none exactly when `ttl_sec` is none; otherwise a clock text whose value is `ttl_sec`, with hours of at least two digits and no spare leading zero, and minutes and seconds of two digits below 60 |
| DeedPatterns.MatchDepth | src/Scanner/ocr_core.py:17 | a matched depth is at most 9999 |
| DeedPatterns.DepthRoundTrip | src/Scanner/ocr_core.py:17 | a printed `Depth: N m` line, with any white space around N, reads back as N exactly when N has at most four digits |
| DeedPatterns.MatchSize | src/Scanner/ocr_core.py:18 | a matched size name is a non-empty run of letters |
| DeedPatterns.SizeRoundTrip | src/Scanner/ocr_core.py:18 | a printed `Size: Name (P)` line with a letters-only name reads back as the name and P |
| DeedPatterns.MatchResource | src/Scanner/ocr_core.py:19 | a matched resource has at least two characters, starts with a letter, and has only letters, spaces, '-' and '\'' |
| DeedPatterns.ResourceRoundTrip | src/Scanner/ocr_core.py:19 | a printed resource line reads back as the whole name |
| DeedPatterns.MatchTime | src/Scanner/ocr_core.py:20 | a matched countdown has hours at most 29 and minutes and seconds below 60, and its text reads back as those three numbers |
| DeedPatterns.TimeRoundTrip | src/Scanner/ocr_core.py:20 | the deed model's own `time_left` text after `Time left:` is matched exactly when it is below 30 hours, and then as its hours, minutes and seconds |
| DeedPatterns.MatchTriple | src/Scanner/ocr_core.py:22 | matched x and y are below 10^6 and z below 10^4 |
| DeedPatterns.TripleRoundTrip | src/Scanner/ocr_core.py:22 | a printed `(x, y, z)` reads back exactly when x and y have 3-6 digits and z has 1-4 |
| DeedPatterns.MatchPositionWithPlanet | src/Scanner/ocr_core.py:21-24 | a match carries a letters-only planet and the bounded triple |
| DeedPatterns.PlanetLineRoundTrip | src/Scanner/ocr_core.py:21-24 | a printed `Position: Planet (x, y, z)` line reads back as the planet and the triple, under the triple's digit bounds |
| DeedPatterns.MatchPositionNumbers | src/Scanner/ocr_core.py:25-28 | a match carries no planet and the bounded triple |
| DeedPatterns.NumbersLineRoundTrip | src/Scanner/ocr_core.py:25-28 | a printed `Position: (x, y, z)` line reads back as the triple, under its digit bounds |
| DeedPatterns.SearchFrom | src/Scanner/parser.py:43 | `re.search`: none exactly when no candidate position matches; otherwise the match at the leftmost candidate that matches |
| DeedPatterns.SearchKeeps | src/Scanner/parser.py:43-65 | whatever a recogniser promises of every match holds for the first match a search finds |
| DeedPatterns.SearchPastLine | src/Scanner/parser.py:43 | an anchored search whose pattern misses the first line goes on as a search of the following lines |
| DeedPatterns.TooltipMatches | src/Scanner/ocr_core.py:17-24 | in a printed tooltip each pattern's first match is on its own line and reads back the values printed there |
| OcrText.Longer | src/Scanner/ocr_core.py:90 | the longer of the two passes, the first on a tie |
| OcrText.CollapseBlanks | src/Scanner/ocr_core.py:96 | no tab and no two adjacent spaces remain; empty stays empty and the first character is kept or becomes one space |
| OcrText.CollapseAround | src/Scanner/ocr_core.py:96 | normalisation acts on each side of any other character separately, so every newline stays where it was |
| OcrText.CollapseIdempotent | src/Scanner/ocr_core.py:96 | normalising twice is normalising once |
| OcrText.SettledFixed | src/Scanner/ocr_core.py:96 | text with no tab and no double space is left unchanged |
| OcrText.CollapseKeepsText | src/Scanner/ocr_core.py:96 | every character other than space and tab survives, in order |
| OcrText.CollapseIsDropDoubled | src/Scanner/ocr_core.py:96 | replacing every run of spaces and tabs by one space is the same as turning tabs into spaces and then dropping each space whose left neighbour is a space |
| OcrText.OcrTextBlock | src/Scanner/ocr_core.py:84-97 | the block text is the longer stripped pass with every tab turned into a space and every space that follows a space dropped; it is normalised and holds exactly that pass's non-blank characters |
| DeedParser.PrepareLines | src/Scanner/parser.py:39 | lines have no CR or LF, are stripped and non-blank, and are no more than the input's lines; a text without '\n' gives its one line stripped and without CR, or nothing when that is blank |
| DeedParser.PrepareConcat | src/Scanner/parser.py:39 | the lines of two texts joined at a '\n' are the lines of the first followed by those of the second |
| DeedParser.PrepareCleanText | src/Scanner/parser.py:39 | clean lines joined by '\n' prepare back to themselves |
| DeedParser.MergePositionLines | src/Scanner/parser.py:14-29 | between ceil(n/2) and n lines come out |
| DeedParser.Starts | src/Scanner/parser.py:18-28 | the scan visits index 0 first; from each visited index it moves two on when that line is a `position:` line followed by a line holding ',' or ')', and one on otherwise; the visited indices increase and the last step lands exactly on the end |
| DeedParser.MergePieces | src/Scanner/parser.py:14-29 | the k-th output line belongs to the k-th visited index: a `position:` line followed by a line holding ',' or ')' comes out joined to that line by one space, any other line comes out unchanged, and an absorbed line is never visited itself |
| DeedParser.MergeKeepsText | src/Scanner/parser.py:14-29 | the merged lines joined by single spaces spell the input lines joined by single spaces: no text is lost, added or reordered |
| DeedParser.MergeIdentity | src/Scanner/parser.py:22-26 | the merge changes nothing exactly when no `position:` line is followed by a line holding ',' or ')' |
| DeedParser.MergeClean | src/Scanner/parser.py:22-27 | merged lines stay clean |
| DeedParser.MergeKeepsAbsent | src/Scanner/parser.py:25 | a character other than a space that no input line holds is in no merged line |
| DeedParser.Blob | src/Scanner/parser.py:39-41 | the blob holds no CR |
| DeedParser.BlobLines | src/Scanner/parser.py:39-41 | splitting the blob at '\n' gives the merged lines |
| DeedParser.BlobKeepsAbsent | src/Scanner/parser.py:39-41 | no character other than space and newline appears in the blob that was not in the text |
| DeedParser.FindPosition | src/Scanner/parser.py:58-65 | the first `RE_POS_WITH_PLANET` match when there is one, and otherwise the first `RE_POS_NUMBERS_ONLY` match; none only when both miss; a planet exactly when the planet form matched; bounded coordinates |
| DeedParser.FindSize | src/Scanner/parser.py:46-48 | present exactly when `RE_SIZE` matches; the label is the title-cased name and the points are the count |
| DeedParser.FindResource | src/Scanner/parser.py:50-51 | present exactly when `RE_RESOURCE` matches; single-spaced, and its pieces between single spaces are the words of the first match |
| Words.CollapseSpaces | src/Scanner/parser.py:51 | `" ".join(s.split())` is single-spaced, keeps the non-space text, is empty when there are no words, and splits at ' ' into exactly the words of the input |
| DeedParser.FindTime | src/Scanner/parser.py:53-56 | present exactly when `RE_TIME` matches; the text is the first match's countdown text and the seconds are its `h*3600 + mi*60 + s`, at most 107999 and the value of that text |
| DeedParser.FindDepth | src/Scanner/parser.py:43-44 | none exactly when no line matches `RE_DEPTH`; otherwise the first match's depth, at most 9999 |
| DeedParser.ReadFields | src/Scanner/parser.py:43-67 | `raw` is the blob; every field is what its pattern's first match in the blob gives (the depth, the title-cased size name and points, the words of the resource, the countdown text and its seconds, the position match's coordinates and title-cased planet) and is absent without a match; the fields agree with each other |
| DeedParser.Assemble | src/Scanner/parser.py:43-67 | each field is passed through from its finder: depth, size label and points, resource, countdown text and seconds, coordinates, and the planet title-cased; the fields agree with each other |
| DeedParser.ParseDeedText | src/Scanner/parser.py:32-68 | total: `raw` has no CR and its lines are the merged lines; the fields are those read from `raw` |
| DeedParser.TooltipParsed | src/Scanner/parser.py:32-68 | a tooltip printed as `Depth:`, `Size:`, `Resource:`, `Time left:` and `Position:` lines parses back into the printed depth, title-cased size name and points, resource words, countdown and its seconds, title-cased planet and coordinates, with the text itself as `raw` |
| DeedParser.ToModel | src/scanner/parser.py:56-59 | an expiry exactly when a time was read, equal to `now + ttl`, and the model's `ttl_sec` at `now` is that ttl |
| DeedParser.ParseDeedModel | src/scanner/parser.py:35-71 | the expiry lies between `now` and `now + 107999` and the model's `ttl_sec` is the dictionary variant's |
| DeedParser.VariantsAgree | src/scanner/parser.py:35-71 | both parser variants read the same raw text, depth, size, resource, planet and coordinates, and their countdown texts denote the same seconds at parse time |
| DeedParser.ParseAtLaterTime | src/scanner/parser.py:56-59 | parsing later shifts the expiry by the elapsed time and changes nothing else |
| OcrController.ClampRoi | src/Scanner/ocr_controller.py:22-28 | `0 <= x1 <= W-1`, `1 <= x2 <= W` and likewise for y; a rectangle inside the image is kept exactly |
| OcrController.RoiNonEmpty | src/Scanner/ocr_controller.py:25-28 | with a non-empty image and rectangle the crop is non-empty |
| OcrController.Slice | src/Scanner/ocr_controller.py:29 | Python slicing: an empty result when the end is not after the start |
| OcrController.Roi | src/Scanner/ocr_controller.py:29 | the crop has the clamped rows and columns of the image |
| OcrController.ExtractDeedFromImage | src/Scanner/ocr_controller.py:31-33 | the result is the parse of the normalised OCR text of the crop, and its raw text has no tab |
| DeedRepository.AddOrUpdate | src/Repositories/deed_repository.py:15-22 | a new key appends the deed; on a known key the first item with that key is replaced by the deed exactly when the deed's TTL is greater, and every other item stays as it was |
| DeedRepository.AddKeepsKeysUnique | src/Repositories/deed_repository.py:15-22 | (x, y, resource) keys stay unique |
| DeedRepository.AddSameDeedTwice | src/Repositories/deed_repository.py:15-22 | adding the same deed again changes nothing |
| DeedRepository.RemoveNearest | src/Repositories/deed_repository.py:24-42 | deeds without x or y are never candidates; nothing is removed exactly when no candidate is within the cap; otherwise the first candidate at minimal distance is removed and returned |
| DeedRepository.RemoveNearestAtMostOne | src/Repositories/deed_repository.py:40-42 | at most one deed leaves the store |
| DeedRepository.Survivors | src/Repositories/deed_repository.py:46-53 | the survivors are alive deeds of the store, and every alive deed survives |
| DeedRepository.SurvivorsConcat | src/Repositories/deed_repository.py:48-52 | collection works item by item, so survivor order is kept |
| DeedRepository.SurvivorsAllAlive | src/Repositories/deed_repository.py:44-54 | a store of live deeds is left as it is |
| DeedRepository.GcExpired | src/Repositories/deed_repository.py:44-54 | keeps exactly the live deeds in order and returns the number of expired ones, old count minus new |
| DeedRepository.ExpiredCount | src/Repositories/deed_repository.py:49-50 | the expired count is the old length minus the survivors' |
| MapGeometry.GetPlanetConfig | src/map/map_utils.py:4-6 | present exactly when the current planet has a config, and then it is that config |
| MapGeometry.LonLatToScene | src/map/map_utils.py:22-40 | x is the lon offset scaled to the map width; y is the map height minus the lat offset scaled to it |
| MapGeometry.SceneToLonLat | src/Map/map_view.py:39-47 | the cursor's scene point maps to lon and lat by the inverse scaling |
| MapGeometry.LonLatRoundTrip | src/Map/map_view.py:42-47 | scene coordinates of a lon/lat read back as that lon/lat |
| MapGeometry.SceneRoundTrip | src/map/map_utils.py:27-38 | a scene point's lon/lat maps back to the point |
| MapGeometry.SceneCorners | src/map/map_utils.py:27-38 | (min lon, min lat) is the bottom-left corner and (max lon, max lat) the top-right |
| MapGeometry.AxesIndependent | src/map/map_utils.py:27-38 | x depends on lon only and y on lat only |
| MapGeometry.InRangeOnMap | src/map/map_utils.py:27-38 | with positive ranges an in-range lon/lat lands on the map |
| MapGeometry.CoordToPixelRadius | src/map/map_utils.py:9-19 | 0 on a zero lon range; otherwise the truncation of radius/range times map width |
| MapGeometry.RadiusIsSceneLength | src/map/map_utils.py:9-19 | the radius is the truncated scene distance of a lon step of the configured radius |
| PlayerPosition.InitialState | src/Services/player_position_service.py:19-20 | the player starts at (0, 0) with an empty rectangle |
| PlayerPosition.UpdatePosition | src/Services/player_position_service.py:28-34 | the stored point is the forward map of (lon, lat), and on a map with area it maps back to (lon, lat); the rectangle is a square of side 2·radius centred on it; exactly one event carries both |
| PlayerPosition.RectSizeIndependentOfPosition | src/Services/player_position_service.py:32 | the rectangle's size depends on the config only |
| PlayerPosition.UpdateTwiceSamePlace | src/Services/player_position_service.py:34 | repeating an update yields the same state and again one event |
| MarkerController.FirstNear | src/Map/map_deed_controller.py:29-32 | the first marker within 10 px (Euclidean), or the end |
| MarkerController.AddOrUpdate | src/Map/map_deed_controller.py:21-65 | the first marker within 10 px keeps its position, takes the larger of its countdown and the new one (none as 0) and a non-empty label, and every other marker is unchanged; with no near marker one is appended at the scene point with the countdown and the label or "" |
| MarkerController.AddKeepsSeparated | src/Map/map_deed_controller.py:29-37 | no two markers come within 10 px of each other |
| MarkerController.Tick | src/Map/map_deed_controller.py:81-92 | every survivor has at least 1 left and there are no more markers than before |
| MarkerController.TickOne | src/Map/map_deed_controller.py:85-91 | a marker loses exactly one second and is dropped when that leaves at most 0 |
| MarkerController.TickConcat | src/Map/map_deed_controller.py:84-92 | a tick works marker by marker, so survivors keep their order |
| MarkerController.TickKeepsSeparated | src/Map/map_deed_controller.py:81-92 | separation survives a tick |
| MarkerController.TickPositions | src/Map/map_deed_controller.py:81-92 | no survivor moves |
| MarkerController.Caption | src/Map/map_deed_controller.py:71-74 | `_fmt_ttl` of the remaining seconds alone when there is no label, else the label, " \| " and that text |
| MarkerService.InitialState | src/services/map_deed_service.py:22-23 | no markers and the player at (0, 0) |
| MarkerService.ReadIntOf | src/services/map_deed_service.py:50 | a printed integer followed by a non-digit reads back |
| MarkerService.MarkerId | src/services/map_deed_service.py:50 | a marker id `"{lon}-{lat}-{count}"` parses back to lon, lat and count |
| MarkerService.MarkerIdInjective | src/services/map_deed_service.py:50 | different (lon, lat, count) give different ids |
| MarkerService.FirstNear | src/services/map_deed_service.py:40-41 | the first marker within Manhattan distance 10, or the end |
| MarkerService.Refresh | src/services/map_deed_service.py:42-47 | the marker takes the new deed exactly when its TTL is strictly greater and every other marker is untouched; one updated event carries the marker's id, the new point, its radius and its resulting deed |
| MarkerService.OnScanResult | src/services/map_deed_service.py:29-54 | a deed without x or y changes nothing; the first marker within Manhattan distance 10 takes the deed exactly when its TTL is strictly greater, every other marker is untouched, and one updated event carries that marker's id, radius and deed at the new point; otherwise one marker with id `lon-lat-count` and radius 0.2 is appended and one added event emitted |
| MarkerService.ScanKeepsSeparated | src/services/map_deed_service.py:40-54 | no two markers are within Manhattan distance 10 |
| MarkerService.TickEvent | src/services/map_deed_service.py:62-65 | removed exactly for a marker whose TTL is at most 0, otherwise a tick with its TTL |
| MarkerService.TickDeeds | src/services/map_deed_service.py:59-67 | keeps exactly the live markers in order, unmodified, with one event per marker in order |
| MarkerService.TickSettled | src/services/map_deed_service.py:59-67 | a second tick at the same time removes nothing |
| MarkerService.KeepSeparated | src/services/map_deed_service.py:66-67 | dropping markers keeps the rest separated |
| MarkerService.RemoveNearest | src/services/map_deed_service.py:75-86 | an empty list is a no-op; otherwise exactly the first marker at minimal Manhattan distance to the player is removed, with no cap, and one removed event carries its id |
| MarkerService.RemoveKeepsSeparated | src/services/map_deed_service.py:75-86 | separation survives a removal |
| MarkerService.OnPlayerPositionChanged | src/services/map_deed_service.py:56-57 | the player point is replaced and the markers are untouched |
| MarkerService.InitialWellformed | src/services/map_deed_service.py:22-23 | the initial state is well-formed |
| MarkerService.ScanKeepsWellformed | src/services/map_deed_service.py:29-54 | a scan keeps markers separated and every id naming the lon/lat of its marker's point |
| MarkerService.TickKeepsWellformed | src/services/map_deed_service.py:59-67 | a tick keeps the state well-formed |
| MarkerService.RemoveKeepsWellformed | src/services/map_deed_service.py:75-86 | a removal keeps the state well-formed |
| ScreenCapture.BuildCaptureRegion | src/scanner/screen_capture.py:25-33 | the origin is the client's screen origin plus the offset; width and height are in [0, 445], 445 when there is room and otherwise what is left of the client |
| ScreenCapture.CaptureInsideClient | src/scanner/screen_capture.py:31-32 | with the offset inside the client, the region does not reach past the client's right and bottom |
| Compass.BuildCompassRegion | src/Scanner/player_position_scanner.py:48-68 | width and height are as requested; left and top are never negative; unclamped, the right and bottom edges sit the pads inside the client's corner |
| Compass.CompassInsideClient | src/Scanner/player_position_scanner.py:62-68 | an unclamped region lies inside the client |
| Compass.MatchLonLat | src/Scanner/player_position_scanner.py:29 | both numbers are below 10^6 |
| Compass.ReadLonLat | src/Scanner/player_position_scanner.py:117 | none exactly when the pattern matches at no position; otherwise the match at the leftmost position where it matches, both numbers below a million |
| Compass.ScanCycle | src/Scanner/player_position_scanner.py:117-123 | the callback runs at most once per cycle, exactly when there is a reading, and then with the reading's lon and lat |
| Compass.CompassRoundTrip | src/Scanner/player_position_scanner.py:29 | printed `Lon:` and `Lat:` values below 10^6, with any white space and a gap ending in CR or LF, read back |
| Compass.NoBreakNoReading | src/Scanner/player_position_scanner.py:29 | without CR or LF between the number and `Lat:` there is no reading |
| Radar.MaskOf | Modules/OCR/ocr.py:16 | the mask has the template's shape and is 255 exactly where alpha is above 1, 0 elsewhere |
| Radar.Best | Modules/OCR/ocr.py:22-40 | without a location the best score is 0; a location names a scale whose positive score is the best score |
| Radar.BestIsWinner | Modules/OCR/ocr.py:21-40 | the selection is the first scale with the highest positive score, or none when no score is positive |
| Radar.WinnerUnique | Modules/OCR/ocr.py:37-40 | there is only one such scale |
| Radar.SelectBest | Modules/OCR/ocr.py:21-40 | the loop's best score and location are the selection |
| Radar.Detect | Modules/OCR/ocr.py:5-64 | a missing template fails first; a best score below the threshold fails; otherwise the winner's location and location plus its width and height |
| Radar.Decide | Modules/OCR/ocr.py:42-49 | given the winner, detection fails exactly when its score is below the threshold, has no candidate exactly when no score is positive and the threshold is at most 0, and otherwise boxes the winning scale |
| Radar.TieKeepsEarlier | Modules/OCR/ocr.py:37 | a later scale with an equal score does not replace the best |
| Radar.NoPositiveScore | Modules/OCR/ocr.py:22 | with no positive score and a positive threshold, detection fails with best 0 |
| ChatLog.ChannelRoundTrip | src/chat_logger/log_listener.py:12-14 | a stamped line `[channel] message` yields the channel, when the channel is a non-empty run without white space and the message is non-empty |
| ChatLog.ChannelMatch | src/chat_logger/log_listener.py:12-14 | a found channel is a non-empty run without white space |
| ChatLog.NoStampNoRoute | src/chat_logger/log_listener.py:13 | a line without the date-time stamp is not routed |
| ChatLog.ChannelOf | src/chat_logger/log_listener.py:36-41 | system exactly for `system` in any case, globals exactly for `globals`, other otherwise |
| ChatLog.Route | src/chat_logger/log_listener.py:53-55 | a route exactly when the line matches, with the stripped line as payload and the channel's tag |
| ChatLog.Emit | src/chat_logger/log_listener.py:53-55 | a line emits once when it is routed and not at all otherwise |
| ChatLog.Worker | src/chat_logger/log_listener.py:47-55 | one emission per routed line |
| ChatLog.WorkerConcat | src/chat_logger/log_listener.py:47-55 | the emissions of a log are those of its parts, in order |
| ChatLog.WorkerAsWritten | src/chat_logger/log_listener.py:34-57 | as written nothing is ever emitted; with no routed line every line is read, otherwise reading ends with the first routed line |
| ChatLog.AsWrittenStopsAtFirstRoute | src/chat_logger/log_listener.py:34-57 | as written, the worker ends at the first routed line having emitted nothing, although that line had a route |
| ChatLog.SystemLineShowsStop | src/chat_logger/log_listener.py:34-57 | a concrete System line ends the worker as written |
| ChatLog.OnSystem | src/Services/system_event_manager.py:13-15 | an event exactly when the lower-cased text holds "resource is depleted", with the text unchanged |
| ChatLog.DepletedAnyCase | src/Services/system_event_manager.py:14 | the phrase in any letter case is found |

## Left out

- Qt scene items, windows, views, tile loading and zoom are not modelled. They are UI.
- The controller's `radius_px = 50` and the fixed debug dot are not modelled. They are scene items only.
- The two Tesseract passes are parameters. Text outside the model's reach is not modelled.
- Preprocessing, `cv2.resize`, `matchTemplate` and the float scale sweep are not modelled. They are foreign image code.
  - The radar's per-scale (score, location, size) is an input sequence.
  - The deed OCR is one function from the crop to the two passes.
- Screen capture, window lookup, threads, polling loops and file reading are not modelled. They are I/O and concurrency. The chat worker is a function over the lines it reads.
- The `print` calls, the debug and save branches, and the try/except blocks that only print are not modelled.
- Floating point is not modelled. Scene coordinates and expiries are exact reals, and `int()` of a float is `Reals.Trunc`.
- `\d`, `\s`, `lower()` and `title()` are modelled on ASCII only. Non-ASCII digits and letters are not modelled.
  - `\s` is Python's full `isspace` set.
  - Comparing a lowered channel with "system" or "globals" is exact under ASCII lowering.
- `DeedRepository.all` returns a copy. It has no member, because under value semantics every sequence is already a copy.
- `_on_resource_depleted`'s check of `player_pos is None` is not modelled. The position starts as a point and is only ever replaced by points, so the branch cannot run.
- The wiring between modules is not modelled: app_context, main and signal_bus connections, including their argument mismatches.
- The marker service uses `DeedModel` from a module `src.models.deed_model`, and the second parser does too. That module is not part of this model.
  - Both use the deed model of src/Models/deed_model.py, with one `expiry` field standing for `expire_time` and `expire_monotonic` on a single clock.
- DeedPatterns.SearchFrom: candidate positions are exactly those `^` admits. Anchors are modelled only as `re.M` uses them.
- DeedParser.MergePositionLines: a `position:` line absorbs the next line only when it holds ',' or ')'. Digits alone are not enough, which is what the code does.
- DeedPatterns.MatchTime: it states the hour, minute and second bounds and the value of the matched text, not the exact set of accepted texts. `TimeRoundTrip` covers the texts the deed model itself prints.
- MapGeometry.LonLatToScene: both lon and lat ranges must be non-zero. The source divides by them unguarded and raises otherwise.
- MapGeometry.SceneToLonLat: the map width and height (`tile_count_x * tile_size` and `tile_count_y * tile_size`) must be non-zero. `mouseMoveEvent` divides by them unguarded (src/Map/map_view.py:42 and :45) and raises `ZeroDivisionError` otherwise. The model has no value for that case. Likewise, a planet missing from the configuration raises `KeyError` in the source (src/map/map_utils.py:6); the model has this case only as `GetPlanetConfig` returning `None`.
- Radar.Detect: when no score is positive and the threshold is at most 0, the source fails on unpacking `None`. The model returns `NoCandidate` for that case.

## Findings

| source | as written | input that shows it | evidently intended | confidence | as-written member | corrected member |
|---|---|---|---|---|---|---|
| src/chat_logger/log_listener.py:34-57 | `_emit_by_channel` emits through `self.system_event`, `self.globals_event` and `self.other_event`. `ChatLogListener` has no such attributes; they exist only on `SignalBus` (src/App/signal_bus.py:6-8). The first matching line raises `AttributeError`. `_worker` catches it outside its read loop, so the listener stops for good having emitted nothing. | the log line `2024-05-01 12:00:00 [System] The resource is depleted` | emit on the bus (`self.bus.system_event` and so on), one emission per matching line, and keep reading | high (not executed) | ChatLog.WorkerAsWritten, ChatLog.AsWrittenStopsAtFirstRoute, ChatLog.SystemLineShowsStop | ChatLog.Worker, ChatLog.Route, ChatLog.WorkerConcat |
