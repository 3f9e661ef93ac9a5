/** The OCR-text parser. The repository keeps two copies that differ only
    in what they return: src/Scanner/parser.py builds a dict carrying the
    countdown text and its seconds, src/scanner/parser.py builds a
    `DeedModel` whose expiry is the clock plus those seconds. Both prepare
    the lines the same way and run the same recognisers. */
module DeedParser {
  import opened Wrappers
  import opened Text
  import opened Words
  import opened Seqs
  import opened Decimal
  import opened Clock
  import opened DeedPatterns
  import opened Deeds

  // ------------------------------------------------------------ lines

  predicate NonBlank(s: string) {
    |s| > 0
  }

  /** A prepared line: non-empty, stripped, and free of line breaks. */
  predicate CleanLine(s: string) {
    |s| > 0 && IsStripped(s) && '\n' !in s && '\r' !in s
  }

  predicate AllClean(ls: seq<string>) {
    forall i :: 0 <= i < |ls| ==> CleanLine(ls[i])
  }

  function StripEach(parts: seq<string>): (r: seq<string>)
    ensures |r| == |parts|
    ensures forall i :: 0 <= i < |parts| ==> r[i] == Strip(parts[i])
  {
    seq(|parts|, i requires 0 <= i < |parts| => Strip(parts[i]))
  }

  /** The list comprehension that opens `parse_deed_text`: carriage returns
      deleted, the text split at '\n', every line stripped, blank lines
      dropped. */
  function PrepareLines(text: string): (ls: seq<string>)
    ensures AllClean(ls)
    ensures |ls| <= |Split(DeleteAll(text, '\r'), '\n')|
    ensures '\n' !in text ==>
      var line := Strip(DeleteAll(text, '\r'));
      ls == if |line| > 0 then [line] else []
  {
    var parts := Split(DeleteAll(text, '\r'), '\n');
    SplitFree(DeleteAll(text, '\r'), '\n', '\r');
    var stripped := StripEach(parts);
    StrippedClean(parts, stripped);
    KeptClean(stripped);
    OneLine(text);
    Keep(stripped, NonBlank)
  }

  /** A text without '\n' is one line: it prepares to that line stripped
      and without CR, or to nothing when that is empty. */
  lemma OneLine(text: string)
    ensures '\n' !in text ==>
      var line := Strip(DeleteAll(text, '\r'));
      Keep(StripEach(Split(DeleteAll(text, '\r'), '\n')), NonBlank) == if |line| > 0 then [line] else []
  {
    if '\n' !in text {
      var d := DeleteAll(text, '\r');
      assert Split(d, '\n') == [d];
      var st := StripEach([d]);
      assert st == [Strip(d)];
      KeepCons(Strip(d), [], NonBlank);
      assert [Strip(d)] + [] == [Strip(d)];
    }
  }

  /** Preparing works line by line: the lines of two texts joined by
      '\n' are the lines of the first followed by those of the second. */
  lemma PrepareConcat(a: string, b: string)
    ensures PrepareLines(a + "\n" + b) == PrepareLines(a) + PrepareLines(b)
  {
    var da, db := DeleteAll(a, '\r'), DeleteAll(b, '\r');
    DeleteAroundBreak(a, b);
    SplitConcat(da, db, '\n');
    var pa, pb := Split(da, '\n'), Split(db, '\n');
    StripEachConcat(pa, pb);
    KeepConcat(StripEach(pa), StripEach(pb), NonBlank);
  }

  lemma DeleteAroundBreak(a: string, b: string)
    ensures DeleteAll(a + "\n" + b, '\r') == DeleteAll(a, '\r') + ['\n'] + DeleteAll(b, '\r')
  {
    DeleteAllConcat(a + "\n", b, '\r');
    DeleteAllConcat(a, "\n", '\r');
    assert DeleteAll("\n", '\r') == "\n";
  }

  lemma StripEachConcat(pa: seq<string>, pb: seq<string>)
    ensures StripEach(pa + pb) == StripEach(pa) + StripEach(pb)
  {
  }

  /** Stripping lines without line breaks leaves stripped lines without
      line breaks. */
  lemma StrippedClean(parts: seq<string>, stripped: seq<string>)
    requires forall i :: 0 <= i < |parts| ==> '\n' !in parts[i] && '\r' !in parts[i]
    requires |stripped| == |parts|
    requires forall i :: 0 <= i < |parts| ==> stripped[i] == Strip(parts[i])
    ensures forall i :: 0 <= i < |stripped| ==>
      IsStripped(stripped[i]) && '\n' !in stripped[i] && '\r' !in stripped[i]
  {
    forall i | 0 <= i < |stripped|
      ensures IsStripped(stripped[i]) && '\n' !in stripped[i] && '\r' !in stripped[i]
    {
      StripKeepsAbsent(parts[i], '\n');
      StripKeepsAbsent(parts[i], '\r');
    }
  }

  /** Dropping the blank ones of such lines leaves clean lines. */
  lemma KeptClean(stripped: seq<string>)
    requires forall i :: 0 <= i < |stripped| ==>
      IsStripped(stripped[i]) && '\n' !in stripped[i] && '\r' !in stripped[i]
    ensures AllClean(Keep(stripped, NonBlank))
  {
    var ls := Keep(stripped, NonBlank);
    forall i | 0 <= i < |ls|
      ensures CleanLine(ls[i])
    {
      assert ls[i] in stripped;
      var j :| 0 <= j < |stripped| && stripped[j] == ls[i];
    }
  }

  /** Text that is already a '\n'-join of prepared lines is prepared back
      into those very lines. */
  lemma PrepareCleanText(ls: seq<string>)
    requires AllClean(ls)
    ensures PrepareLines(Join(ls, '\n')) == ls
  {
    var s := Join(ls, '\n');
    JoinFree(ls, '\n', '\r');
    DeleteAbsent(s, '\r');
    if |ls| == 0 {
      assert Split(s, '\n') == [[]];
      assert StripEach([[]]) == [[]];
      var empty: seq<string> := [[]];
      assert Keep(empty, NonBlank) == [];
    } else {
      SplitJoin(ls, '\n');
      forall i | 0 <= i < |ls|
        ensures Strip(ls[i]) == ls[i]
      {
        StripStripped(ls[i]);
      }
      assert StripEach(ls) == ls;
      KeepAllPass(ls, NonBlank);
    }
  }

  // ------------------------------------------------------------ merge

  /** `line.lower().startswith("position:")`. */
  predicate IsPositionLine(s: string) {
    HasLabel(s, "position:")
  }

  /** The line after a position line is pulled up when it contains ',' or
      ')'. */
  predicate Absorbable(s: string) {
    ',' in s || ')' in s
  }

  /** The merge fires at `i`: a position line followed by an absorbable one. */
  predicate MergesAt(ls: seq<string>, i: int) {
    0 <= i < |ls| - 1 && IsPositionLine(ls[i]) && Absorbable(ls[i + 1])
  }

  /** Two clean lines joined by a space make a clean line. */
  lemma JoinedClean(a: string, b: string)
    requires CleanLine(a) && CleanLine(b)
    ensures CleanLine(a + " " + b)
  {
    var j := a + " " + b;
    assert j[0] == a[0] && j[|j| - 1] == b[|b| - 1];
    forall k | 0 <= k < |j|
      ensures j[k] != '\n' && j[k] != '\r'
    {
      if k < |a| {
        assert j[k] == a[k];
      } else if k > |a| {
        assert j[k] == b[k - |a| - 1];
      }
    }
  }

  /** `_merge_position_lines`: a position line swallows the next line when
      that line looks like the coordinates OCR wrapped onto a line of their
      own; the swallowed line is not examined again. */
  function MergePositionLines(ls: seq<string>): (r: seq<string>)
    ensures (|ls| + 1) / 2 <= |r| <= |ls|
    decreases |ls|
  {
    if |ls| == 0 then []
    else if MergesAt(ls, 0) then [ls[0] + " " + ls[1]] + MergePositionLines(ls[2..])
    else [ls[0]] + MergePositionLines(ls[1..])
  }

  /** Where the scan of `_merge_position_lines` goes after index `i`: past
      the next line as well when that line was absorbed. */
  function Next(ls: seq<string>, i: nat): (j: nat)
    requires i < |ls|
    ensures i < j <= |ls|
    ensures j == i + 2 <==> MergesAt(ls, i)
  {
    if MergesAt(ls, i) then i + 2 else i + 1
  }

  /** The line the merge emits at scan index `i`. */
  function Piece(ls: seq<string>, i: nat): string
    requires i < |ls|
  {
    if MergesAt(ls, i) then ls[i] + " " + ls[i + 1] else ls[i]
  }

  /** The indices the scan visits from `i` on: `i` itself, then each next
      one, up to the end; a line absorbed by a merge is never visited. */
  function Starts(ls: seq<string>, i: nat): (st: seq<nat>)
    requires i <= |ls|
    ensures |st| > 0 <==> i < |ls|
    ensures forall k :: 0 <= k < |st| ==> i <= st[k] < |ls|
    ensures |st| > 0 ==> st[0] == i && Next(ls, st[|st| - 1]) == |ls|
    ensures forall k :: 0 <= k < |st| - 1 ==> st[k + 1] == Next(ls, st[k])
    decreases |ls| - i
  {
    if i == |ls| then []
    else
      var rest := Starts(ls, Next(ls, i));
      StartsCons(ls, i, rest);
      [i] + rest
  }

  lemma StartsCons(ls: seq<string>, i: nat, rest: seq<nat>)
    requires i < |ls|
    requires |rest| > 0 <==> Next(ls, i) < |ls|
    requires forall k :: 0 <= k < |rest| ==> Next(ls, i) <= rest[k] < |ls|
    requires |rest| > 0 ==> rest[0] == Next(ls, i) && Next(ls, rest[|rest| - 1]) == |ls|
    requires forall k :: 0 <= k < |rest| - 1 ==> rest[k + 1] == Next(ls, rest[k])
    ensures var st := [i] + rest;
      && (forall k :: 0 <= k < |st| ==> i <= st[k] < |ls|)
      && Next(ls, st[|st| - 1]) == |ls|
      && (forall k :: 0 <= k < |st| - 1 ==> st[k + 1] == Next(ls, st[k]))
  {
    var st := [i] + rest;
    forall k | 0 <= k < |st| - 1
      ensures st[k + 1] == Next(ls, st[k])
    {
      if k > 0 {
        assert st[k] == rest[k - 1] && st[k + 1] == rest[k];
      }
    }
  }

  /** The merged lines are the pieces at the scan indices, in order: each
      is a line that does not merge, or a position line, one space and the
      line after it. */
  lemma {:induction false} MergePieces(ls: seq<string>, i: nat)
    requires i <= |ls|
    ensures var r := MergePositionLines(ls[i..]);
      var st := Starts(ls, i);
      |r| == |st| && forall k :: 0 <= k < |st| ==> r[k] == Piece(ls, st[k])
    decreases |ls| - i
  {
    if i < |ls| {
      var j := Next(ls, i);
      MergePieces(ls, j);
      var t := ls[i..];
      assert MergesAt(t, 0) <==> MergesAt(ls, i) by {
        assert t[0] == ls[i];
        assert |t| > 1 ==> t[1] == ls[i + 1];
      }
      assert t[j - i..] == ls[j..];
      var head := Piece(ls, i);
      assert MergePositionLines(t) == [head] + MergePositionLines(ls[j..]);
    }
  }

  /** Merged lines are still clean lines. */
  lemma {:induction false} MergeClean(ls: seq<string>)
    requires AllClean(ls)
    ensures AllClean(MergePositionLines(ls))
    decreases |ls|
  {
    if |ls| == 0 {
    } else if MergesAt(ls, 0) {
      MergeClean(ls[2..]);
      assert CleanLine(ls[0]) && CleanLine(ls[1]);
      JoinedClean(ls[0], ls[1]);
    } else {
      MergeClean(ls[1..]);
      assert CleanLine(ls[0]);
    }
  }

  /** A join of at least two parts starts with the first part and a
      separator. */
  lemma JoinCons(a: string, rest: seq<string>, sep: char)
    requires |rest| > 0
    ensures Join([a] + rest, sep) == a + [sep] + Join(rest, sep)
  {
    assert ([a] + rest)[1..] == rest;
  }

  /** Merging only replaces a line break by a space: the space-joined text
      is unchanged. */
  lemma {:induction false} MergeKeepsText(ls: seq<string>)
    ensures Join(MergePositionLines(ls), ' ') == Join(ls, ' ')
    decreases |ls|
  {
    if |ls| == 0 {
    } else if MergesAt(ls, 0) {
      var rest := MergePositionLines(ls[2..]);
      MergeKeepsText(ls[2..]);
      var head := ls[0] + " " + ls[1];
      assert MergePositionLines(ls) == [head] + rest;
      assert ls == [ls[0]] + ([ls[1]] + ls[2..]);
      if |ls| == 2 {
        assert rest == [];
        assert Join([ls[1]], ' ') == ls[1];
        JoinCons(ls[0], [ls[1]], ' ');
      } else {
        JoinCons(head, rest, ' ');
        JoinCons(ls[1], ls[2..], ' ');
        JoinCons(ls[0], [ls[1]] + ls[2..], ' ');
      }
    } else {
      MergeKeepsText(ls[1..]);
      var rest := MergePositionLines(ls[1..]);
      assert MergePositionLines(ls) == [ls[0]] + rest;
      if |ls| > 1 {
        assert ls == [ls[0]] + ls[1..];
        JoinCons(ls[0], rest, ' ');
        JoinCons(ls[0], ls[1..], ' ');
      }
    }
  }

  /** The merge changes the lines exactly when some position line is
      followed by an absorbable line. */
  lemma {:induction false} MergeIdentity(ls: seq<string>)
    ensures MergePositionLines(ls) == ls <==> forall i :: 0 <= i < |ls| ==> !MergesAt(ls, i)
    decreases |ls|
  {
    if |ls| > 0 && !MergesAt(ls, 0) {
      var tail := ls[1..];
      MergeIdentity(tail);
      assert ls == [ls[0]] + tail;
      assert MergePositionLines(ls) == [ls[0]] + MergePositionLines(tail);
      if forall i :: 0 <= i < |tail| ==> !MergesAt(tail, i) {
        forall i | 0 <= i < |ls|
          ensures !MergesAt(ls, i)
        {
          if i > 0 {
            assert !MergesAt(tail, i - 1);
            assert ls[i] == tail[i - 1];
            assert i + 1 < |ls| ==> ls[i + 1] == tail[i];
          }
        }
      }
      if forall i :: 0 <= i < |ls| ==> !MergesAt(ls, i) {
        forall i | 0 <= i < |tail|
          ensures !MergesAt(tail, i)
        {
          assert !MergesAt(ls, i + 1);
          assert ls[i + 1] == tail[i];
          assert i + 2 < |ls| ==> ls[i + 2] == tail[i + 1];
        }
      }
      if MergePositionLines(ls) == ls {
        assert MergePositionLines(tail) == MergePositionLines(ls)[1..];
      }
    }
  }

  /** The text the recognisers search and the deed keeps as `raw`. */
  function Blob(text: string): (b: string)
    ensures '\r' !in b
  {
    var ls := MergePositionLines(PrepareLines(text));
    MergeClean(PrepareLines(text));
    JoinFree(ls, '\n', '\r');
    Join(ls, '\n')
  }

  /** Merging adds only spaces. */
  lemma {:induction false} MergeKeepsAbsent(ls: seq<string>, c: char)
    requires c != ' '
    requires forall i :: 0 <= i < |ls| ==> c !in ls[i]
    ensures forall i :: 0 <= i < |MergePositionLines(ls)| ==> c !in MergePositionLines(ls)[i]
    decreases |ls|
  {
    if |ls| > 0 {
      var k := if MergesAt(ls, 0) then 2 else 1;
      MergeKeepsAbsent(ls[k..], c);
      assert forall i :: 0 <= i < |ls[k..]| ==> ls[k..][i] == ls[i + k];
    }
  }

  /** A character other than space and newline that the text lacks, the
      blob lacks too. */
  lemma BlobKeepsAbsent(text: string, c: char)
    requires c !in text && c != ' ' && c != '\n'
    ensures c !in Blob(text)
  {
    var t := DeleteAll(text, '\r');
    assert c !in t;
    SplitFree(t, '\n', c);
    var parts := Split(t, '\n');
    var st := StripEach(parts);
    forall i | 0 <= i < |st|
      ensures c !in st[i]
    {
      StripKeepsAbsent(parts[i], c);
    }
    var ls := Keep(st, NonBlank);
    assert ls == PrepareLines(text);
    forall i | 0 <= i < |ls|
      ensures c !in ls[i]
    {
      assert ls[i] in st;
    }
    MergeKeepsAbsent(ls, c);
    JoinFree(MergePositionLines(ls), '\n', c);
  }

  /** The lines of the blob are the merged lines. */
  lemma BlobLines(text: string)
    requires |PrepareLines(text)| > 0
    ensures Split(Blob(text), '\n') == MergePositionLines(PrepareLines(text))
  {
    var pl := PrepareLines(text);
    var ls := MergePositionLines(pl);
    MergeClean(pl);
    assert Blob(text) == Join(ls, '\n');
    CleanSplitJoin(ls);
  }

  /** Clean lines joined at '\n' split back into themselves. */
  lemma CleanSplitJoin(ls: seq<string>)
    requires |ls| >= 1 && AllClean(ls)
    ensures Split(Join(ls, '\n'), '\n') == ls
  {
    SplitJoin(ls, '\n');
  }

  // ------------------------------------------------------------ fields

  /** `RE_POS_WITH_PLANET.search(blob) or RE_POS_NUMBERS_ONLY.search(blob)`:
      the numbers-only form is consulted only when the planet form finds
      nothing. */
  function FindPosition(blob: string): (r: Option<PositionCapture>)
    ensures r.None? <==>
      SearchLines(blob, MatchPositionWithPlanet).None? && SearchLines(blob, MatchPositionNumbers).None?
    ensures r.Some? ==> (r.value.planet.Some? <==> SearchLines(blob, MatchPositionWithPlanet).Some?)
    ensures SearchLines(blob, MatchPositionWithPlanet).Some? ==> r == SearchLines(blob, MatchPositionWithPlanet)
    ensures SearchLines(blob, MatchPositionWithPlanet).None? ==> r == SearchLines(blob, MatchPositionNumbers)
    ensures r.Some? ==> r.value.x < 1000000 && r.value.y < 1000000 && r.value.z < 10000
    ensures r.Some? && r.value.planet.Some? ==>
      |r.value.planet.value| > 0 && AllLetters(r.value.planet.value)
  {
    var p := SearchLines(blob, MatchPositionWithPlanet);
    if p.Some? then
      assert exists q :: FirstHit(blob, MatchPositionWithPlanet, true, 0, q) && p == MatchPositionWithPlanet(blob[q..]);
      p
    else
      var n := SearchLines(blob, MatchPositionNumbers);
      assert n.Some? ==> exists q :: FirstHit(blob, MatchPositionNumbers, true, 0, q) && n == MatchPositionNumbers(blob[q..]);
      n
  }

  /** The dict `parse_deed_text` of src/Scanner/parser.py returns; a key the
      source leaves out is `None`. */
  datatype DeedDict = DeedDict(
    depthM: Option<nat>,
    sizeLabel: Option<string>,
    sizePoints: Option<nat>,
    resource: Option<string>,
    timeLeft: Option<string>,
    ttlSec: Option<nat>,
    planet: Option<string>,
    x: Option<nat>,
    y: Option<nat>,
    z: Option<nat>,
    raw: string)

  /** Seconds in the longest countdown `RE_TIME` accepts, 29:59:59. */
  const MaxCountdown: nat := 29 * 3600 + 59 * 60 + 59

  /** The size line: its letters title-cased, and its points. */
  function FindSize(blob: string): (r: Option<(string, nat)>)
    ensures r.Some? <==> SearchLines(blob, MatchSize).Some?
    ensures r.Some? ==> IsTitleWord(r.value.0)
    ensures r.Some? ==> Lower(r.value.0) == Lower(SearchLines(blob, MatchSize).value.name)
    ensures r.Some? ==> r.value.1 == SearchLines(blob, MatchSize).value.points
    ensures r.Some? ==> r.value.0 == TitleWord(SearchLines(blob, MatchSize).value.name)
  {
    var m := SearchLines(blob, MatchSize);
    SearchKeeps(blob, MatchSize, true, (c: SizeCapture) => |c.name| > 0 && AllLetters(c.name));
    if m.Some? then
      TitleOfLetters(m.value.name);
      Some((TitleWord(m.value.name), m.value.points))
    else None
  }

  /** The resource name with its white space collapsed. */
  function FindResource(blob: string): (r: Option<string>)
    ensures r.Some? <==> SearchLines(blob, MatchResource).Some?
    ensures r.Some? ==> SingleSpaced(r.value) && |r.value| > 0 && IsLetter(r.value[0])
    ensures r.Some? ==> NonSpace(r.value) == NonSpace(SearchLines(blob, MatchResource).value)
    ensures r.Some? ==> Split(r.value, ' ') == Words.Words(SearchLines(blob, MatchResource).value)
  {
    var m := SearchLines(blob, MatchResource);
    SearchKeeps(blob, MatchResource, true, (t: string) => |t| >= 2 && IsLetter(t[0]));
    if m.Some? then
      CollapseKeepsHead(m.value);
      Some(CollapseSpaces(m.value))
    else None
  }

  /** The countdown text as captured and the seconds it denotes. */
  function FindTime(blob: string): (r: Option<(string, nat)>)
    ensures r.Some? <==> SearchLines(blob, MatchTime).Some?
    ensures r.Some? ==> r.value.1 <= MaxCountdown && ClockValue(r.value.0) == Some(r.value.1)
    ensures r.Some? ==> var c := SearchLines(blob, MatchTime).value;
      r.value.0 == c.text && r.value.1 == c.hours * 3600 + c.minutes * 60 + c.seconds
  {
    match SearchLines(blob, MatchTime)
    case None => None
    case Some(c) =>
      FirstTimeConsistent(blob);
      ConsistentValue(c);
      Some((c.text, c.hours * 3600 + c.minutes * 60 + c.seconds))
  }

  lemma FirstTimeConsistent(blob: string)
    ensures var m := SearchLines(blob, MatchTime); m.Some? ==> ClockConsistent(m.value)
  {
    SearchKeeps(blob, MatchTime, true, ClockConsistent);
  }

  lemma ConsistentValue(c: ClockCapture)
    requires ClockConsistent(c)
    ensures c.hours * 3600 + c.minutes * 60 + c.seconds <= MaxCountdown
    ensures ClockValue(c.text) == Some(c.hours * 3600 + c.minutes * 60 + c.seconds)
  {
  }

  /** The depth in metres. */
  function FindDepth(blob: string): (r: Option<nat>)
    ensures r.None? <==> forall k :: Candidate(blob, k, true) ==> MatchDepth(blob[k..]).None?
    ensures r.Some? ==> r.value <= 9999
    ensures r.Some? ==> r.value == SearchLines(blob, MatchDepth).value
  {
    SearchKeeps(blob, MatchDepth, true, (d: nat) => d <= 9999);
    SearchLines(blob, MatchDepth)
  }

  predicate SizeAgree(name: Option<string>, points: Option<nat>) {
    && (name.Some? <==> points.Some?)
    && (name.Some? ==> IsTitleWord(name.value))
  }

  predicate ResourceAgrees(resource: Option<string>) {
    resource.Some? ==>
      SingleSpaced(resource.value) && |resource.value| > 0 && IsLetter(resource.value[0])
  }

  predicate TimeAgree(text: Option<string>, sec: Option<nat>) {
    && (text.Some? <==> sec.Some?)
    && (sec.Some? ==> sec.value <= MaxCountdown && ClockValue(text.value) == sec)
  }

  predicate PlaceAgree(planet: Option<string>, x: Option<nat>, y: Option<nat>, z: Option<nat>) {
    && (x.Some? <==> y.Some?)
    && (x.Some? <==> z.Some?)
    && (planet.Some? ==> x.Some? && IsTitleWord(planet.value))
    && (x.Some? ==> x.value < 1000000 && y.value < 1000000 && z.value < 10000)
  }

  /** What holds of the fields of every parsed deed: size label and points,
      `time_left` and `ttl_sec`, and x, y, z come together or not at all,
      the planet only with coordinates, and every value within what its
      pattern can capture. */
  predicate FieldsAgree(r: DeedDict) {
    && (r.depthM.Some? ==> r.depthM.value <= 9999)
    && SizeAgree(r.sizeLabel, r.sizePoints)
    && ResourceAgrees(r.resource)
    && TimeAgree(r.timeLeft, r.ttlSec)
    && PlaceAgree(r.planet, r.x, r.y, r.z)
  }

  /** `size_label` is the title-cased name and `size_points` the count of
      the first `RE_SIZE` match, and both are absent without one. */
  predicate SizeFrom(blob: string, name: Option<string>, points: Option<nat>) {
    var m := SearchLines(blob, MatchSize);
    && (name.Some? <==> m.Some?)
    && (m.Some? ==> name == Some(TitleWord(m.value.name)) && points == Some(m.value.points))
  }

  /** `resource` holds the words of the first `RE_RESOURCE` match, joined
      by single spaces, and is absent without one. */
  predicate ResourceFrom(blob: string, resource: Option<string>) {
    var m := SearchLines(blob, MatchResource);
    && (resource.Some? <==> m.Some?)
    && (m.Some? ==> Split(resource.value, ' ') == Words.Words(m.value))
  }

  /** `time_left` is the text and `ttl_sec` the `h*3600 + mi*60 + s` of the
      first `RE_TIME` match, and both are absent without one. */
  predicate TimeFrom(blob: string, text: Option<string>, sec: Option<nat>) {
    var m := SearchLines(blob, MatchTime);
    && (text.Some? <==> m.Some?)
    && (m.Some? ==>
          && text == Some(m.value.text)
          && sec == Some(m.value.hours * 3600 + m.value.minutes * 60 + m.value.seconds))
  }

  /** The match the position comes from: the first `RE_POS_WITH_PLANET`
      match, or else the first `RE_POS_NUMBERS_ONLY` match. */
  function PositionMatch(blob: string): Option<PositionCapture> {
    var withPlanet := SearchLines(blob, MatchPositionWithPlanet);
    if withPlanet.Some? then withPlanet else SearchLines(blob, MatchPositionNumbers)
  }

  /** x, y, z are the numbers of the position match, and the planet its
      title-cased planet when it has one; all absent without a match. */
  predicate PlaceFrom(blob: string, planet: Option<string>, x: Option<nat>, y: Option<nat>, z: Option<nat>) {
    var m := PositionMatch(blob);
    && (x.Some? <==> m.Some?)
    && (m.Some? ==>
          && x == Some(m.value.x) && y == Some(m.value.y) && z == Some(m.value.z)
          && planet == (if m.value.planet.Some? then Some(TitleWord(m.value.planet.value)) else None))
  }

  /** Every field of `r` is what `parse_deed_text` takes from the first
      match of its pattern in `blob`. */
  predicate ReadFrom(blob: string, r: DeedDict) {
    && r.raw == blob
    && r.depthM == SearchLines(blob, MatchDepth)
    && SizeFrom(blob, r.sizeLabel, r.sizePoints)
    && ResourceFrom(blob, r.resource)
    && TimeFrom(blob, r.timeLeft, r.ttlSec)
    && PlaceFrom(blob, r.planet, r.x, r.y, r.z)
  }

  /** The fields the recognisers find in a blob. */
  function ReadFields(blob: string): (r: DeedDict)
    ensures r.raw == blob
    ensures r.depthM.None? <==> forall k :: Candidate(blob, k, true) ==> MatchDepth(blob[k..]).None?
    ensures FieldsAgree(r)
    ensures ReadFrom(blob, r)
  {
    AssembledFrom(blob);
    Assemble(blob, FindDepth(blob), FindSize(blob), FindResource(blob), FindTime(blob), FindPosition(blob))
  }

  /** What each finder promises carries over to the assembled fields. */
  lemma AssembledFrom(blob: string)
    ensures ReadFrom(blob, Assemble(blob, FindDepth(blob), FindSize(blob), FindResource(blob),
                                    FindTime(blob), FindPosition(blob)))
  {
    var size := FindSize(blob);
    if size.Some? {
      var m := SearchLines(blob, MatchSize).value;
      assert size.value.0 == TitleWord(m.name);
    }
  }

  /** The dictionary `parse_deed_text` fills from what each search found. */
  function Assemble(blob: string, depth: Option<nat>, size: Option<(string, nat)>,
                    resource: Option<string>, time: Option<(string, nat)>,
                    pos: Option<PositionCapture>): (r: DeedDict)
    requires depth.Some? ==> depth.value <= 9999
    requires size.Some? ==> IsTitleWord(size.value.0)
    requires resource.Some? ==>
      SingleSpaced(resource.value) && |resource.value| > 0 && IsLetter(resource.value[0])
    requires time.Some? ==> time.value.1 <= MaxCountdown && ClockValue(time.value.0) == Some(time.value.1)
    requires pos.Some? ==> pos.value.x < 1000000 && pos.value.y < 1000000 && pos.value.z < 10000
    requires pos.Some? && pos.value.planet.Some? ==>
      |pos.value.planet.value| > 0 && AllLetters(pos.value.planet.value)
    ensures r.raw == blob && r.depthM == depth
    ensures r.sizeLabel == (if size.Some? then Some(size.value.0) else None)
    ensures r.sizePoints == (if size.Some? then Some(size.value.1) else None)
    ensures r.resource == resource
    ensures r.timeLeft == (if time.Some? then Some(time.value.0) else None)
    ensures r.ttlSec == (if time.Some? then Some(time.value.1) else None)
    ensures r.x == (if pos.Some? then Some(pos.value.x) else None)
    ensures r.y == (if pos.Some? then Some(pos.value.y) else None)
    ensures r.z == (if pos.Some? then Some(pos.value.z) else None)
    ensures r.planet == (if pos.Some? && pos.value.planet.Some? then Some(TitleWord(pos.value.planet.value)) else None)
    ensures FieldsAgree(r)
  {
    var (sizeName, points) := SizeFields(size);
    var (text, sec) := TimeFields(time);
    var (planet, x, y, z) := PlaceFields(pos);
    DeedDict(depth, sizeName, points, resource, text, sec, planet, x, y, z, blob)
  }

  /** `size_label` and `size_points` from the size match. */
  function SizeFields(size: Option<(string, nat)>): (r: (Option<string>, Option<nat>))
    requires size.Some? ==> IsTitleWord(size.value.0)
    ensures SizeAgree(r.0, r.1)
    ensures r.0.Some? <==> size.Some?
    ensures size.Some? ==> r == (Some(size.value.0), Some(size.value.1))
  {
    match size
    case None => (None, None)
    case Some((name, points)) => (Some(name), Some(points))
  }

  /** `time_left` and `ttl_sec` from the countdown match. */
  function TimeFields(time: Option<(string, nat)>): (r: (Option<string>, Option<nat>))
    requires time.Some? ==> time.value.1 <= MaxCountdown && ClockValue(time.value.0) == Some(time.value.1)
    ensures TimeAgree(r.0, r.1)
    ensures r.0.Some? <==> time.Some?
    ensures time.Some? ==> r == (Some(time.value.0), Some(time.value.1))
  {
    match time
    case None => (None, None)
    case Some((text, sec)) => (Some(text), Some(sec))
  }

  /** `planet` (title-cased), `x`, `y` and `z` from the position match. */
  function PlaceFields(pos: Option<PositionCapture>)
    : (r: (Option<string>, Option<nat>, Option<nat>, Option<nat>))
    requires pos.Some? ==> pos.value.x < 1000000 && pos.value.y < 1000000 && pos.value.z < 10000
    requires pos.Some? && pos.value.planet.Some? ==>
      |pos.value.planet.value| > 0 && AllLetters(pos.value.planet.value)
    ensures PlaceAgree(r.0, r.1, r.2, r.3)
    ensures r.1.Some? <==> pos.Some?
    ensures r.0.Some? <==> pos.Some? && pos.value.planet.Some?
    ensures pos.Some? ==> r.1 == Some(pos.value.x) && r.2 == Some(pos.value.y) && r.3 == Some(pos.value.z)
    ensures r.0.Some? ==> r.0.value == TitleWord(pos.value.planet.value)
  {
    match pos
    case None => (None, None, None, None)
    case Some(p) =>
      var planet :=
        if p.planet.Some? then
          TitleOfLetters(p.planet.value);
          Some(TitleWord(p.planet.value))
        else None;
      (planet, Some(p.x), Some(p.y), Some(p.z))
  }

  /** `parse_deed_text` of src/Scanner/parser.py. */
  function ParseDeedText(text: string): (r: DeedDict)
    ensures '\r' !in r.raw
    ensures |PrepareLines(text)| > 0 ==> Split(r.raw, '\n') == MergePositionLines(PrepareLines(text))
    ensures r == ReadFields(r.raw)
  {
    var blob := Blob(text);
    assert |PrepareLines(text)| > 0 ==> Split(blob, '\n') == MergePositionLines(PrepareLines(text)) by {
      if |PrepareLines(text)| > 0 {
        BlobLines(text);
      }
    }
    ReadFields(blob)
  }

  /** A tooltip printed line by line parses back into the values printed:
      the depth, the title-cased size name and its points, the resource
      name with its spaces single, the countdown and its seconds, the
      title-cased planet and the three coordinates; its blob is the text
      itself. */
  lemma TooltipParsed(depth: nat, size: string, points: nat, resource: string, sec: nat,
                      planet: string, x: nat, y: nat, z: nat)
    requires TooltipValues(depth, size, resource, sec, planet, x, y, z)
    ensures var text := Join(TooltipLines(depth, size, points, resource, sec, planet, x, y, z), '\n');
      var r := ParseDeedText(text);
      && r.raw == text
      && r.depthM == Some(depth)
      && r.sizeLabel == Some(TitleWord(size)) && r.sizePoints == Some(points)
      && r.resource == Some(Join(Words.Words(resource), ' '))
      && r.timeLeft == Some(FormatTimeLeft(sec)) && r.ttlSec == Some(sec)
      && r.planet == Some(TitleWord(planet))
      && r.x == Some(x) && r.y == Some(y) && r.z == Some(z)
  {
    var ls := TooltipLines(depth, size, points, resource, sec, planet, x, y, z);
    var text := Join(ls, '\n');
    TooltipShape(depth, size, points, resource, sec, planet, x, y, z);
    TooltipBlob(ls);
    TooltipMatches(depth, size, points, resource, sec, planet, x, y, z);
    var r := ParseDeedText(text);
    assert r == ReadFields(text);
    HmsDecompose(sec);
    JoinSplit(r.resource.value, ' ');
  }

  /** The five tooltip lines are already prepared and nothing merges, so
      the blob of their join is the join. */
  lemma TooltipBlob(ls: seq<string>)
    requires |ls| == 5
    requires LineShape(ls[0], 'D') && LineShape(ls[1], 'S') && LineShape(ls[2], 'R')
    requires LineShape(ls[3], 'T') && LineShape(ls[4], 'P')
    ensures Blob(Join(ls, '\n')) == Join(ls, '\n')
  {
    TooltipPrepared(ls);
    TooltipUnmerged(ls);
  }

  lemma TooltipPrepared(ls: seq<string>)
    requires |ls| == 5
    requires LineShape(ls[0], 'D') && LineShape(ls[1], 'S') && LineShape(ls[2], 'R')
    requires LineShape(ls[3], 'T') && LineShape(ls[4], 'P')
    ensures PrepareLines(Join(ls, '\n')) == ls
  {
    ShapeClean(ls[0], 'D');
    ShapeClean(ls[1], 'S');
    ShapeClean(ls[2], 'R');
    ShapeClean(ls[3], 'T');
    ShapeClean(ls[4], 'P');
    PrepareCleanText(ls);
  }

  lemma ShapeClean(l: string, head: char)
    requires LineShape(l, head) && IsLetter(head)
    ensures CleanLine(l)
  {
  }

  /** Only the last tooltip line is a position line, so nothing merges. */
  lemma TooltipUnmerged(ls: seq<string>)
    requires |ls| == 5
    requires LineShape(ls[0], 'D') && LineShape(ls[1], 'S') && LineShape(ls[2], 'R')
    requires LineShape(ls[3], 'T')
    ensures MergePositionLines(ls) == ls
  {
    NotPosition(ls[0], 'D');
    NotPosition(ls[1], 'S');
    NotPosition(ls[2], 'R');
    NotPosition(ls[3], 'T');
    MergeIdentity(ls);
  }

  lemma NotPosition(l: string, head: char)
    requires LineShape(l, head) && LowerChar(head) != 'p'
    ensures !IsPositionLine(l)
  {
    LabelMismatch(l, "position:");
  }

  // ------------------------------------------------------------ model variant

  /** The `DeedModel` built from the parsed fields on the clock reading
      `now`: the countdown becomes the expiry `now + ttl`. */
  function ToModel(r: DeedDict, now: real): (d: DeedModel)
    ensures d.expiry.Some? <==> r.ttlSec.Some?
    ensures d.expiry.Some? ==> now <= d.expiry.value == now + r.ttlSec.value as real
    ensures TtlSec(d, now) == r.ttlSec
  {
    var expiry := if r.ttlSec.Some? then Some(now + r.ttlSec.value as real) else None;
    DeedModel(r.depthM, r.sizeLabel, r.sizePoints, r.resource, expiry, r.planet, r.x, r.y, r.z, r.raw)
  }

  /** `parse_deed_text` of src/scanner/parser.py: the same fields, with the
      countdown turned into an expiry on the clock that reads `now` at parse
      time. */
  function ParseDeedModel(text: string, now: real): (d: DeedModel)
    ensures d.expiry.Some? ==> now <= d.expiry.value <= now + MaxCountdown as real
    ensures TtlSec(d, now) == ParseDeedText(text).ttlSec
  {
    var r := ParseDeedText(text);
    assert r == ReadFields(r.raw);
    ToModel(r, now)
  }

  /** Both variants read the same deed: every field but the countdown is
      equal, the remaining seconds agree at parse time, and the model's
      `time_left` denotes the same seconds as the captured text (which may
      differ in zero padding). */
  lemma VariantsAgree(text: string, now: real)
    ensures var r := ParseDeedText(text);
      var d := ParseDeedModel(text, now);
      && d.raw == r.raw && d.depthM == r.depthM && d.resource == r.resource
      && d.sizeLabel == r.sizeLabel && d.sizePoints == r.sizePoints
      && d.planet == r.planet && d.x == r.x && d.y == r.y && d.z == r.z
      && (TimeLeft(d, now).Some? <==> r.timeLeft.Some?)
      && (r.timeLeft.Some? ==> ClockValue(TimeLeft(d, now).value) == ClockValue(r.timeLeft.value))
  {
  }

  /** Parsing the same text at two clock readings gives deeds that differ
      only in an expiry shifted by the time between them. */
  lemma ParseAtLaterTime(text: string, now1: real, now2: real)
    ensures var d1 := ParseDeedModel(text, now1);
      var d2 := ParseDeedModel(text, now2);
      && d1.(expiry := None) == d2.(expiry := None)
      && (d1.expiry.Some? <==> d2.expiry.Some?)
      && (d1.expiry.Some? ==> d2.expiry.value - d1.expiry.value == now2 - now1)
  {
  }
}
