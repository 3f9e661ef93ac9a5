/** The line recognisers of src/Scanner/ocr_core.py (`RE_DEPTH` ...
    `RE_POS_NUMBERS_ONLY`), written as matchers rather than through a
    regex engine.

    Each matcher is applied to the text that starts at a candidate position
    and succeeds exactly when the regex matches there. The regexes are
    compiled with `re.I | re.M`: labels ignore ASCII case, `^` admits
    position 0 and every position after a '\n', and `$` needs the end of
    the text or a '\n' next. `\s` is Python's white space, which includes
    '\n', so a `\s*` may run across a line break, as it does in the source.

    Every pattern here matches deterministically: each greedy run is
    followed by a token its characters cannot start (`\s*` by a digit, a
    letter or punctuation; a digit run by `\s*` and ',' / ')' / 'm'; a
    letter run by `\s*` and '('), so backtracking into a shorter run can
    never succeed. A matcher therefore measures the maximal run and checks
    its length against the quantifier's bounds. */
module DeedPatterns {
  import opened Wrappers
  import opened Text
  import opened Decimal
  import opened Clock

  /** A matched value and the text after it. */
  datatype Scan<+T> = Scan(value: T, rest: seq<char>)

  datatype SizeCapture = SizeCapture(name: seq<char>, points: nat)

  /** The `H:MM:SS` group of `RE_TIME` and its three numbers. */
  datatype ClockCapture = ClockCapture(text: seq<char>, hours: nat, minutes: nat, seconds: nat)

  /** The groups of either position pattern; `planet` is present only for
      `RE_POS_WITH_PLANET`. */
  datatype PositionCapture = PositionCapture(planet: Option<seq<char>>, x: nat, y: nat, z: nat)

  /** `$` under `re.M`. */
  predicate AtLineEnd(s: seq<char>) {
    |s| == 0 || s[0] == '\n'
  }

  /** The text after a greedy `\s*`. */
  function SkipSpace(s: seq<char>): seq<char> {
    s[Run(s, IsSpace)..]
  }

  /** One literal character. */
  function Expect(s: seq<char>, c: char): (r: Option<seq<char>>)
    ensures r.Some? <==> |s| > 0 && s[0] == c
    ensures r.Some? ==> r.value == s[1..]
  {
    if |s| > 0 && s[0] == c then Some(s[1..]) else None
  }

  /** A literal label, ignoring ASCII case. */
  function Label(s: seq<char>, lit: seq<char>): (r: Option<seq<char>>)
    ensures r.Some? <==> HasLabel(s, lit)
    ensures r.Some? ==> r.value == s[|lit|..]
  {
    if HasLabel(s, lit) then Some(s[|lit|..]) else None
  }

  /** `\d{lo,hi}` (or `[0-9]{lo,hi}`) where the next token cannot be a digit:
      the maximal digit run must have between `lo` and `hi` digits. */
  function DigitField(s: seq<char>, lo: nat, hi: nat): (r: Option<Scan<nat>>)
    ensures r.Some? ==> r.value.value < Pow10(hi)
    ensures r.Some? ==> |r.value.rest| < |s| || lo == 0
    ensures r.Some? ==> |r.value.rest| <= |s| && (|r.value.rest| > 0 ==> !IsDigit(r.value.rest[0]))
  {
    var n := Run(s, IsDigit);
    if lo <= n <= hi then
      DecimalBound(s[..n]);
      DecimalLength(0, 1);
      PowMonotone(n, hi);
      Some(Scan(DecimalValue(s[..n]), s[n..]))
    else None
  }

  lemma {:induction false} PowMonotone(a: nat, b: nat)
    requires a <= b
    ensures Pow10(a) <= Pow10(b)
    decreases b
  {
    if a < b {
      PowMonotone(a, b - 1);
    }
  }

  /** The value of a two-digit string. */
  lemma TwoDigits(t: seq<char>)
    requires |t| == 2 && AllDigits(t)
    ensures DecimalValue(t) == 10 * DigitValue(t[0]) + DigitValue(t[1])
  {
    assert t[..1] == [t[0]];
    assert [t[0]][..0] == [];
    assert DecimalValue(t[..1]) == DigitValue(t[0]);
    assert DecimalValue(t) == 10 * DecimalValue(t[..1]) + DigitValue(t[1]);
  }

  /** A two-digit `[0-5]\d` field. */
  function SexagesimalField(s: seq<char>): (r: Option<Scan<seq<char>>>)
    ensures r.Some? ==> |r.value.value| == 2 && AllDigits(r.value.value)
    ensures r.Some? ==> DecimalValue(r.value.value) < 60
  {
    if |s| >= 2 && '0' <= s[0] <= '5' && IsDigit(s[1]) then
      TwoDigits(s[..2]);
      Some(Scan(s[..2], s[2..]))
    else None
  }

  /** The `[0-2]?\d` hour of `RE_TIME`, followed by ':'. The regex first
      tries two digits (the first one 0-2); when the second character is
      not a digit it falls back to one digit. A second digit after a first
      digit 3-9 can never be followed by ':', so that case fails. */
  function HourField(s: seq<char>): (r: Option<Scan<seq<char>>>)
    ensures r.Some? ==> 1 <= |r.value.value| <= 2 && AllDigits(r.value.value)
    ensures r.Some? ==> DecimalValue(r.value.value) <= 29
  {
    if |s| >= 2 && IsDigit(s[0]) && IsDigit(s[1]) then
      if '0' <= s[0] <= '2' then
        TwoDigits(s[..2]);
        Some(Scan(s[..2], s[2..]))
      else None
    else if |s| >= 1 && IsDigit(s[0]) then
      assert DecimalValue([s[0]]) == DigitValue(s[0]) by {
        assert [s[0]][..0] == [];
      }
      Some(Scan([s[0]], s[1..]))
    else None
  }

  // ------------------------------------------------------------ recognisers

  /** `RE_DEPTH`: `^Depth:\s*([0-9]{1,4})\s*m$`. */
  function MatchDepth(s: seq<char>): (r: Option<nat>)
    ensures r.Some? ==> r.value <= 9999
  {
    var a :- Label(s, "depth:");
    DepthField(SkipSpace(a))
  }

  /** `([0-9]{1,4})\s*m$`, the part of `RE_DEPTH` after the label. */
  function DepthField(s: seq<char>): (r: Option<nat>)
    ensures r.Some? ==> r.value <= 9999
  {
    var d :- DigitField(s, 1, 4);
    var b := SkipSpace(d.rest);
    if |b| > 0 && (b[0] == 'm' || b[0] == 'M') && AtLineEnd(b[1..]) then Some(d.value) else None
  }

  /** `RE_SIZE`: `^Size:\s*([A-Za-z]+)\s*\((\d+)\)$`. */
  function MatchSize(s: seq<char>): (r: Option<SizeCapture>)
    ensures r.Some? ==> |r.value.name| > 0 && AllLetters(r.value.name)
  {
    var a :- Label(s, "size:");
    var t := SkipSpace(a);
    var n := Run(t, IsLetter);
    if n == 0 then None
    else
      var points :- SizeCount(SkipSpace(t[n..]));
      Some(SizeCapture(t[..n], points))
  }

  /** `\((\d+)\)$`, the point count after the size name. */
  function SizeCount(s: seq<char>): Option<nat> {
    var b :- Expect(s, '(');
    var d :- DigitField(b, 1, |b|);
    var c :- Expect(d.rest, ')');
    if AtLineEnd(c) then Some(d.value) else None
  }

  /** The class `[A-Za-z \-']` of a resource name. */
  predicate IsResourceChar(c: char) {
    IsLetter(c) || c == ' ' || c == '-' || c == '\''
  }

  /** `RE_RESOURCE`: `^Resource:\s*([A-Za-z][A-Za-z \-']+)$`. */
  function MatchResource(s: seq<char>): (r: Option<seq<char>>)
    ensures r.Some? ==> |r.value| >= 2 && IsLetter(r.value[0])
    ensures r.Some? ==> forall i :: 0 <= i < |r.value| ==> IsResourceChar(r.value[i])
  {
    var a :- Label(s, "resource:");
    var t := SkipSpace(a);
    var n := Run(t, IsResourceChar);
    if n >= 2 && IsLetter(t[0]) && AtLineEnd(t[n..]) then Some(t[..n]) else None
  }

  /** The capture's text reads back as its three numbers. */
  predicate ClockConsistent(c: ClockCapture) {
    && c.hours <= 29 && c.minutes < 60 && c.seconds < 60
    && ClockValue(c.text) == Some(c.hours * 3600 + c.minutes * 60 + c.seconds)
  }

  /** The countdown group `([0-2]?\d:[0-5]\d:[0-5]\d)$`. */
  function ClockGroup(s: seq<char>): (r: Option<ClockCapture>)
    ensures r.Some? ==> ClockConsistent(r.value)
  {
    var h :- HourField(s);
    var c :- Expect(h.rest, ':');
    var m :- SexagesimalField(c);
    var e :- Expect(m.rest, ':');
    var sec :- SexagesimalField(e);
    if AtLineEnd(sec.rest) then
      ClockValueOfFields(h.value, m.value, sec.value);
      Some(ClockCapture(h.value + [':'] + m.value + [':'] + sec.value,
        DecimalValue(h.value), DecimalValue(m.value), DecimalValue(sec.value)))
    else None
  }

  /** `RE_TIME`: `^Time\s*left:\s*([0-2]?\d:[0-5]\d:[0-5]\d)$`. */
  function MatchTime(s: seq<char>): (r: Option<ClockCapture>)
    ensures r.Some? ==> ClockConsistent(r.value)
  {
    var a :- Label(s, "time");
    var b :- Label(SkipSpace(a), "left:");
    ClockGroup(SkipSpace(b))
  }

  /** `\(\s*(\d{3,6})\s*,\s*(\d{3,6})\s*,\s*(\d{1,4})\s*\)$`, the part the two
      position patterns share. */
  function MatchTriple(s: seq<char>): (r: Option<(nat, nat, nat)>)
    ensures r.Some? ==> r.value.0 < 1000000 && r.value.1 < 1000000 && r.value.2 < 10000
  {
    var a :- Expect(s, '(');
    var x :- Coordinate(a, 3, 6);
    var b :- Expect(x.rest, ',');
    var yz :- PairTail(b);
    PowValues();
    Some((x.value, yz.0, yz.1))
  }

  /** `\s*(\d{3,6})\s*,\s*(\d{1,4})\s*\)$`, the triple after its first comma. */
  function PairTail(s: seq<char>): (r: Option<(nat, nat)>)
    ensures r.Some? ==> r.value.0 < 1000000 && r.value.1 < 10000
  {
    var y :- Coordinate(s, 3, 6);
    var c :- Expect(y.rest, ',');
    var z :- LastTail(c);
    PowValues();
    Some((y.value, z))
  }

  /** `\s*(\d{1,4})\s*\)$`, the last number and the closing parenthesis. */
  function LastTail(s: seq<char>): (r: Option<nat>)
    ensures r.Some? ==> r.value < 10000
  {
    var z :- Coordinate(s, 1, 4);
    var e :- Expect(z.rest, ')');
    PowValues();
    if AtLineEnd(e) then Some(z.value) else None
  }

  /** `\s*(\d{lo,hi})\s*`, one number of the triple with the white space
      around it. */
  function Coordinate(s: seq<char>, lo: nat, hi: nat): (r: Option<Scan<nat>>)
    ensures r.Some? ==> r.value.value < Pow10(hi)
  {
    var v :- DigitField(SkipSpace(s), lo, hi);
    Some(Scan(v.value, SkipSpace(v.rest)))
  }

  /** `RE_POS_WITH_PLANET`: `^Position:\s*([A-Za-z]+)\s*` then the triple. */
  function MatchPositionWithPlanet(s: seq<char>): (r: Option<PositionCapture>)
    ensures r.Some? ==> r.value.planet.Some?
    ensures r.Some? ==> |r.value.planet.value| > 0 && AllLetters(r.value.planet.value)
    ensures r.Some? ==> r.value.x < 1000000 && r.value.y < 1000000 && r.value.z < 10000
  {
    var a :- Label(s, "position:");
    var t := SkipSpace(a);
    var n := Run(t, IsLetter);
    if n == 0 then None
    else
      var xyz :- MatchTriple(SkipSpace(t[n..]));
      Some(PositionCapture(Some(t[..n]), xyz.0, xyz.1, xyz.2))
  }

  /** `RE_POS_NUMBERS_ONLY`: `^Position:\s*` then the triple. */
  function MatchPositionNumbers(s: seq<char>): (r: Option<PositionCapture>)
    ensures r.Some? ==> r.value.planet.None?
    ensures r.Some? ==> r.value.x < 1000000 && r.value.y < 1000000 && r.value.z < 10000
  {
    var a :- Label(s, "position:");
    var xyz :- MatchTriple(SkipSpace(a));
    Some(PositionCapture(None, xyz.0, xyz.1, xyz.2))
  }

  // ------------------------------------------------------------ search

  /** A position `re.search` tries: any position, or with `^` under `re.M`
      only position 0 and positions right after a '\n'. */
  predicate Candidate(s: seq<char>, q: int, anchored: bool) {
    0 <= q <= |s| && (!anchored || q == 0 || s[q - 1] == '\n')
  }

  /** `q` is the leftmost candidate at or after `p` where `m` matches. */
  ghost predicate FirstHit<T>(s: seq<char>, m: seq<char> -> Option<T>, anchored: bool, p: int, q: int) {
    && p <= q
    && Candidate(s, q, anchored)
    && m(s[q..]).Some?
    && forall k :: p <= k < q && Candidate(s, k, anchored) ==> m(s[k..]).None?
  }

  /** `re.search` from position `p`: the match at the leftmost candidate
      position where the pattern matches. */
  function SearchFrom<T>(s: seq<char>, m: seq<char> -> Option<T>, anchored: bool, p: nat): (r: Option<T>)
    requires p <= |s|
    ensures r.None? <==> forall k :: p <= k && Candidate(s, k, anchored) ==> m(s[k..]).None?
    ensures r.Some? ==> exists q :: FirstHit(s, m, anchored, p, q) && r == m(s[q..])
    decreases |s| - p
  {
    if Candidate(s, p, anchored) && m(s[p..]).Some? then
      assert FirstHit(s, m, anchored, p, p);
      m(s[p..])
    else if p == |s| then None
    else
      var r := SearchFrom(s, m, anchored, p + 1);
      SearchStep(s, m, anchored, p, r);
      r
  }

  /** A position that is no hit moves the search on to the next one. */
  lemma SearchStep<T>(s: seq<char>, m: seq<char> -> Option<T>, anchored: bool, p: nat, r: Option<T>)
    requires p < |s| && !(Candidate(s, p, anchored) && m(s[p..]).Some?)
    requires r.None? <==> forall k :: p + 1 <= k && Candidate(s, k, anchored) ==> m(s[k..]).None?
    requires r.Some? ==> exists q :: FirstHit(s, m, anchored, p + 1, q) && r == m(s[q..])
    ensures r.None? <==> forall k :: p <= k && Candidate(s, k, anchored) ==> m(s[k..]).None?
    ensures r.Some? ==> exists q :: FirstHit(s, m, anchored, p, q) && r == m(s[q..])
  {
    if r.Some? {
      var q :| FirstHit(s, m, anchored, p + 1, q) && r == m(s[q..]);
      assert FirstHit(s, m, anchored, p, q);
    }
  }

  /** `pattern.search(text)` for a pattern that starts with `^` under `re.M`. */
  function SearchLines<T>(s: seq<char>, m: seq<char> -> Option<T>): Option<T> {
    SearchFrom(s, m, true, 0)
  }

  /** What a recogniser promises of every match, its search promises of the
      first one. */
  lemma SearchKeeps<T>(s: seq<char>, m: seq<char> -> Option<T>, anchored: bool, P: T -> bool)
    requires forall t :: m(t).Some? ==> P(m(t).value)
    ensures SearchFrom(s, m, anchored, 0).Some? ==> P(SearchFrom(s, m, anchored, 0).value)
  {
    var r := SearchFrom(s, m, anchored, 0);
    if r.Some? {
      var q :| FirstHit(s, m, anchored, 0, q) && r == m(s[q..]);
    }
  }

  /** A line the pattern does not match at its start is passed over: the
      search of the text goes on as a search of the lines after it. */
  lemma SearchPastLine<T>(line: seq<char>, rest: seq<char>, m: seq<char> -> Option<T>)
    requires '\n' !in line
    requires m(line + "\n" + rest).None?
    ensures SearchLines(line + "\n" + rest, m) == SearchLines(rest, m)
  {
    if SearchLines(rest, m).Some? {
      FoundPastLine(line, rest, m);
    } else {
      MissPastLine(line, rest, m);
    }
  }

  lemma FoundPastLine<T>(line: seq<char>, rest: seq<char>, m: seq<char> -> Option<T>)
    requires '\n' !in line
    requires m(line + "\n" + rest).None?
    requires SearchLines(rest, m).Some?
    ensures SearchLines(line + "\n" + rest, m) == SearchLines(rest, m)
  {
    var q := HitOf(rest, m);
    HitPastLine(line, rest, m, q);
    SearchAt(line + "\n" + rest, m, true, 0, q + |line| + 1);
  }

  /** Past a line and its '\n', positions and candidates are those of the
      rest shifted by the line's length plus one; inside the line, apart
      from its start, there is no candidate. */
  lemma LineOffsets(line: seq<char>, rest: seq<char>)
    requires '\n' !in line
    ensures var s := line + "\n" + rest;
      var b := |line| + 1;
      && (forall k :: 0 < k < b ==> !Candidate(s, k, true))
      && (forall j :: 0 <= j <= |rest| ==>
            s[j + b..] == rest[j..] && (Candidate(s, j + b, true) <==> Candidate(rest, j, true)))
  {
    var s := line + "\n" + rest;
    var b := |line| + 1;
    forall k | 0 < k < b
      ensures !Candidate(s, k, true)
    {
      assert s[k - 1] == line[k - 1];
    }
    forall j | 0 <= j <= |rest|
      ensures s[j + b..] == rest[j..]
      ensures Candidate(s, j + b, true) <==> Candidate(rest, j, true)
    {
      if j > 0 {
        assert s[j + b - 1] == rest[j - 1];
      }
    }
  }

  /** The leftmost hit in the rest is the leftmost hit in the text. */
  lemma HitPastLine<T>(line: seq<char>, rest: seq<char>, m: seq<char> -> Option<T>, q: int)
    requires '\n' !in line
    requires m(line + "\n" + rest).None?
    requires FirstHit(rest, m, true, 0, q)
    ensures FirstHit(line + "\n" + rest, m, true, 0, q + |line| + 1)
    ensures (line + "\n" + rest)[q + |line| + 1..] == rest[q..]
  {
    var s := line + "\n" + rest;
    var b := |line| + 1;
    LineOffsets(line, rest);
    assert s[0..] == s;
    assert s[q + b..] == rest[q..];
    forall k | 0 <= k < q + b && Candidate(s, k, true)
      ensures m(s[k..]).None?
    {
      if k >= b {
        assert Candidate(rest, k - b, true);
        assert s[k..] == rest[k - b..];
      }
    }
  }

  /** Without a hit in the rest there is none in the text. */
  lemma MissPastLine<T>(line: seq<char>, rest: seq<char>, m: seq<char> -> Option<T>)
    requires '\n' !in line
    requires m(line + "\n" + rest).None?
    requires forall k :: 0 <= k && Candidate(rest, k, true) ==> m(rest[k..]).None?
    ensures forall k :: 0 <= k && Candidate(line + "\n" + rest, k, true) ==> m((line + "\n" + rest)[k..]).None?
  {
    var s := line + "\n" + rest;
    var b := |line| + 1;
    LineOffsets(line, rest);
    assert s[0..] == s;
    forall k | 0 <= k && Candidate(s, k, true)
      ensures m(s[k..]).None?
    {
      if k >= b {
        assert Candidate(rest, k - b, true);
        assert s[k..] == rest[k - b..];
      }
    }
  }

  /** Where a line search that succeeds found its match. */
  lemma HitOf<T>(s: seq<char>, m: seq<char> -> Option<T>) returns (q: int)
    requires SearchLines(s, m).Some?
    ensures FirstHit(s, m, true, 0, q) && SearchLines(s, m) == m(s[q..])
  {
    q :| FirstHit(s, m, true, 0, q) && SearchFrom(s, m, true, 0) == m(s[q..]);
  }

  /** The search finds the leftmost hit. */
  lemma SearchAt<T>(s: seq<char>, m: seq<char> -> Option<T>, anchored: bool, p: nat, q: int)
    requires p <= |s| && FirstHit(s, m, anchored, p, q)
    ensures SearchFrom(s, m, anchored, p) == m(s[q..])
  {
    var r := SearchFrom(s, m, anchored, p);
    var q' :| FirstHit(s, m, anchored, p, q') && r == m(s[q'..]);
    assert !(q' < q) && !(q < q');
  }

  /** A text whose first letter differs from the label's is not labelled
      with it. */
  lemma LabelMismatch(s: seq<char>, lit: seq<char>)
    requires |s| > 0 && |lit| > 0 && LowerChar(s[0]) != lit[0]
    ensures Label(s, lit).None?
  {
    if |lit| <= |s| {
      assert Lower(s[..|lit|])[0] == LowerChar(s[0]);
    }
  }

  // ------------------------------------------------------------ round trips

  predicate AllSpace(s: seq<char>) {
    forall i :: 0 <= i < |s| ==> IsSpace(s[i])
  }

  /** A label written in any case is read past. */
  lemma LabelThen(written: seq<char>, lit: seq<char>, t: seq<char>)
    requires Lower(written) == lit
    ensures Label(written + t, lit) == Some(t)
  {
    assert (written + t)[..|lit|] == written;
    assert (written + t)[|lit|..] == t;
  }

  /** White space before anything else is skipped exactly. */
  lemma SkipSpaceTo(pad: seq<char>, t: seq<char>)
    requires AllSpace(pad)
    requires |t| > 0 && !IsSpace(t[0])
    ensures SkipSpace(pad + t) == t
  {
    RunExact(pad, t, IsSpace);
    assert (pad + t)[|pad|..] == t;
  }

  /** A printed number is a `\d{lo,hi}` field exactly when its length is
      within the bounds, and the field ends where the number does. */
  lemma FieldThen(n: nat, lo: nat, hi: nat, rest: seq<char>)
    requires |rest| == 0 || !IsDigit(rest[0])
    ensures DigitField(NatToDecimal(n) + rest, lo, hi)
      == if lo <= |NatToDecimal(n)| <= hi then Some(Scan(n, rest)) else None
  {
    var d := NatToDecimal(n);
    RunExact(d, rest, IsDigit);
    DecimalRoundTrip(n);
    assert (d + rest)[..|d|] == d && (d + rest)[|d|..] == rest;
  }

  /** A depth line as the tooltip shows it, with any white space around
      the number. */
  function DepthLine(depth: nat, pad1: seq<char>, pad2: seq<char>): seq<char> {
    "Depth:" + pad1 + NatToDecimal(depth) + pad2 + "m"
  }

  /** `RE_DEPTH` reads a printed depth back exactly when it has at most
      four digits. */
  lemma DepthRoundTrip(depth: nat, pad1: seq<char>, pad2: seq<char>, t: seq<char>)
    requires AllSpace(pad1) && AllSpace(pad2) && AtLineEnd(t)
    ensures MatchDepth(DepthLine(depth, pad1, pad2) + t) == if depth <= 9999 then Some(depth) else None
  {
    var d := NatToDecimal(depth);
    var rest := pad2 + ("m" + t);
    DepthLineParts(depth, pad1, pad2, t);
    LabelThen("Depth:", "depth:", pad1 + (d + rest));
    SkipSpaceTo(pad1, d + rest);
    DepthFieldOf(depth, pad2, t);
  }

  lemma DepthLineParts(depth: nat, pad1: seq<char>, pad2: seq<char>, t: seq<char>)
    ensures DepthLine(depth, pad1, pad2) + t
      == "Depth:" + (pad1 + (NatToDecimal(depth) + (pad2 + ("m" + t))))
  {
  }

  lemma DepthFieldOf(depth: nat, pad2: seq<char>, t: seq<char>)
    requires AllSpace(pad2) && AtLineEnd(t)
    ensures DepthField(NatToDecimal(depth) + (pad2 + ("m" + t)))
      == if depth <= 9999 then Some(depth) else None
  {
    var rest := pad2 + ("m" + t);
    FieldThen(depth, 1, 4, rest);
    DecimalLength(depth, 4);
    SkipSpaceTo(pad2, "m" + t);
    assert ("m" + t)[1..] == t;
  }

  /** `ZeroPad2` of a number below 100 is its two digits. */
  lemma PadDigits(n: nat)
    requires n < 100
    ensures ZeroPad2(n) == [DigitChar(n / 10), DigitChar(n % 10)]
  {
    if n >= 10 {
      assert NatToDecimal(n / 10) == [DigitChar(n / 10)];
    }
  }

  /** The countdown the deed model formats reads back through the clock
      group when its hour field has two digits starting 0-2. */
  lemma ClockGroupOf(sec: nat, t: seq<char>)
    requires sec < 30 * 3600 && AtLineEnd(t)
    ensures ClockGroup(FormatTimeLeft(sec) + t)
      == Some(ClockCapture(FormatTimeLeft(sec), sec / 3600, (sec % 3600) / 60, sec % 60))
  {
    var hh, mm, ss := ZeroPad2(sec / 3600), ZeroPad2((sec % 3600) / 60), ZeroPad2(sec % 60);
    HmsDecompose(sec);
    ClockParts(sec, t);
    HourFieldOf(sec / 3600, [':'] + (mm + ([':'] + (ss + t))));
    ColonThen(mm + ([':'] + (ss + t)));
    SexagesimalOf((sec % 3600) / 60, [':'] + (ss + t));
    ColonThen(ss + t);
    SexagesimalOf(sec % 60, t);
  }

  lemma ClockParts(sec: nat, t: seq<char>)
    ensures var hh, mm, ss := ZeroPad2(sec / 3600), ZeroPad2((sec % 3600) / 60), ZeroPad2(sec % 60);
      && FormatTimeLeft(sec) == hh + [':'] + mm + [':'] + ss
      && FormatTimeLeft(sec) + t == hh + ([':'] + (mm + ([':'] + (ss + t))))
  {
  }

  lemma HourFieldOf(h: nat, rest: seq<char>)
    requires h < 30
    ensures HourField(ZeroPad2(h) + rest) == Some(Scan(ZeroPad2(h), rest))
  {
    PadDigits(h);
    var s := ZeroPad2(h) + rest;
    assert s[..2] == ZeroPad2(h) && s[2..] == rest;
  }

  lemma SexagesimalOf(n: nat, rest: seq<char>)
    requires n < 60
    ensures SexagesimalField(ZeroPad2(n) + rest) == Some(Scan(ZeroPad2(n), rest))
  {
    PadDigits(n);
    var s := ZeroPad2(n) + rest;
    assert s[..2] == ZeroPad2(n) && s[2..] == rest;
  }

  lemma ColonThen(y: seq<char>)
    ensures Expect([':'] + y, ':') == Some(y)
  {
    assert ([':'] + y)[1..] == y;
  }

  /** An hour field of 30 or more is refused: two digits starting 3-9 fail
      the hour's class, three or more leave a digit where ':' must come. */
  lemma ClockGroupRefuses(sec: nat, t: seq<char>)
    requires sec >= 30 * 3600
    ensures ClockGroup(FormatTimeLeft(sec) + t).None?
  {
    var h := sec / 3600;
    var hh := ZeroPad2(h);
    var s := FormatTimeLeft(sec) + t;
    assert s[..|hh|] == hh;
    if h < 100 {
      PadDigits(h);
    } else {
      DecimalLength(h, 2);
      assert s[2] == hh[2];
    }
  }

  /** The countdown line as the tooltip shows it. */
  function TimeLine(sec: nat): seq<char> {
    "Time left: " + FormatTimeLeft(sec)
  }

  /** `RE_TIME` reads the deed model's own countdown text back as the same
      hours, minutes and seconds, exactly when it is below 30 hours. */
  lemma TimeRoundTrip(sec: nat, t: seq<char>)
    requires AtLineEnd(t)
    ensures MatchTime(TimeLine(sec) + t).Some? <==> sec < 30 * 3600
    ensures MatchTime(TimeLine(sec) + t).Some? ==>
      MatchTime(TimeLine(sec) + t).value
        == ClockCapture(FormatTimeLeft(sec), sec / 3600, (sec % 3600) / 60, sec % 60)
  {
    var f := FormatTimeLeft(sec);
    assert (f + t)[0] == ZeroPad2(sec / 3600)[0];
    assert TimeLine(sec) + t == "Time left: " + (f + t);
    TimeLabels(f + t);
    if sec < 30 * 3600 {
      ClockGroupOf(sec, t);
    } else {
      ClockGroupRefuses(sec, t);
    }
  }

  /** The labels of `RE_TIME`, written as the tooltip writes them, lead
      straight to the clock group. */
  lemma TimeLabels(u: seq<char>)
    requires |u| > 0 && IsDigit(u[0])
    ensures MatchTime("Time left: " + u) == ClockGroup(u)
  {
    assert "Time left: " + u == "Time" + (" " + ("left:" + (" " + u)));
    LabelThen("Time", "time", " " + ("left:" + (" " + u)));
    SkipSpaceTo(" ", "left:" + (" " + u));
    LabelThen("left:", "left:", " " + u);
    SkipSpaceTo(" ", u);
  }

  /** The coordinate triple as the tooltip prints it. */
  function TripleText(x: nat, y: nat, z: nat): seq<char> {
    "(" + NatToDecimal(x) + ", " + NatToDecimal(y) + ", " + NatToDecimal(z) + ")"
  }

  /** A printed number with white space around it is a coordinate exactly
      when its length is within the bounds. */
  lemma CoordinateOf(n: nat, lo: nat, hi: nat, pad: seq<char>, rest: seq<char>)
    requires AllSpace(pad)
    requires |rest| > 0 && !IsSpace(rest[0]) && !IsDigit(rest[0])
    ensures Coordinate(pad + NatToDecimal(n) + rest, lo, hi)
      == if lo <= |NatToDecimal(n)| <= hi then Some(Scan(n, rest)) else None
  {
    var d := NatToDecimal(n);
    ConcatAssoc(pad, d, rest);
    SkipSpaceTo(pad, d + rest);
    FieldThen(n, lo, hi, rest);
    SkipNothing(rest);
  }

  lemma ConcatAssoc(a: seq<char>, b: seq<char>, c: seq<char>)
    ensures a + b + c == a + (b + c)
  {
  }

  /** `\s*` in front of a non-space character matches nothing. */
  lemma SkipNothing(t: seq<char>)
    requires |t| == 0 || !IsSpace(t[0])
    ensures SkipSpace(t) == t
  {
    assert Run(t, IsSpace) == 0;
    assert t[0..] == t;
  }

  /** The bounds `\d{3,6}` and `\d{1,4}` put on printed coordinates. */
  predicate TripleInRange(x: nat, y: nat, z: nat) {
    100 <= x < 1000000 && 100 <= y < 1000000 && z < 10000
  }

  lemma TripleLengths(x: nat, y: nat, z: nat)
    ensures TripleInRange(x, y, z) <==>
      && 3 <= |NatToDecimal(x)| <= 6 && 3 <= |NatToDecimal(y)| <= 6
      && 1 <= |NatToDecimal(z)| <= 4
  {
    DecimalLength(x, 2);
    DecimalLength(x, 6);
    DecimalLength(y, 2);
    DecimalLength(y, 6);
    DecimalLength(z, 4);
  }

  /** The triple part of the position patterns reads a printed triple back
      exactly when its numbers have the digit counts the patterns allow. */
  lemma TripleRoundTrip(x: nat, y: nat, z: nat, t: seq<char>)
    requires AtLineEnd(t)
    ensures MatchTriple(TripleText(x, y, z) + t)
      == if TripleInRange(x, y, z) then Some((x, y, z)) else None
  {
    var afterY := ", " + NatToDecimal(z) + (")" + t);
    var afterX := ", " + NatToDecimal(y) + afterY;
    OpenThen(NatToDecimal(x), afterX);
    TripleTextParts(x, y, z, t);
    TripleLengths(x, y, z);
    CoordinateOf(x, 3, 6, [], afterX);
    EmptyPad(NatToDecimal(x));
    CommaThen(NatToDecimal(y), afterY);
    PairTailOf(y, z, t);
  }

  lemma TripleTextParts(x: nat, y: nat, z: nat, t: seq<char>)
    ensures TripleText(x, y, z) + t
      == "(" + NatToDecimal(x) + (", " + NatToDecimal(y) + (", " + NatToDecimal(z) + (")" + t)))
  {
  }

  lemma EmptyPad(s: seq<char>)
    ensures [] + s == s
  {
  }

  lemma OpenThen(a: seq<char>, b: seq<char>)
    ensures Expect("(" + a + b, '(') == Some(a + b)
  {
    assert ("(" + a + b)[1..] == a + b;
  }

  lemma PairTailOf(y: nat, z: nat, t: seq<char>)
    requires AtLineEnd(t)
    ensures PairTail(" " + NatToDecimal(y) + (", " + NatToDecimal(z) + (")" + t)))
      == if 3 <= |NatToDecimal(y)| <= 6 && |NatToDecimal(z)| <= 4 then Some((y, z)) else None
  {
    var afterY := ", " + NatToDecimal(z) + (")" + t);
    CoordinateOf(y, 3, 6, " ", afterY);
    CommaThen(NatToDecimal(z), ")" + t);
    LastTailOf(z, t);
  }

  lemma CommaThen(a: seq<char>, b: seq<char>)
    ensures Expect(", " + a + b, ',') == Some(" " + a + b)
  {
    assert (", " + a + b)[1..] == " " + a + b;
  }

  lemma LastTailOf(z: nat, t: seq<char>)
    requires AtLineEnd(t)
    ensures LastTail(" " + NatToDecimal(z) + (")" + t))
      == if |NatToDecimal(z)| <= 4 then Some(z) else None
  {
    CoordinateOf(z, 1, 4, " ", ")" + t);
    assert (")" + t)[1..] == t;
  }

  /** A position line with a planet name, as the tooltip prints it. */
  function PlanetLine(planet: seq<char>, x: nat, y: nat, z: nat): seq<char> {
    "Position: " + planet + " " + TripleText(x, y, z)
  }

  /** A position line with the numbers only. */
  function NumbersLine(x: nat, y: nat, z: nat): seq<char> {
    "Position: " + TripleText(x, y, z)
  }

  /** `RE_POS_WITH_PLANET` reads the planet and the triple back. */
  lemma PlanetLineRoundTrip(planet: seq<char>, x: nat, y: nat, z: nat, t: seq<char>)
    requires |planet| > 0 && AllLetters(planet) && AtLineEnd(t)
    ensures MatchPositionWithPlanet(PlanetLine(planet, x, y, z) + t)
      == if TripleInRange(x, y, z) then Some(PositionCapture(Some(planet), x, y, z)) else None
  {
    var tail := " " + (TripleText(x, y, z) + t);
    PlanetLineParts(planet, x, y, z, t);
    LabelThen("Position:", "position:", " " + (planet + tail));
    SkipSpaceTo(" ", planet + tail);
    RunExact(planet, tail, IsLetter);
    SplitAt(planet, tail);
    TripleStarts(x, y, z, t);
    SkipSpaceTo(" ", TripleText(x, y, z) + t);
    TripleRoundTrip(x, y, z, t);
  }

  lemma PlanetLineParts(planet: seq<char>, x: nat, y: nat, z: nat, t: seq<char>)
    ensures PlanetLine(planet, x, y, z) + t
      == "Position:" + (" " + (planet + (" " + (TripleText(x, y, z) + t))))
  {
  }

  lemma SplitAt(a: seq<char>, b: seq<char>)
    ensures (a + b)[..|a|] == a && (a + b)[|a|..] == b
  {
  }

  lemma TripleStarts(x: nat, y: nat, z: nat, t: seq<char>)
    ensures |TripleText(x, y, z) + t| > 0 && (TripleText(x, y, z) + t)[0] == '('
  {
  }

  /** `RE_POS_NUMBERS_ONLY` reads the triple back. */
  lemma NumbersLineRoundTrip(x: nat, y: nat, z: nat, t: seq<char>)
    requires AtLineEnd(t)
    ensures MatchPositionNumbers(NumbersLine(x, y, z) + t)
      == if TripleInRange(x, y, z) then Some(PositionCapture(None, x, y, z)) else None
  {
    assert NumbersLine(x, y, z) + t == "Position:" + (" " + (TripleText(x, y, z) + t));
    LabelThen("Position:", "position:", " " + (TripleText(x, y, z) + t));
    TripleStarts(x, y, z, t);
    SkipSpaceTo(" ", TripleText(x, y, z) + t);
    TripleRoundTrip(x, y, z, t);
  }

  /** A size line as the tooltip prints it. */
  function SizeLine(name: seq<char>, points: nat): seq<char> {
    "Size: " + name + " (" + NatToDecimal(points) + ")"
  }

  /** `RE_SIZE` reads a printed letters-only size name and its point count
      back. */
  lemma SizeRoundTrip(name: seq<char>, points: nat, t: seq<char>)
    requires |name| > 0 && AllLetters(name) && AtLineEnd(t)
    ensures MatchSize(SizeLine(name, points) + t) == Some(SizeCapture(name, points))
  {
    var count := "(" + NatToDecimal(points) + (")" + t);
    var tail := " " + count;
    SizeLineParts(name, points, t);
    LabelThen("Size:", "size:", " " + (name + tail));
    SkipSpaceTo(" ", name + tail);
    RunExact(name, tail, IsLetter);
    SplitAt(name, tail);
    SkipSpaceTo(" ", count);
    SizeCountOf(points, t);
  }

  lemma SizeLineParts(name: seq<char>, points: nat, t: seq<char>)
    ensures SizeLine(name, points) + t
      == "Size:" + (" " + (name + (" " + ("(" + NatToDecimal(points) + (")" + t)))))
  {
  }

  lemma SizeCountOf(points: nat, t: seq<char>)
    requires AtLineEnd(t)
    ensures SizeCount("(" + NatToDecimal(points) + (")" + t)) == Some(points)
  {
    var d := NatToDecimal(points);
    OpenThen(d, ")" + t);
    FieldThen(points, 1, |d + (")" + t)|, ")" + t);
    assert (")" + t)[1..] == t;
  }

  /** A resource line as the tooltip prints it. */
  function ResourceLine(name: seq<char>): seq<char> {
    "Resource: " + name
  }

  /** `RE_RESOURCE` reads a printed resource name back whole: a letter,
      then at least one more letter, space, '-' or '\''. */
  lemma ResourceRoundTrip(name: seq<char>, t: seq<char>)
    requires |name| >= 2 && IsLetter(name[0])
    requires forall i :: 0 <= i < |name| ==> IsResourceChar(name[i])
    requires AtLineEnd(t)
    ensures MatchResource(ResourceLine(name) + t) == Some(name)
  {
    ResourceLineParts(name, t);
    LabelThen("Resource:", "resource:", " " + (name + t));
    SkipSpaceTo(" ", name + t);
    RunExact(name, t, IsResourceChar);
    SplitAt(name, t);
  }

  lemma ResourceLineParts(name: seq<char>, t: seq<char>)
    ensures ResourceLine(name) + t == "Resource:" + (" " + (name + t))
  {
  }

  // ------------------------------------------------------------ a whole tooltip

  /** A resource name `RE_RESOURCE` reads back whole, with no trailing
      white space for the line preparation to strip. */
  predicate ResourceName(name: seq<char>) {
    && |name| >= 2 && IsLetter(name[0]) && !IsSpace(name[|name| - 1])
    && forall i :: 0 <= i < |name| ==> IsResourceChar(name[i])
  }

  /** Field values a tooltip can show so that every pattern reads them. */
  predicate TooltipValues(depth: nat, size: seq<char>, resource: seq<char>, sec: nat,
                          planet: seq<char>, x: nat, y: nat, z: nat) {
    && depth <= 9999
    && |size| > 0 && AllLetters(size)
    && ResourceName(resource)
    && sec < 30 * 3600
    && |planet| > 0 && AllLetters(planet) && TripleInRange(x, y, z)
  }

  /** The five lines of a deed tooltip, as the game prints them. */
  function TooltipLines(depth: nat, size: seq<char>, points: nat, resource: seq<char>, sec: nat,
                        planet: seq<char>, x: nat, y: nat, z: nat): (ls: seq<seq<char>>)
    ensures |ls| == 5
  {
    [DepthLine(depth, " ", ""), SizeLine(size, points), ResourceLine(resource), TimeLine(sec),
     PlanetLine(planet, x, y, z)]
  }

  /** A tooltip line that starts with `head`: non-empty, free of line
      breaks and not ending in white space. */
  predicate LineShape(l: seq<char>, head: char) {
    |l| > 0 && l[0] == head && '\n' !in l && '\r' !in l && !IsSpace(l[|l| - 1])
  }

  /** Each line starts with the capital of its label. */
  lemma TooltipShape(depth: nat, size: seq<char>, points: nat, resource: seq<char>, sec: nat,
                     planet: seq<char>, x: nat, y: nat, z: nat)
    requires TooltipValues(depth, size, resource, sec, planet, x, y, z)
    ensures var ls := TooltipLines(depth, size, points, resource, sec, planet, x, y, z);
      && LineShape(ls[0], 'D') && LineShape(ls[1], 'S') && LineShape(ls[2], 'R')
      && LineShape(ls[3], 'T') && LineShape(ls[4], 'P')
  {
    DepthLineShape(depth);
    SizeLineShape(size, points);
    ResourceLineShape(resource);
    TimeLineShape(sec);
    PlanetLineShape(planet, x, y, z);
  }

  lemma DepthLineShape(depth: nat)
    ensures LineShape(DepthLine(depth, " ", ""), 'D')
  {
    NoBreaks(NatToDecimal(depth));
  }

  lemma SizeLineShape(size: seq<char>, points: nat)
    requires AllLetters(size)
    ensures LineShape(SizeLine(size, points), 'S')
  {
    NoBreaks(NatToDecimal(points));
    assert '\n' !in size && '\r' !in size;
  }

  lemma ResourceLineShape(resource: seq<char>)
    requires ResourceName(resource)
    ensures LineShape(ResourceLine(resource), 'R')
  {
    assert '\n' !in resource && '\r' !in resource by {
      assert forall i :: 0 <= i < |resource| ==> IsResourceChar(resource[i]);
    }
  }

  lemma TimeLineShape(sec: nat)
    ensures LineShape(TimeLine(sec), 'T')
  {
    CountdownChars(sec);
    LabelledShape("Time left: ", FormatTimeLeft(sec), 'T');
  }

  /** A label and a text after it, neither with a line break, make a line
      that ends where the text does. */
  lemma LabelledShape(tag: seq<char>, f: seq<char>, head: char)
    requires |tag| > 0 && tag[0] == head && '\n' !in tag && '\r' !in tag
    requires |f| > 0 && '\n' !in f && '\r' !in f && !IsSpace(f[|f| - 1])
    ensures LineShape(tag + f, head)
  {
    assert (tag + f)[|tag + f| - 1] == f[|f| - 1];
  }

  /** The countdown text is digits and ':' ending in a digit. */
  lemma CountdownChars(sec: nat)
    ensures var f := FormatTimeLeft(sec);
      |f| > 0 && '\n' !in f && '\r' !in f && IsDigit(f[|f| - 1]) && !IsSpace(f[|f| - 1])
  {
    var a, b, c := ZeroPad2(sec / 3600), ZeroPad2((sec % 3600) / 60), ZeroPad2(sec % 60);
    NoBreaks(a);
    NoBreaks(b);
    NoBreaks(c);
    var f := a + [':'] + b + [':'] + c;
    assert FormatTimeLeft(sec) == f;
    assert f[|f| - 1] == c[|c| - 1];
  }

  lemma PlanetLineShape(planet: seq<char>, x: nat, y: nat, z: nat)
    requires AllLetters(planet)
    ensures LineShape(PlanetLine(planet, x, y, z), 'P')
  {
    NoBreaks(NatToDecimal(x));
    NoBreaks(NatToDecimal(y));
    NoBreaks(NatToDecimal(z));
    assert '\n' !in planet && '\r' !in planet;
  }

  /** In a printed tooltip each pattern's first match is its own line, and
      it reads back the values printed there. */
  lemma TooltipMatches(depth: nat, size: seq<char>, points: nat, resource: seq<char>, sec: nat,
                       planet: seq<char>, x: nat, y: nat, z: nat)
    requires TooltipValues(depth, size, resource, sec, planet, x, y, z)
    ensures var s := Join(TooltipLines(depth, size, points, resource, sec, planet, x, y, z), '\n');
      && SearchLines(s, MatchDepth) == Some(depth)
      && SearchLines(s, MatchSize) == Some(SizeCapture(size, points))
      && SearchLines(s, MatchResource) == Some(resource)
      && SearchLines(s, MatchTime)
           == Some(ClockCapture(FormatTimeLeft(sec), sec / 3600, (sec % 3600) / 60, sec % 60))
      && SearchLines(s, MatchPositionWithPlanet) == Some(PositionCapture(Some(planet), x, y, z))
  {
    var ls := TooltipLines(depth, size, points, resource, sec, planet, x, y, z);
    TooltipShape(depth, size, points, resource, sec, planet, x, y, z);
    var r3 := Join(ls[3..], '\n');
    var r2 := Join(ls[2..], '\n');
    var r1 := Join(ls[1..], '\n');
    JoinSplitsOff(ls, 0);
    JoinSplitsOff(ls, 1);
    JoinSplitsOff(ls, 2);
    JoinSplitsOff(ls, 3);
    assert Join(ls[4..], '\n') == ls[4];
    assert ls[0..] == ls;
    TooltipDepth(depth, ls[0], r1);
    TooltipSize(size, points, ls[0], ls[1], r1, r2);
    TooltipResource(resource, ls[0], ls[1], ls[2], r1, r2, r3);
    TooltipTime(sec, ls[0], ls[1], ls[2], ls[3], ls[4], r1, r2, r3);
    TooltipPosition(planet, x, y, z, ls[0], ls[1], ls[2], ls[3], ls[4], r1, r2, r3);
  }

  /** The depth line comes first. */
  lemma TooltipDepth(depth: nat, l0: seq<char>, r1: seq<char>)
    requires l0 == DepthLine(depth, " ", "") && depth <= 9999
    ensures SearchLines(l0 + "\n" + r1, MatchDepth) == Some(depth)
  {
    ConcatAssoc(l0, "\n", r1);
    DepthRoundTrip(depth, " ", "", "\n" + r1);
    var s := l0 + "\n" + r1;
    assert s[0..] == s;
  }

  /** The size line is the second. */
  lemma TooltipSize(size: seq<char>, points: nat, l0: seq<char>, l1: seq<char>, r1: seq<char>, r2: seq<char>)
    requires l1 == SizeLine(size, points) && |size| > 0 && AllLetters(size)
    requires LineShape(l0, 'D') && r1 == l1 + "\n" + r2
    ensures SearchLines(l0 + "\n" + r1, MatchSize) == Some(SizeCapture(size, points))
  {
    LabelMismatch(l0 + "\n" + r1, "size:");
    SearchPastLine(l0, r1, MatchSize);
    ConcatAssoc(l1, "\n", r2);
    SizeRoundTrip(size, points, "\n" + r2);
    assert r1[0..] == r1;
  }

  /** The resource line is the third. */
  lemma TooltipResource(resource: seq<char>, l0: seq<char>, l1: seq<char>, l2: seq<char>,
                        r1: seq<char>, r2: seq<char>, r3: seq<char>)
    requires l2 == ResourceLine(resource) && ResourceName(resource)
    requires LineShape(l0, 'D') && LineShape(l1, 'S')
    requires r1 == l1 + "\n" + r2 && r2 == l2 + "\n" + r3
    ensures SearchLines(l0 + "\n" + r1, MatchResource) == Some(resource)
  {
    LabelMismatch(l0 + "\n" + r1, "resource:");
    LabelMismatch(r1, "resource:");
    SearchPastLine(l0, r1, MatchResource);
    SearchPastLine(l1, r2, MatchResource);
    ConcatAssoc(l2, "\n", r3);
    ResourceRoundTrip(resource, "\n" + r3);
    assert r2[0..] == r2;
  }

  /** The countdown line is the fourth. */
  lemma TooltipTime(sec: nat, l0: seq<char>, l1: seq<char>, l2: seq<char>, l3: seq<char>, l4: seq<char>,
                    r1: seq<char>, r2: seq<char>, r3: seq<char>)
    requires l3 == TimeLine(sec) && sec < 30 * 3600
    requires LineShape(l0, 'D') && LineShape(l1, 'S') && LineShape(l2, 'R')
    requires r1 == l1 + "\n" + r2 && r2 == l2 + "\n" + r3 && r3 == l3 + "\n" + l4
    ensures SearchLines(l0 + "\n" + r1, MatchTime)
      == Some(ClockCapture(FormatTimeLeft(sec), sec / 3600, (sec % 3600) / 60, sec % 60))
  {
    LabelMismatch(l0 + "\n" + r1, "time");
    LabelMismatch(r1, "time");
    LabelMismatch(r2, "time");
    SearchPastLine(l0, r1, MatchTime);
    SearchPastLine(l1, r2, MatchTime);
    SearchPastLine(l2, r3, MatchTime);
    ConcatAssoc(l3, "\n", l4);
    TimeRoundTrip(sec, "\n" + l4);
    assert r3[0..] == r3;
  }

  /** The position line is the fifth. */
  lemma TooltipPosition(planet: seq<char>, x: nat, y: nat, z: nat,
                        l0: seq<char>, l1: seq<char>, l2: seq<char>, l3: seq<char>, l4: seq<char>,
                        r1: seq<char>, r2: seq<char>, r3: seq<char>)
    requires l4 == PlanetLine(planet, x, y, z)
    requires |planet| > 0 && AllLetters(planet) && TripleInRange(x, y, z)
    requires LineShape(l0, 'D') && LineShape(l1, 'S') && LineShape(l2, 'R') && LineShape(l3, 'T')
    requires r1 == l1 + "\n" + r2 && r2 == l2 + "\n" + r3 && r3 == l3 + "\n" + l4
    ensures SearchLines(l0 + "\n" + r1, MatchPositionWithPlanet)
      == Some(PositionCapture(Some(planet), x, y, z))
  {
    LabelMismatch(l0 + "\n" + r1, "position:");
    LabelMismatch(r1, "position:");
    LabelMismatch(r2, "position:");
    LabelMismatch(r3, "position:");
    SearchPastLine(l0, r1, MatchPositionWithPlanet);
    SearchPastLine(l1, r2, MatchPositionWithPlanet);
    SearchPastLine(l2, r3, MatchPositionWithPlanet);
    SearchPastLine(l3, l4, MatchPositionWithPlanet);
    PlanetLineRoundTrip(planet, x, y, z, "");
    assert l4 + "" == l4 && l4[0..] == l4;
  }

  /** Digits hold no line break. */
  lemma NoBreaks(d: seq<char>)
    requires AllDigits(d)
    ensures '\n' !in d && '\r' !in d
  {
    assert forall i :: 0 <= i < |d| ==> IsDigit(d[i]);
  }

  /** A join splits off its line `i` in front of the join of the rest. */
  lemma JoinSplitsOff(ls: seq<seq<char>>, i: nat)
    requires i < |ls| - 1
    ensures Join(ls[i..], '\n') == ls[i] + "\n" + Join(ls[i + 1..], '\n')
  {
    assert ls[i..][1..] == ls[i + 1..];
  }
}
