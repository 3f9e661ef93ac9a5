/** The compass reader of src/Scanner/player_position_scanner.py: where
    the compass is grabbed, and how `Lon:`/`Lat:` are read from its OCR
    text. */
module Compass {
  import opened Wrappers
  import opened Text
  import opened Decimal
  import opened DeedPatterns
  import opened ScreenCapture

  /** `DEFAULT_COMPASS_W`, `DEFAULT_COMPASS_H`. */
  const DefaultCompassW: int := 30
  const DefaultCompassH: int := 30

  /** The default gaps between the compass and the client's right and
      bottom edges. */
  const PadRight: int := 8
  const PadBottom: int := 10

  /** `_build_compass_region`: a `w` by `h` box whose bottom-right corner
      sits `padRight`, `padBottom` inside the client's bottom-right corner,
      pushed right or down when that would leave the screen's top-left. */
  function BuildCompassRegion(client: ClientRect, screenX: int, screenY: int, w: int, h: int,
                              padRight: int, padBottom: int): (r: Region)
    ensures r.width == w && r.height == h
    ensures r.left >= 0 && r.top >= 0
    ensures var right := screenX + (client.right - client.left);
      right - padRight - w >= 0 ==> r.left + w == right - padRight
    ensures var bottom := screenY + (client.bottom - client.top);
      bottom - padBottom - h >= 0 ==> r.top + h == bottom - padBottom
    ensures screenX + (client.right - client.left) - padRight - w < 0 ==> r.left == 0
    ensures screenY + (client.bottom - client.top) - padBottom - h < 0 ==> r.top == 0
  {
    var screenRight := screenX + (client.right - client.left);
    var screenBottom := screenY + (client.bottom - client.top);
    Region(Max(0, screenRight - padRight - w), Max(0, screenBottom - padBottom - h), w, h)
  }

  /** When the client is wide and tall enough, the compass box lies inside
      it. */
  lemma CompassInsideClient(client: ClientRect, screenX: int, screenY: int, w: int, h: int,
                            padRight: int, padBottom: int)
    requires screenX >= 0 && screenY >= 0 && padRight >= 0 && padBottom >= 0
    requires client.right - client.left >= padRight + w
    requires client.bottom - client.top >= padBottom + h
    ensures var r := BuildCompassRegion(client, screenX, screenY, w, h, padRight, padBottom);
      && screenX <= r.left && r.left + r.width <= screenX + (client.right - client.left)
      && screenY <= r.top && r.top + r.height <= screenY + (client.bottom - client.top)
  {
  }

  // ------------------------------------------------------------ _RE_LONLAT

  predicate IsLineBreak(c: char) {
    c == '\r' || c == '\n'
  }

  /** Lat's `\d{1,6}` has nothing after it, so it takes the first (up to
      six) digits of the run. */
  function LeadingDigits(s: string, hi: nat): (r: Option<nat>)
    requires hi >= 1
    ensures r.Some? <==> |s| > 0 && IsDigit(s[0])
    ensures r.Some? ==> r.value < Pow10(hi)
  {
    var n := Run(s, IsDigit);
    if n == 0 then None
    else
      var k := if n < hi then n else hi;
      DecimalBound(s[..k]);
      PowMonotone(k, hi);
      Some(DecimalValue(s[..k]))
  }

  /** `Lon:\s*(\d{1,6})\s*[\r\n]+Lat:\s*(\d{1,6})` (ignoring case) at the
      start of `s`. Lon's digit run must be whole: a shorter take leaves a
      digit where white space or `Lat:` must follow. The white space
      between the number and `Lat:` is all of the run there (`Lat:` starts
      with a letter), and `[\r\n]+` must end it. */
  function MatchLonLat(s: string): (r: Option<(nat, nat)>)
    ensures r.Some? ==> r.value.0 < 1000000 && r.value.1 < 1000000
  {
    var a :- Label(s, "lon:");
    var lon :- DigitField(SkipSpace(a), 1, 6);
    var lat :- MatchLat(lon.rest);
    PowValues();
    Some((lon.value, lat))
  }

  /** `\s*[\r\n]+Lat:\s*(\d{1,6})` after Lon's number. */
  function MatchLat(s: string): (r: Option<nat>)
    ensures r.Some? ==> r.value < Pow10(6)
  {
    var w := Run(s, IsSpace);
    if w == 0 || !IsLineBreak(s[w - 1]) then None
    else
      var b :- Label(s[w..], "lat:");
      LeadingDigits(SkipSpace(b), 6)
  }

  /** `_RE_LONLAT.search(text)`: the first place in the text where the
      pattern matches, with both numbers below a million. */
  function ReadLonLat(text: string): (r: Option<(nat, nat)>)
    ensures r.Some? ==> r.value.0 < 1000000 && r.value.1 < 1000000
    ensures r.None? <==> forall k :: 0 <= k <= |text| ==> MatchLonLat(text[k..]).None?
    ensures r.Some? ==>
      exists k :: && 0 <= k <= |text| && r == MatchLonLat(text[k..])
                  && forall j :: 0 <= j < k ==> MatchLonLat(text[j..]).None?
  {
    SearchFrom(text, MatchLonLat, false, 0)
  }

  /** One scanning cycle from the OCR text on: the callback arguments, in
      order lon, lat, if the text holds a reading. */
  function ScanCycle(text: string): (calls: seq<(int, int)>)
    ensures |calls| <= 1
    ensures |calls| == 1 <==> ReadLonLat(text).Some?
    ensures |calls| == 1 ==> calls[0] == (ReadLonLat(text).value.0 as int, ReadLonLat(text).value.1 as int)
    ensures forall i :: 0 <= i < |calls| ==> 0 <= calls[i].0 < 1000000 && 0 <= calls[i].1 < 1000000
  {
    match ReadLonLat(text)
    case None => []
    case Some((lon, lat)) => [(lon, lat)]
  }

  // ------------------------------------------------------------ round trip

  /** A compass reading as the game prints it: the two labels with any
      white space after them and a line-break-terminated gap between. */
  function CompassText(lon: nat, lat: nat, pad1: string, gap: string, pad2: string): string {
    "Lon:" + pad1 + NatToDecimal(lon) + gap + "Lat:" + pad2 + NatToDecimal(lat)
  }

  /** Printed readings of at most six digits read back as printed. */
  lemma CompassRoundTrip(lon: nat, lat: nat, pad1: string, gap: string, pad2: string)
    requires lon < 1000000 && lat < 1000000
    requires AllSpace(pad1) && AllSpace(pad2) && AllSpace(gap)
    requires |gap| > 0 && IsLineBreak(gap[|gap| - 1])
    ensures MatchLonLat(CompassText(lon, lat, pad1, gap, pad2)) == Some((lon, lat))
  {
    var d1 := NatToDecimal(lon);
    var rest := gap + ("Lat:" + pad2 + NatToDecimal(lat));
    CompassParts(lon, lat, pad1, gap, pad2);
    LabelThen("Lon:", "lon:", pad1 + (d1 + rest));
    SkipSpaceTo(pad1, d1 + rest);
    FieldThen(lon, 1, 6, rest);
    DecimalLength(lon, 6);
    GapThenLat(lat, gap, pad2);
  }

  lemma GapThenLat(lat: nat, gap: string, pad2: string)
    requires lat < 1000000 && AllSpace(pad2) && AllSpace(gap)
    requires |gap| > 0 && IsLineBreak(gap[|gap| - 1])
    ensures MatchLat(gap + ("Lat:" + pad2 + NatToDecimal(lat))) == Some(lat)
  {
    var tail := "Lat:" + pad2 + NatToDecimal(lat);
    var s := gap + tail;
    RunExact(gap, tail, IsSpace);
    assert s[|gap|..] == tail;
    assert s[|gap| - 1] == gap[|gap| - 1];
    LatTail(lat, pad2);
  }

  /** `Lat:`, white space and a printed number below a million read back as
      the number. */
  lemma LatTail(lat: nat, pad2: string)
    requires lat < 1000000 && AllSpace(pad2)
    ensures var d := NatToDecimal(lat);
      && Label("Lat:" + pad2 + d, "lat:") == Some(pad2 + d)
      && SkipSpace(pad2 + d) == d
      && LeadingDigits(d, 6) == Some(lat)
  {
    var d := NatToDecimal(lat);
    LatParts(pad2, d);
    LabelThen("Lat:", "lat:", pad2 + d);
    SkipSpaceTo(pad2, d);
    LeadingDigitsOf(lat);
  }

  lemma LatParts(pad2: string, d: string)
    ensures "Lat:" + pad2 + d == "Lat:" + (pad2 + d)
  {
  }

  /** A printed number below a million is read whole by Lat's field. */
  lemma LeadingDigitsOf(lat: nat)
    requires lat < 1000000
    ensures LeadingDigits(NatToDecimal(lat), 6) == Some(lat)
  {
    var d := NatToDecimal(lat);
    RunExact(d, [], IsDigit);
    assert d + [] == d && d[..|d|] == d;
    DecimalLength(lat, 6);
    PowValues();
    DecimalRoundTrip(lat);
  }

  lemma CompassParts(lon: nat, lat: nat, pad1: string, gap: string, pad2: string)
    ensures CompassText(lon, lat, pad1, gap, pad2)
      == "Lon:" + (pad1 + (NatToDecimal(lon) + (gap + ("Lat:" + pad2 + NatToDecimal(lat)))))
  {
  }

  /** Without a line break between the number and `Lat:` there is no
      reading. */
  lemma NoBreakNoReading(lon: nat, lat: nat, pad1: string, gap: string, pad2: string)
    requires AllSpace(pad1) && AllSpace(gap)
    requires forall i :: 0 <= i < |gap| ==> !IsLineBreak(gap[i])
    ensures MatchLonLat(CompassText(lon, lat, pad1, gap, pad2)).None?
  {
    var d1 := NatToDecimal(lon);
    var rest := gap + ("Lat:" + pad2 + NatToDecimal(lat));
    CompassParts(lon, lat, pad1, gap, pad2);
    LabelThen("Lon:", "lon:", pad1 + (d1 + rest));
    SkipSpaceTo(pad1, d1 + rest);
    DigitsThen(d1, rest);
    GapWithoutBreak(gap, "Lat:" + pad2 + NatToDecimal(lat));
  }

  /** Whatever Lon's field makes of a digit run, it stops after the run. */
  lemma DigitsThen(d: string, rest: string)
    requires AllDigits(d)
    requires |rest| > 0 && !IsDigit(rest[0])
    ensures DigitField(d + rest, 1, 6).Some? ==> DigitField(d + rest, 1, 6).value.rest == rest
  {
    RunExact(d, rest, IsDigit);
    assert (d + rest)[|d|..] == rest;
  }

  lemma GapWithoutBreak(gap: string, tail: string)
    requires AllSpace(gap)
    requires forall i :: 0 <= i < |gap| ==> !IsLineBreak(gap[i])
    requires |tail| > 0 && !IsSpace(tail[0])
    ensures MatchLat(gap + tail).None?
  {
    var s := gap + tail;
    RunExact(gap, tail, IsSpace);
    if |gap| > 0 {
      assert s[|gap| - 1] == gap[|gap| - 1];
    }
  }
}
