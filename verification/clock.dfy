/** Countdown texts: the `H:MM:SS` strings the deed tooltip shows and a
    decoder that reads such a string back into seconds. */
module Clock {
  import opened Wrappers
  import opened Text
  import opened Decimal

  /** Seconds denoted by a `H:MM:SS`-shaped text: three non-empty digit
      fields separated by ':' (any number of digits per field), else None. */
  function ClockValue(t: seq<char>): Option<nat> {
    var p := Split(t, ':');
    if |p| == 3 && |p[0]| > 0 && |p[1]| > 0 && |p[2]| > 0
       && AllDigits(p[0]) && AllDigits(p[1]) && AllDigits(p[2])
    then Some(DecimalValue(p[0]) * 3600 + DecimalValue(p[1]) * 60 + DecimalValue(p[2]))
    else None
  }

  /** Splitting `a:b:c` at ':' gives back the three fields when none of
      them contains ':'. */
  lemma ClockFields(a: seq<char>, b: seq<char>, c: seq<char>)
    requires ':' !in a && ':' !in b && ':' !in c
    ensures Split(a + [':'] + b + [':'] + c, ':') == [a, b, c]
  {
    assert Join([a, b, c], ':') == a + [':'] + b + [':'] + c by {
      assert [a, b, c][1..] == [b, c];
      assert [b, c][1..] == [c];
      assert Join([c], ':') == c;
      assert Join([b, c], ':') == b + [':'] + c;
      assert Join([a, b, c], ':') == a + [':'] + (b + [':'] + c);
    }
    SplitJoin([a, b, c], ':');
  }

  lemma DigitsHaveNoColon(s: seq<char>)
    requires AllDigits(s)
    ensures ':' !in s
  {
    forall i | 0 <= i < |s|
      ensures s[i] != ':'
    {
      assert IsDigit(s[i]);
    }
  }

  /** Reading back a text made of three digit fields. */
  lemma {:induction false} ClockValueOfFields(a: seq<char>, b: seq<char>, c: seq<char>)
    requires |a| > 0 && |b| > 0 && |c| > 0
    requires AllDigits(a) && AllDigits(b) && AllDigits(c)
    ensures ClockValue(a + [':'] + b + [':'] + c)
      == Some(DecimalValue(a) * 3600 + DecimalValue(b) * 60 + DecimalValue(c))
  {
    DigitsHaveNoColon(a);
    DigitsHaveNoColon(b);
    DigitsHaveNoColon(c);
    ClockFields(a, b, c);
  }

  /** Hours, minutes and seconds of a count, as `divmod` computes them. */
  lemma HmsDecompose(t: nat)
    ensures (t / 3600) * 3600 + ((t % 3600) / 60) * 60 + t % 60 == t
    ensures (t % 3600) / 60 < 60 && t % 60 < 60
  {
    var q, r := t / 3600, t % 3600;
    assert t == 3600 * q + r;
    var m, s := r / 60, r % 60;
    assert r == 60 * m + s;
    SixtyRemainder(t, 60 * q + m, s);
  }

  lemma SixtyRemainder(t: nat, k: nat, s: nat)
    requires t == 60 * k + s && s < 60
    ensures t % 60 == s
  {
  }

  /** The shape shared by both countdown formats: a digit field, then two
      fields of exactly two digits each below 60. */
  lemma {:induction false} ClockText(hh: seq<char>, sec: nat)
    requires |hh| > 0 && AllDigits(hh) && DecimalValue(hh) == sec / 3600
    ensures var r := hh + [':'] + ZeroPad2((sec % 3600) / 60) + [':'] + ZeroPad2(sec % 60);
      && ClockValue(r) == Some(sec)
      && Split(r, ':') == [hh, ZeroPad2((sec % 3600) / 60), ZeroPad2(sec % 60)]
  {
    var mm, ss := ZeroPad2((sec % 3600) / 60), ZeroPad2(sec % 60);
    HmsDecompose(sec);
    ClockValueOfFields(hh, mm, ss);
    DigitsHaveNoColon(hh);
    DigitsHaveNoColon(mm);
    DigitsHaveNoColon(ss);
    ClockFields(hh, mm, ss);
  }

  /** The shape of a `time_left` text: three ':'-separated digit fields;
      the hours have at least two digits and no leading zero beyond the
      padding, minutes and seconds exactly two digits below 60. Together
      with the value this pins the text. */
  predicate TimeLeftShape(r: seq<char>) {
    var p := Split(r, ':');
    && |p| == 3
    && |p[0]| >= 2 && AllDigits(p[0]) && (|p[0]| == 2 || p[0][0] != '0')
    && |p[1]| == 2 && AllDigits(p[1]) && DecimalValue(p[1]) < 60
    && |p[2]| == 2 && AllDigits(p[2]) && DecimalValue(p[2]) < 60
  }

  /** `DeedModel.time_left` (src/Models/deed_model.py): every field is
      zero-padded to at least two digits; the hour field may be longer. */
  function FormatTimeLeft(sec: nat): (r: seq<char>)
    ensures ClockValue(r) == Some(sec)
    ensures TimeLeftShape(r)
  {
    HmsDecompose(sec);
    ClockText(ZeroPad2(sec / 3600), sec);
    ZeroPad2(sec / 3600) + [':'] + ZeroPad2((sec % 3600) / 60) + [':'] + ZeroPad2(sec % 60)
  }

  /** `_fmt_ttl` (src/Map/map_deed_controller.py): a negative count reads
      as 0; hours are unpadded, minutes and seconds two digits. */
  function FormatTtl(sec: int): (r: seq<char>)
    ensures ClockValue(r) == Some(if sec < 0 then 0 else sec)
    ensures var p := Split(r, ':');
      && |p| == 3
      && (|p[0]| == 1 || p[0][0] != '0')
      && |p[1]| == 2 && |p[2]| == 2
      && AllDigits(p[1]) && DecimalValue(p[1]) < 60
      && AllDigits(p[2]) && DecimalValue(p[2]) < 60
  {
    var t: nat := if sec < 0 then 0 else sec;
    HmsDecompose(t);
    DecimalRoundTrip(t / 3600);
    ClockText(NatToDecimal(t / 3600), t);
    NatToDecimal(t / 3600) + [':'] + ZeroPad2((t % 3600) / 60) + [':'] + ZeroPad2(t % 60)
  }
}
