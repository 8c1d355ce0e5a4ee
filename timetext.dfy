/**
 * The clock's label text: `strftime('%H:%M:%S')` when seconds are shown,
 * `strftime('%H:%M')` otherwise, and the placeholder used to measure the
 * label before the first tick.
 */
module TimeText {
  import opened Results
  import opened Numerals

  /** A time of day as `datetime` holds it. */
  predicate IsTimeOfDay(h: nat, m: nat, s: nat) {
    h < 24 && m < 60 && s < 60
  }

  /** A two-digit zero-padded field, as `%H`, `%M` and `%S` print it. */
  function Pad2(n: nat): (t: string)
    requires n < 100
    ensures |t| == 2 && AllDigits(t)
    ensures DigitValue(t[0]) * 10 + DigitValue(t[1]) == n
  {
    [DigitChar(n / 10), DigitChar(n % 10)]
  }

  /** The label text for `h:m:s`. */
  function FormatTime(h: nat, m: nat, s: nat, showSeconds: bool): (t: string)
    requires IsTimeOfDay(h, m, s)
    ensures |t| == if showSeconds then 8 else 5
    ensures t[2] == ':' && (showSeconds ==> t[5] == ':')
    ensures forall i :: 0 <= i < |t| && i != 2 && i != 5 ==> IsDigit(t[i])
  {
    var hm := Pad2(h) + ":" + Pad2(m);
    if showSeconds then hm + ":" + Pad2(s) else hm
  }

  /** The fields a label text shows. */
  datatype Shown = HMS(h: nat, m: nat, s: nat) | HM(h: nat, m: nat)

  /** The value of a two-digit field in range `0 .. limit - 1`. */
  function ParseField(t: string, limit: nat): (r: Option<nat>)
    ensures r.Some? ==> r.value < limit
  {
    if |t| == 2 && AllDigits(t) && DigitValue(t[0]) * 10 + DigitValue(t[1]) < limit then
      Some(DigitValue(t[0]) * 10 + DigitValue(t[1]))
    else
      None
  }

  /** Reads a label text back: "HH:MM:SS" or "HH:MM" with in-range fields. */
  function ParseTime(t: string): (r: Option<Shown>)
    ensures r.Some? ==> (|t| == 5 || |t| == 8) && t[2] == ':'
    ensures r.Some? ==> (r.value.HMS? <==> |t| == 8)
  {
    if (|t| != 5 && |t| != 8) || t[2] != ':' || (|t| == 8 && t[5] != ':') then None
    else
      var h := ParseField(t[0..2], 24);
      var m := ParseField(t[3..5], 60);
      var s := if |t| == 8 then ParseField(t[6..8], 60) else Some(0);
      if h.None? || m.None? || s.None? then None
      else if |t| == 8 then Some(HMS(h.value, m.value, s.value))
      else Some(HM(h.value, m.value))
  }

  /** The label text the startup code measures before the first tick. */
  function Placeholder(showSeconds: bool): (p: string)
    ensures p == FormatTime(0, 0, 0, showSeconds)
  {
    if showSeconds then "00:00:00" else "00:00"
  }

  lemma ParsePad2(n: nat, limit: nat)
    requires n < limit <= 100
    ensures ParseField(Pad2(n), limit) == Some(n)
  {
  }

  /** Formatting then reading back gives the shown fields. */
  lemma ParseFormat(h: nat, m: nat, s: nat, showSeconds: bool)
    requires IsTimeOfDay(h, m, s)
    ensures ParseTime(FormatTime(h, m, s, showSeconds)) ==
            Some(if showSeconds then HMS(h, m, s) else HM(h, m))
  {
    var t := FormatTime(h, m, s, showSeconds);
    assert t[0..2] == Pad2(h) && t[3..5] == Pad2(m);
    ParsePad2(h, 24);
    ParsePad2(m, 60);
    if showSeconds {
      assert t[6..8] == Pad2(s);
      ParsePad2(s, 60);
    }
  }

  lemma FieldText(t: string, limit: nat)
    requires limit <= 100 && ParseField(t, limit).Some?
    ensures Pad2(ParseField(t, limit).value) == t
  {
  }

  /** Every text the reader accepts is the formatting of what it reads. */
  lemma FormatParse(t: string)
    requires ParseTime(t).Some?
    ensures match ParseTime(t)
            case Some(HMS(h, m, s)) => IsTimeOfDay(h, m, s) && FormatTime(h, m, s, true) == t
            case Some(HM(h, m)) => IsTimeOfDay(h, m, 0) && FormatTime(h, m, 0, false) == t
  {
    FieldText(t[0..2], 24);
    FieldText(t[3..5], 60);
    if |t| == 8 {
      FieldText(t[6..8], 60);
      assert t == t[0..2] + ":" + t[3..5] + ":" + t[6..8];
    } else {
      assert t == t[0..2] + ":" + t[3..5];
    }
  }

  /** Two different times of day never show the same text. */
  lemma FormatInjective(h: nat, m: nat, s: nat, h': nat, m': nat, s': nat, showSeconds: bool)
    requires IsTimeOfDay(h, m, s) && IsTimeOfDay(h', m', s')
    requires FormatTime(h, m, s, showSeconds) == FormatTime(h', m', s', showSeconds)
    ensures h == h' && m == m' && (showSeconds ==> s == s')
  {
    ParseFormat(h, m, s, showSeconds);
    ParseFormat(h', m', s', showSeconds);
  }

  /** The measured placeholder has as many characters as every later label text. */
  lemma PlaceholderLength(h: nat, m: nat, s: nat, showSeconds: bool)
    requires IsTimeOfDay(h, m, s)
    ensures |Placeholder(showSeconds)| == |FormatTime(h, m, s, showSeconds)|
  {
  }
}
