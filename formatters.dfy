/**
 * Display helpers of the recorder's web client: the byte-size label for an
 * empty recording, the `H:MM:SS` duration label and the download file name.
 */
module Formatters {
  import opened Common
  import opened Strings

  /**
   * `formatBytes` for the one size whose label is exact: zero gives
   * "0 Bytes". Every other size goes through a floating-point logarithm and
   * rounding, which this model does not describe; those give `None`.
   */
  function FormatBytes(bytes: nat): (r: Option<string>)
    ensures r.Some? <==> bytes == 0
    ensures r.Some? ==> r.value == "0 Bytes"
  {
    if bytes == 0 then Some("0 Bytes") else None
  }

  /** The three fields of a duration label. */
  datatype Parts = Parts(hours: nat, minutes: nat, seconds: nat)

  /** The fields `formatDuration` computes: whole hours, the minutes left over, the seconds left over. */
  function DurationParts(s: nat): (p: Parts)
    ensures p.hours * 3600 + p.minutes * 60 + p.seconds == s
    ensures p.minutes < 60 && p.seconds < 60
  {
    var p := Parts(s / 3600, (s % 3600) / 60, s % 60);
    assert s % 60 == (s % 3600) % 60 by {
      ModOfMod(s);
    }
    p
  }

  lemma ModOfMod(s: nat)
    ensures s % 60 == (s % 3600) % 60
  {
    var q, r := s / 3600, s % 3600;
    assert s == 60 * (60 * q + r / 60) + r % 60;
  }

  /**
   * `formatDuration(s)`: `H:MM:SS` when there is at least one whole hour,
   * otherwise `M:SS`; minutes after an hour field and seconds are padded to
   * two digits.
   */
  function FormatDuration(s: nat): string {
    Label(DurationParts(s))
  }

  /** The label `formatDuration` prints for given fields. */
  function Label(p: Parts): string {
    if p.hours > 0 then
      NatToString(p.hours) + ":" + PadStart(NatToString(p.minutes), 2, '0') + ":" + PadStart(NatToString(p.seconds), 2, '0')
    else
      NatToString(p.minutes) + ":" + PadStart(NatToString(p.seconds), 2, '0')
  }

  /** True when every field is a non-empty run of digits. */
  predicate DigitFields(fields: seq<string>) {
    forall k :: 0 <= k < |fields| ==> 1 <= |fields[k]| && AllDigits(fields[k])
  }

  /** Reads a `M:SS` or `H:MM:SS` label back into seconds: the partner of `FormatDuration`. */
  function ParseDuration(text: string): Option<nat> {
    ParseFields(Split(text, ':'))
  }

  /** The seconds denoted by the fields of a `M:SS` or `H:MM:SS` label. */
  function ParseFields(f: seq<string>): Option<nat> {
    if !DigitFields(f) then None
    else if |f| == 2 then Some(DigitsValue(f[0]) * 60 + DigitsValue(f[1]))
    else if |f| == 3 then Some(DigitsValue(f[0]) * 3600 + DigitsValue(f[1]) * 60 + DigitsValue(f[2]))
    else None
  }

  /** The fields `formatDuration` prints, in order. */
  function PrintedFields(p: Parts): seq<string>
    requires p.minutes < 60 && p.seconds < 60
  {
    if p.hours > 0 then [NatToString(p.hours), TwoDigits(p.minutes), TwoDigits(p.seconds)]
    else [NatToString(p.minutes), TwoDigits(p.seconds)]
  }

  lemma JoinTwo(a: string, b: string)
    ensures Join([a, b], ':') == a + ":" + b
  {
    assert Join([b], ':') == b;
  }

  lemma JoinThree(a: string, b: string, c: string)
    ensures Join([a, b, c], ':') == a + ":" + b + ":" + c
  {
    JoinTwo(b, c);
    assert [a, b, c][1..] == [b, c];
  }

  lemma LabelIsJoin(p: Parts)
    requires p.minutes < 60 && p.seconds < 60
    ensures Label(p) == Join(PrintedFields(p), ':')
  {
    PadTwoDigits(p.minutes);
    PadTwoDigits(p.seconds);
    var h, m, s := NatToString(p.hours), TwoDigits(p.minutes), TwoDigits(p.seconds);
    if p.hours > 0 {
      calc {
        Label(p);
        h + ":" + m + ":" + s;
        { JoinThree(h, m, s); }
        Join([h, m, s], ':');
      }
    } else {
      calc {
        Label(p);
        NatToString(p.minutes) + ":" + s;
        { JoinTwo(NatToString(p.minutes), s); }
        Join([NatToString(p.minutes), s], ':');
      }
    }
  }

  lemma PrintedFieldsAreDigits(p: Parts)
    requires p.minutes < 60 && p.seconds < 60
    ensures DigitFields(PrintedFields(p))
    ensures forall k :: 0 <= k < |PrintedFields(p)| ==> ':' !in PrintedFields(p)[k]
  {
    var fields := PrintedFields(p);
    forall k | 0 <= k < |fields| ensures ':' !in fields[k] {
      DigitsHaveNoColon(fields[k]);
    }
  }

  lemma SplitLabel(p: Parts)
    requires p.minutes < 60 && p.seconds < 60
    ensures Split(Label(p), ':') == PrintedFields(p)
    ensures DigitFields(PrintedFields(p))
  {
    var fields := PrintedFields(p);
    PrintedFieldsAreDigits(p);
    calc {
      Split(Label(p), ':');
      { LabelIsJoin(p); }
      Split(Join(fields, ':'), ':');
      { SplitJoin(fields, ':'); }
      fields;
    }
  }

  /**
   * The label is its fields joined by ':': two fields below one hour (no
   * hours field), three from one hour on, and the seconds field, like the
   * minutes field after an hour field, is exactly two digits.
   */
  lemma FormatDurationShape(s: nat)
    ensures var f := Split(FormatDuration(s), ':');
      && DigitFields(f)
      && (s < 3600 ==> |f| == 2 && f[0] == NatToString(s / 60))
      && (s >= 3600 ==> |f| == 3 && f[0] == NatToString(s / 3600) && |f[1]| == 2)
      && |f[|f| - 1]| == 2
  {
    var p := DurationParts(s);
    SplitLabel(p);
    if s < 3600 {
      assert p.hours == 0;
      assert p.minutes == s / 60;
    }
  }

  lemma ParsePrintedFields(p: Parts)
    requires p.minutes < 60 && p.seconds < 60
    ensures ParseFields(PrintedFields(p)) == Some(p.hours * 3600 + p.minutes * 60 + p.seconds)
  {
    PrintedFieldsAreDigits(p);
  }

  /** Reading a duration label back gives the number of seconds it was made from. */
  lemma FormatDurationRoundTrip(s: nat)
    ensures ParseDuration(FormatDuration(s)) == Some(s)
  {
    var p := DurationParts(s);
    calc {
      ParseDuration(FormatDuration(s));
      ParseFields(Split(Label(p), ':'));
      { SplitLabel(p); }
      ParseFields(PrintedFields(p));
      { ParsePrintedFields(p); }
      Some(p.hours * 3600 + p.minutes * 60 + p.seconds);
      Some(s);
    }
  }

  /** Distinct durations get distinct labels. */
  lemma FormatDurationInjective(a: nat, b: nat)
    requires FormatDuration(a) == FormatDuration(b)
    ensures a == b
  {
    FormatDurationRoundTrip(a);
    FormatDurationRoundTrip(b);
  }

  /** The date part of the download name: the text of `toISOString()` before its first 'T'. */
  function DatePart(isoTimestamp: string): string {
    Split(isoTimestamp, 'T')[0]
  }

  /** The time part of the download name: the text of `toTimeString()` before its first space, each ':' made '-'. */
  function TimePart(localTimeString: string): string {
    ReplaceChars(Split(localTimeString, ' ')[0], {':'}, '-')
  }

  /** `getDownloadFilename(stationName, date)`, given the two renderings of `date` it reads. */
  function GetDownloadFilename(stationName: string, isoTimestamp: string, localTimeString: string): string {
    stationName + "_" + DatePart(isoTimestamp) + "_" + TimePart(localTimeString) + ".mp3"
  }

  /** The first field of a split is the longest separator-free prefix. */
  lemma FirstFieldIsPrefix(s: string, sep: char)
    ensures var f := Split(s, sep)[0];
      sep !in f && f <= s && (|f| < |s| ==> s[|f|] == sep)
  {
  }

  /**
   * The download name is the station name, '_', the date part, '_', the time
   * part and ".mp3"; the date part is the text before the first 'T'; the time
   * part is the text before the first space, of the same length, with every
   * ':' replaced by '-' and nothing else changed, so it holds no ':'.
   */
  lemma DownloadFilenameParts(stationName: string, isoTimestamp: string, localTimeString: string)
    ensures var d := DatePart(isoTimestamp);
      && 'T' !in d && d <= isoTimestamp && (|d| < |isoTimestamp| ==> isoTimestamp[|d|] == 'T')
    ensures var field := Split(localTimeString, ' ')[0];
      var t := TimePart(localTimeString);
      && field <= localTimeString && ' ' !in field && (|field| < |localTimeString| ==> localTimeString[|field|] == ' ')
      && |t| == |field| && ':' !in t
      && (forall i :: 0 <= i < |t| && field[i] != ':' ==> t[i] == field[i])
      && (forall i :: 0 <= i < |t| && field[i] == ':' ==> t[i] == '-')
    ensures var r := GetDownloadFilename(stationName, isoTimestamp, localTimeString);
      && r[..|stationName| + 1] == stationName + "_"
      && r[|r| - 4..] == ".mp3"
  {
    FirstFieldIsPrefix(isoTimestamp, 'T');
    FirstFieldIsPrefix(localTimeString, ' ');
  }
}
