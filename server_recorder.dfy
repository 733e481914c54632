/**
 * The stand-alone server recorder: the test its minute tick applies to each
 * configured schedule, the tick itself, and the name of the file a
 * recording is written to.
 */
module ServerRecorder {
  import opened Common
  import opened Strings

  /** One entry of the recorder's configuration list; `time` is "HH:MM", `duration` in seconds. */
  datatype ServerSchedule = ServerSchedule(
    name: string, stationId: string, url: string, time: string, days: seq<int>, duration: int)

  /**
   * The trigger test of the minute tick: the two fields of `time` read with
   * `Number` equal the current hour and minute, and `days` holds the current
   * weekday. Nothing else is consulted: there is no enabled flag and no check
   * for a recording already running.
   */
  predicate Fires(s: ServerSchedule, now: Clock) {
    var f := Split(s.time, ':');
    && |f| >= 2
    && ToNumber(f[0]) == Some(now.hour)
    && ToNumber(f[1]) == Some(now.minute)
    && now.weekday in s.days
  }

  /** The schedules one tick starts, in configuration order. */
  function FiringSchedules(ss: seq<ServerSchedule>, now: Clock): (r: seq<ServerSchedule>)
    ensures |r| <= |ss|
  {
    if ss == [] then []
    else
      var last := ss[|ss| - 1];
      FiringSchedules(ss[..|ss| - 1], now) + (if Fires(last, now) then [last] else [])
  }

  /** A tick starts a configured schedule exactly when that schedule's trigger test holds. */
  lemma {:induction false} FiringSchedulesMembers(ss: seq<ServerSchedule>, now: Clock, s: ServerSchedule)
    ensures s in FiringSchedules(ss, now) <==> s in ss && Fires(s, now)
    decreases |ss|
  {
    if ss != [] {
      var front := ss[..|ss| - 1];
      FiringSchedulesMembers(front, now, s);
      assert ss == front + [ss[|ss| - 1]];
    }
  }

  /**
   * Schedules are tested independently: the schedules a tick starts from a
   * list made of two parts are those it starts from the first part followed
   * by those it starts from the second.
   */
  lemma {:induction false} FiringSchedulesAppend(a: seq<ServerSchedule>, b: seq<ServerSchedule>, now: Clock)
    ensures FiringSchedules(a + b, now) == FiringSchedules(a, now) + FiringSchedules(b, now)
    decreases |b|
  {
    if b != [] {
      var b' := b[..|b| - 1];
      FiringSchedulesAppend(a, b', now);
      assert (a + b)[..|a + b| - 1] == a + b';
    } else {
      assert a + b == a;
    }
  }

  lemma FiringSchedulesStep(ss: seq<ServerSchedule>, i: nat, now: Clock)
    requires i < |ss|
    ensures FiringSchedules(ss[..i + 1], now) == FiringSchedules(ss[..i], now) + (if Fires(ss[i], now) then [ss[i]] else [])
  {
    assert ss[..i + 1][..i] == ss[..i];
  }

  /**
   * One run of the minute tick over the configuration (the `forEach` of
   * `startRecorder`): the schedules handed to `recordStream`, in the order
   * they are handed over.
   */
  method Tick(schedules: seq<ServerSchedule>, now: Clock) returns (started: seq<ServerSchedule>)
    ensures started == FiringSchedules(schedules, now)
  {
    started := [];
    for i := 0 to |schedules|
      invariant started == FiringSchedules(schedules[..i], now)
    {
      var s := schedules[i];
      FiringSchedulesStep(schedules, i, now);
      if Fires(s, now) {
        started := started + [s];
      }
    }
    assert schedules[..|schedules|] == schedules;
  }

  /**
   * For a schedule whose time is two runs of digits joined by ':' ("HH:MM"
   * or unpadded), the tick starts it exactly when the current hour and minute
   * are the values of those runs and the current weekday is listed.
   */
  lemma FiresAtConfiguredTime(s: ServerSchedule, hh: string, mm: string, now: Clock)
    requires 1 <= |hh| && AllDigits(hh) && 1 <= |mm| && AllDigits(mm)
    requires s.time == hh + ":" + mm
    ensures Fires(s, now) <==> now.hour == DigitsValue(hh) && now.minute == DigitsValue(mm) && now.weekday in s.days
  {
    DigitsHaveNoColon(hh);
    DigitsHaveNoColon(mm);
    SplitTime(hh, mm);
    ToNumberOfDigits(hh);
    ToNumberOfDigits(mm);
  }

  /**
   * `Number("")` is 0, so a time with an empty minute field, such as "09:",
   * fires on the hour.
   */
  lemma EmptyMinuteFieldFiresOnTheHour(s: ServerSchedule, hh: string, now: Clock)
    requires 1 <= |hh| && AllDigits(hh)
    requires s.time == hh + ":"
    ensures Fires(s, now) <==> now.hour == DigitsValue(hh) && now.minute == 0 && now.weekday in s.days
  {
    DigitsHaveNoColon(hh);
    assert s.time == hh + ":" + "";
    SplitTime(hh, "");
    ToNumberOfDigits(hh);
  }

  /**
   * `name.replace(/\s+/g, '_')`: every maximal run of white space becomes a
   * single '_'.
   */
  function CollapseWhitespace(s: string): (r: string)
    ensures NoWhitespace(r)
    ensures |r| <= |s|
    decreases |s|
  {
    if s == [] then []
    else if IsWhitespace(s[0]) then "_" + CollapseWhitespace(TrimStart(s))
    else [s[0]] + CollapseWhitespace(s[1..])
  }

  /** A name without white space is left as it is. */
  lemma {:induction false} CollapseWithoutWhitespace(s: string)
    requires NoWhitespace(s)
    ensures CollapseWhitespace(s) == s
    decreases |s|
  {
    if s != [] {
      assert !IsWhitespace(s[0]);
      CollapseWithoutWhitespace(s[1..]);
      assert s == [s[0]] + s[1..];
    }
  }

  /** A non-empty run of white space becomes exactly one '_'. */
  lemma CollapseRun(w: string)
    requires w != [] && forall i :: 0 <= i < |w| ==> IsWhitespace(w[i])
    ensures CollapseWhitespace(w) == "_"
  {
    assert TrimStart(w) == [];
  }

  lemma {:induction false} TrimStartAppend(a: string, b: string)
    requires a != [] && !IsWhitespace(a[|a| - 1])
    ensures TrimStart(a + b) == TrimStart(a) + b
    decreases |a|
  {
    var ab := a + b;
    assert ab[0] == a[0];
    if IsWhitespace(a[0]) {
      assert |a| > 1;
      assert ab[1..] == a[1..] + b;
      TrimStartAppend(a[1..], b);
    }
  }

  lemma ConcatAssoc(x: string, y: string, z: string)
    ensures x + (y + z) == (x + y) + z
  {
  }

  lemma CollapseAppendWhitespaceHead(a: string, b: string)
    requires a != [] && IsWhitespace(a[0]) && !IsWhitespace(a[|a| - 1])
    ensures CollapseWhitespace(a + b) == "_" + CollapseWhitespace(TrimStart(a) + b)
  {
    assert (a + b)[0] == a[0];
    TrimStartAppend(a, b);
  }

  lemma CollapseAppendOtherHead(a: string, b: string)
    requires a != [] && !IsWhitespace(a[0])
    ensures CollapseWhitespace(a + b) == [a[0]] + CollapseWhitespace(a[1..] + b)
  {
    assert (a + b)[0] == a[0] && (a + b)[1..] == a[1..] + b;
  }

  /**
   * The name is collapsed piece by piece: cutting it after a character that
   * is not white space, the two pieces collapse separately.
   */
  lemma {:induction false} CollapseAppend(a: string, b: string)
    requires a == [] || !IsWhitespace(a[|a| - 1])
    ensures CollapseWhitespace(a + b) == CollapseWhitespace(a) + CollapseWhitespace(b)
    decreases |a|
  {
    if a == [] {
      assert a + b == b;
    } else if IsWhitespace(a[0]) {
      var t := TrimStart(a);
      assert t != [] && t[|t| - 1] == a[|a| - 1];
      var ct, cb := CollapseWhitespace(t), CollapseWhitespace(b);
      CollapseAppendWhitespaceHead(a, b);
      CollapseAppend(t, b);
      assert CollapseWhitespace(a) == "_" + ct;
      ConcatAssoc("_", ct, cb);
    } else {
      var rest := a[1..];
      var cr, cb := CollapseWhitespace(rest), CollapseWhitespace(b);
      CollapseAppendOtherHead(a, b);
      CollapseAppend(rest, b);
      assert CollapseWhitespace(a) == [a[0]] + cr;
      ConcatAssoc([a[0]], cr, cb);
    }
  }

  /** The text of `s` once white space and underscores are dropped. */
  function Visible(s: string): string {
    if s == [] then []
    else if IsWhitespace(s[0]) || s[0] == '_' then Visible(s[1..])
    else [s[0]] + Visible(s[1..])
  }

  lemma {:induction false} VisibleAfterTrimStart(s: string)
    ensures Visible(TrimStart(s)) == Visible(s)
    decreases |s|
  {
    if s != [] && IsWhitespace(s[0]) {
      VisibleAfterTrimStart(s[1..]);
    }
  }

  /** Collapsing changes only white space and adds only underscores: the visible text is kept, in order. */
  lemma {:induction false} CollapseKeepsVisibleText(s: string)
    ensures Visible(CollapseWhitespace(s)) == Visible(s)
    decreases |s|
  {
    if s != [] {
      if IsWhitespace(s[0]) {
        var t := TrimStart(s);
        CollapseKeepsVisibleText(t);
        VisibleAfterTrimStart(s);
        assert ("_" + CollapseWhitespace(t))[1..] == CollapseWhitespace(t);
      } else {
        CollapseKeepsVisibleText(s[1..]);
        assert ([s[0]] + CollapseWhitespace(s[1..]))[1..] == CollapseWhitespace(s[1..]);
      }
    }
  }

  /** The timestamp part of a file name: `toISOString()` with every ':' and '.' made '-'. */
  function FileTimestamp(isoTimestamp: string): string {
    ReplaceChars(isoTimestamp, {':', '.'}, '-')
  }

  /** The name `recordStream` writes a recording to, given the moment's `toISOString()`. */
  function RecordingFilename(name: string, isoTimestamp: string): string {
    CollapseWhitespace(name) + "_" + FileTimestamp(isoTimestamp) + ".mp3"
  }

  /**
   * The file name is the collapsed station name, which holds no white space,
   * then '_', then the timestamp, in which every ':' and '.' became '-' and
   * every other character is kept in place, then ".mp3".
   */
  lemma RecordingFilenameShape(name: string, isoTimestamp: string)
    ensures var r := RecordingFilename(name, isoTimestamp);
      var k := |CollapseWhitespace(name)|;
      && |r| == k + 1 + |isoTimestamp| + 4
      && r[..k] == CollapseWhitespace(name) && NoWhitespace(r[..k])
      && r[k] == '_'
      && (forall i :: k < i < |r| - 4 ==> r[i] != ':' && r[i] != '.')
      && (forall i :: 0 <= i < |isoTimestamp| && isoTimestamp[i] != ':' && isoTimestamp[i] != '.' ==>
            r[k + 1 + i] == isoTimestamp[i])
      && (forall i :: 0 <= i < |isoTimestamp| && (isoTimestamp[i] == ':' || isoTimestamp[i] == '.') ==>
            r[k + 1 + i] == '-')
      && r[|r| - 4..] == ".mp3"
  {
    var n := CollapseWhitespace(name);
    var t := FileTimestamp(isoTimestamp);
    var r := RecordingFilename(name, isoTimestamp);
    assert r == n + "_" + t + ".mp3";
    forall i | |n| < i < |r| - 4 ensures r[i] != ':' && r[i] != '.' {
      assert r[i] == t[i - |n| - 1];
    }
  }
}
