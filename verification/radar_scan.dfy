/** Choosing the NEXRAD level-2 scan nearest a requested time: the keys
    listed under the requested day's and the previous day's prefixes of the
    public bucket are parsed for their scan times, and the first key whose
    time is closest to the request wins. The bucket listing is a parameter. */
module RadarScan {
  import opened Wrappers
  import opened Decimal
  import opened Text
  import opened Numeric
  import opened Calendar

  /** The radar the keys are read for; the caller's `radar` argument is
      overwritten with it. */
  const Radar: string := "KLOT"

  const Bucket: string := "s3://noaa-nexrad-level2/"

  // ---------------------------------------------------------------------
  // Prefixes and the local directory

  /** `f'{year}/{month:02d}/{day:02d}/{radar}'`. */
  function DayPrefix(t: DateTime): string {
    FormatInt(t.year) + "/" + Pad2(t.month) + "/" + Pad2(t.day) + "/" + Radar
  }

  /** Reads a day prefix back into year, month and day. */
  function ParseDayPrefix(s: string): Option<(int, int, int)> {
    var parts := Split(s, '/');
    if |parts| == 4 && parts[3] == Radar && AllDigits(parts[0])
       && |parts[1]| == 2 && AllDigits(parts[1]) && |parts[2]| == 2 && AllDigits(parts[2])
    then Some((Value(parts[0]), Value(parts[1]), Value(parts[2])))
    else None
  }

  lemma DigitsHaveNoSlash(s: string)
    requires AllDigits(s)
    ensures '/' !in s
  {
  }

  /** A day prefix reads back as the date it was built from. */
  lemma ParseDayPrefixOfDayPrefix(t: DateTime)
    requires Valid(t)
    ensures ParseDayPrefix(DayPrefix(t)) == Some((t.year, t.month, t.day))
  {
    var parts := [FormatInt(t.year), Pad2(t.month), Pad2(t.day), Radar];
    FormatIntValue(t.year);
    DigitsHaveNoSlash(parts[0]);
    DigitsHaveNoSlash(parts[1]);
    DigitsHaveNoSlash(parts[2]);
    assert Join(parts[3..], '/') == Radar;
    assert Join(parts[2..], '/') == parts[2] + "/" + Radar;
    assert Join(parts[1..], '/') == parts[1] + "/" + (parts[2] + "/" + Radar);
    assert DayPrefix(t) == Join(parts, '/');
    SplitJoin(parts, '/');
  }

  /** Different days have different prefixes. */
  lemma DayPrefixInjective(t1: DateTime, t2: DateTime)
    requires Valid(t1) && Valid(t2)
    ensures DayPrefix(t1) == DayPrefix(t2) <==> (t1.year, t1.month, t1.day) == (t2.year, t2.month, t2.day)
  {
    ParseDayPrefixOfDayPrefix(t1);
    ParseDayPrefixOfDayPrefix(t2);
  }

  /** `f'{year}/{year}{month:02d}{day}/'`, the directory the scan would be
      saved under: the month is padded but the day is not. */
  function OutDir(t: DateTime): string {
    FormatInt(t.year) + "/" + FormatInt(t.year) + Pad2(t.month) + FormatInt(t.day) + "/"
  }

  /** On days 1 to 9 the directory name carries a one-digit day, so it is
      not the eight-character `YYYYmmdd` stamp used for day directories
      elsewhere: it is one character shorter. */
  lemma OutDirDayUnpadded(t: DateTime)
    requires Valid(t) && t.day < 10
    ensures |OutDir(t)| == 2 * |FormatInt(t.year)| + 5
    ensures OutDir(t)[|OutDir(t)| - 2] == DigitChar(t.day)
    ensures OutDir(t) != FormatInt(t.year) + "/" + FormatInt(t.year) + Pad2(t.month) + Pad2(t.day) + "/"
  {
    assert FormatInt(t.day) == [DigitChar(t.day)];
  }

  // ---------------------------------------------------------------------
  // Key names

  /** `%Y%m%d_%H%M%S` with every field at its full width. */
  function FormatStamp(t: DateTime): (s: string)
    requires Valid(t)
    ensures |s| == 15
  {
    FixedDigits(t.year, 4) + FixedDigits(t.month, 2) + FixedDigits(t.day, 2) + "_"
      + FixedDigits(t.hour, 2) + FixedDigits(t.minute, 2) + FixedDigits(t.second, 2)
  }

  /** `strptime` of `%Y%m%d_%H%M%S` on a fifteen-character stamp; None
      where it raises ValueError (a non-digit or a date `datetime` rejects). */
  function ParseStamp(s: string): (r: Option<DateTime>)
    ensures r.Some? ==> Valid(r.value)
  {
    if |s| == 15 && s[8] == '_'
       && AllDigits(s[..4]) && AllDigits(s[4..6]) && AllDigits(s[6..8])
       && AllDigits(s[9..11]) && AllDigits(s[11..13]) && AllDigits(s[13..])
    then
      var t := DateTime(Value(s[..4]), Value(s[4..6]), Value(s[6..8]),
                        Value(s[9..11]), Value(s[11..13]), Value(s[13..]));
      if Valid(t) then Some(t) else None
    else None
  }

  /** A formatted stamp parses back to its datetime. */
  lemma ParseStampOfFormatStamp(t: DateTime)
    requires Valid(t)
    ensures ParseStamp(FormatStamp(t)) == Some(t)
  {
    var s := FormatStamp(t);
    assert Pow10(2) == 100;
    assert Pow10(4) == 10000;
    ValueOfFixedDigits(t.year, 4);
    ValueOfFixedDigits(t.month, 2);
    ValueOfFixedDigits(t.day, 2);
    ValueOfFixedDigits(t.hour, 2);
    ValueOfFixedDigits(t.minute, 2);
    ValueOfFixedDigits(t.second, 2);
    assert s[..4] == FixedDigits(t.year, 4);
    assert s[4..6] == FixedDigits(t.month, 2);
    assert s[6..8] == FixedDigits(t.day, 2);
    assert s[9..11] == FixedDigits(t.hour, 2);
    assert s[11..13] == FixedDigits(t.minute, 2);
    assert s[13..] == FixedDigits(t.second, 2);
  }

  function Suffix(mdm: bool): string {
    if mdm then "_V06_MDM" else "_V06"
  }

  /** The name of a scan: the radar, the stamp and the format suffix. */
  function KeyName(t: DateTime, mdm: bool): string
    requires Valid(t)
  {
    Radar + FormatStamp(t) + Suffix(mdm)
  }

  /** `name[-3:] == "MDM"`. */
  predicate EndsInMdm(name: string) {
    |name| >= 3 && name[|name| - 3..] == "MDM"
  }

  /** `strptime(name, radar + "%Y%m%d_%H%M%S" + suffix)`. */
  function ParseName(name: string, suffix: string): (r: Option<DateTime>)
    ensures r.Some? ==> Valid(r.value)
  {
    if |name| == 19 + |suffix| && name[..4] == Radar && name[19..] == suffix
    then ParseStamp(name[4..19])
    else None
  }

  /** The scan time of a bucket key: the part after the last '/', read with
      the `_V06_MDM` format when it ends in "MDM" and the `_V06` format
      otherwise; None where `strptime` raises. */
  function ParseKeyTime(key: string): (r: Option<DateTime>)
    ensures r.Some? ==> Valid(r.value)
  {
    var name := BaseName(key);
    ParseName(name, Suffix(EndsInMdm(name)))
  }

  /** A stamp holds only digits and one '_'. */
  lemma StampHasNoSlash(t: DateTime)
    requires Valid(t)
    ensures '/' !in FormatStamp(t)
  {
    var a := FixedDigits(t.year, 4) + FixedDigits(t.month, 2) + FixedDigits(t.day, 2);
    var b := FixedDigits(t.hour, 2) + FixedDigits(t.minute, 2) + FixedDigits(t.second, 2);
    assert AllDigits(a) && AllDigits(b);
    assert FormatStamp(t) == a + "_" + b;
  }

  /** A key name splits into the radar, the stamp and the suffix. */
  lemma KeyNameParts(t: DateTime, mdm: bool)
    requires Valid(t)
    ensures var name := KeyName(t, mdm);
      && |name| == 19 + |Suffix(mdm)|
      && name[..4] == Radar && name[4..19] == FormatStamp(t) && name[19..] == Suffix(mdm)
      && '/' !in name
      && EndsInMdm(name) == mdm
  {
    var name := KeyName(t, mdm);
    StampHasNoSlash(t);
    assert name[|name| - 3..] == Suffix(mdm)[|Suffix(mdm)| - 3..];
  }

  /** Every scan key, in either format and under any directory, parses back
      to its scan time. */
  lemma ParseKeyTimeOfKeyName(dir: string, t: DateTime, mdm: bool)
    requires Valid(t)
    ensures ParseKeyTime(dir + "/" + KeyName(t, mdm)) == Some(t)
  {
    KeyNameParts(t, mdm);
    BaseNameAfterSlash(dir, KeyName(t, mdm));
    ParseStampOfFormatStamp(t);
  }

  // ---------------------------------------------------------------------
  // Selecting the scan

  datatype RadarError =
    | OverflowError  // the day before 0001-01-01
    | KeyError       // a listing with no 'Contents'
    | ValueError     // a key strptime rejects

  datatype Scan = Scan(time: DateTime, path: string)

  /** The keys to choose from: the requested day's listing followed by the
      previous day's. An empty listing has no 'Contents' and raises KeyError. */
  function Candidates(now: DateTime, listObjects: string -> seq<string>): (r: Result<seq<string>, RadarError>)
    requires Valid(now)
    ensures r == Failure(OverflowError) <==> PrevDay(now).None?
    ensures r == Failure(KeyError) <==>
      && PrevDay(now).Some?
      && (|listObjects(DayPrefix(now))| == 0 || |listObjects(DayPrefix(PrevDay(now).value))| == 0)
    ensures r.Success? <==>
      && PrevDay(now).Some?
      && |listObjects(DayPrefix(now))| > 0
      && |listObjects(DayPrefix(PrevDay(now).value))| > 0
    ensures r.Success? ==>
      var today := listObjects(DayPrefix(now));
      && |today| <= |r.value|
      && r.value[..|today|] == today
      && r.value[|today|..] == listObjects(DayPrefix(PrevDay(now).value))
  {
    var yesterday :- match PrevDay(now) case Some(d) => Success(d) case None => Failure(OverflowError);
    var today := listObjects(DayPrefix(now));
    if |today| == 0 then Failure(KeyError)
    else
      var before := listObjects(DayPrefix(yesterday));
      if |before| == 0 then Failure(KeyError)
      else Success(today + before)
  }

  /** The two prefixes listed name the requested day and the day before it,
      86400 seconds earlier. */
  lemma CandidatePrefixes(now: DateTime)
    requires Valid(now) && PrevDay(now).Some?
    ensures var y := PrevDay(now).value;
      && ParseDayPrefix(DayPrefix(now)) == Some((now.year, now.month, now.day))
      && ParseDayPrefix(DayPrefix(y)) == Some((y.year, y.month, y.day))
      && Seconds(y) == Seconds(now) - 86400
  {
    ParseDayPrefixOfDayPrefix(now);
    ParseDayPrefixOfDayPrefix(PrevDay(now).value);
  }

  /** `[f(x) for x in xs]` when every `f(x)` has a value, or None when one
      of them has none. */
  function MapAll<T, U>(xs: seq<T>, f: T -> Option<U>): (r: Option<seq<U>>)
    ensures r.Some? <==> forall i :: 0 <= i < |xs| ==> f(xs[i]).Some?
    ensures r.Some? ==> |r.value| == |xs| && forall i :: 0 <= i < |xs| ==> f(xs[i]) == Some(r.value[i])
  {
    if |xs| == 0 then Some([])
    else
      var rest := MapAll(xs[1..], f);
      if f(xs[0]).None? then None
      else if rest.None? then
        var i :| 0 <= i < |xs[1..]| && f(xs[1..][i]).None?;
        assert f(xs[i + 1]).None?;
        None
      else
        var vs := [f(xs[0]).value] + rest.value;
        assert forall i :: 1 <= i < |xs| ==> xs[i] == xs[1..][i - 1] && vs[i] == rest.value[i - 1];
        Some(vs)
  }

  /** The scan times of all keys, or None when one of them does not parse. */
  function ParseAll(keys: seq<string>): (r: Option<seq<DateTime>>)
    ensures r.Some? <==> forall i :: 0 <= i < |keys| ==> ParseKeyTime(keys[i]).Some?
    ensures r.Some? ==> |r.value| == |keys|
    ensures r.Some? ==> forall i :: 0 <= i < |keys| ==> ParseKeyTime(keys[i]) == Some(r.value[i])
    ensures r.Some? ==> forall i :: 0 <= i < |r.value| ==> Valid(r.value[i])
  {
    MapAll(keys, ParseKeyTime)
  }

  /** `abs(time - right_now)` in seconds. */
  function Gap(t: DateTime, now: DateTime): real
    requires Valid(t) && Valid(now)
  {
    Abs((Seconds(t) - Seconds(now)) as real)
  }

  /** Time `k` is the first of `ts` nearest `now` (numpy's `argmin` over
      the gaps). */
  predicate FirstNearest(ts: seq<DateTime>, k: int, now: DateTime)
    requires Valid(now) && forall i :: 0 <= i < |ts| ==> Valid(ts[i])
  {
    && 0 <= k < |ts|
    && (forall j :: 0 <= j < |ts| ==> Gap(ts[k], now) <= Gap(ts[j], now))
    && (forall j :: 0 <= j < k ==> Gap(ts[k], now) < Gap(ts[j], now))
  }

  /** `np.argmin(np.abs(time_list - right_now))`. */
  function NearestTime(ts: seq<DateTime>, now: DateTime): (k: nat)
    requires Valid(now) && |ts| > 0 && forall i :: 0 <= i < |ts| ==> Valid(ts[i])
    ensures FirstNearest(ts, k, now)
  {
    var g := seq(|ts|, i requires 0 <= i < |ts| => Gap(ts[i], now));
    var k := FirstArgMin(g);
    assert forall j :: 0 <= j < |ts| ==> g[j] == Gap(ts[j], now);
    k
  }

  /** `preprocess_radar_image`'s scan choice. `radar` is ignored, and
      `listObjects(prefix)` stands for the bucket listing's keys. */
  function ChooseScan(radar: string, now: DateTime, listObjects: string -> seq<string>): (r: Result<Scan, RadarError>)
    requires Valid(now)
    ensures r.Failure? && r.error != ValueError ==> Candidates(now, listObjects) == Failure(r.error)
    ensures r == Failure(ValueError) <==>
      Candidates(now, listObjects).Success? && ParseAll(Candidates(now, listObjects).value).None?
    // The time and the path come from the same key, the first one whose
    // time is nearest the request.
    ensures r.Success? ==>
      && Candidates(now, listObjects).Success?
      && ParseAll(Candidates(now, listObjects).value).Some?
      && exists k :: FirstNearest(ParseAll(Candidates(now, listObjects).value).value, k, now)
           && r.value.path == Bucket + Candidates(now, listObjects).value[k]
           && ParseKeyTime(Candidates(now, listObjects).value[k]) == Some(r.value.time)
  {
    var keys :- Candidates(now, listObjects);
    match ParseAll(keys)
    case None => Failure(ValueError)
    case Some(ts) =>
      var k := NearestTime(ts, now);
      Success(Scan(ts[k], Bucket + keys[k]))
  }

  /** The choice fails with ValueError exactly when both listings are
      there and one of their keys does not parse. */
  lemma ChooseScanValueError(now: DateTime, listObjects: string -> seq<string>, radar: string)
    requires Valid(now)
    ensures ChooseScan(radar, now, listObjects) == Failure(ValueError) <==>
      && Candidates(now, listObjects).Success?
      && exists i :: 0 <= i < |Candidates(now, listObjects).value|
                     && ParseKeyTime(Candidates(now, listObjects).value[i]).None?
  {
  }

  /** The radar argument has no effect. */
  lemma RadarArgumentIgnored(r1: string, r2: string, now: DateTime, listObjects: string -> seq<string>)
    requires Valid(now)
    ensures ChooseScan(r1, now, listObjects) == ChooseScan(r2, now, listObjects)
  {
  }

  /** One unreadable key, today's or yesterday's, makes the whole choice
      fail, however close the other scans are. */
  lemma UnreadableKeyFails(now: DateTime, listObjects: string -> seq<string>, bad: string)
    requires Valid(now) && PrevDay(now).Some?
    requires ParseKeyTime(bad).None?
    requires bad in listObjects(DayPrefix(PrevDay(now).value))
    requires |listObjects(DayPrefix(now))| > 0
    ensures ChooseScan(Radar, now, listObjects) == Failure(ValueError)
  {
    var keys := Candidates(now, listObjects).value;
    var today := listObjects(DayPrefix(now));
    var i :| 0 <= i < |listObjects(DayPrefix(PrevDay(now).value))| && listObjects(DayPrefix(PrevDay(now).value))[i] == bad;
    assert keys[|today| + i] == bad;
  }
}
