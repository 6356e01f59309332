/** The lidar's file transfers over SFTP: uploading a scan strategy
    (`send_scan`) and downloading the processed data of the current and
    previous hour (`get_file`). The network is not modelled: each step that
    can fail is a parameter saying whether it succeeds, and the result is a
    record of what the function did — connections opened, transfers made,
    whether it closed the client, and how it ended. */
module Transport {
  import opened Wrappers
  import opened Decimal
  import opened Text
  import opened Calendar

  /** Where the lidar reads scan strategies in the two CSM modes. */
  const StaticScanDir: string := "/C:/Lidar/System/Scan parameters/"
  const DynamicScanDir: string := "/C:/Users/End User/DynScan/"

  /** The remote path `send_scan` writes `outFileName` to. */
  function ScanDestination(dynCsm: bool, outFileName: string): string
  {
    (if dynCsm then DynamicScanDir else StaticScanDir) + outFileName
  }

  /** The destination determines both the mode and the remote file name. */
  lemma ScanDestinationInjective(d1: bool, n1: string, d2: bool, n2: string)
    ensures ScanDestination(d1, n1) == ScanDestination(d2, n2) <==> d1 == d2 && n1 == n2
  {
    if ScanDestination(d1, n1) == ScanDestination(d2, n2) {
      assert ScanDestination(d1, n1)[4] == ScanDestination(d2, n2)[4];
      var dir := if d1 then DynamicScanDir else StaticScanDir;
      assert d1 == d2;
      assert n1 == ScanDestination(d1, n1)[|dir|..];
      assert n2 == ScanDestination(d2, n2)[|dir|..];
    }
  }

  datatype Transfer = Put(local: string, remote: string) | Get(remote: string, local: string)

  /** How a call ended: it returned, it returned after reporting that no
      file was found, or an exception escaped it. */
  datatype Ending = Returned | ReportedNotFound | Raised

  /** What one call did. */
  datatype Session = Session(connects: nat, transfers: seq<Transfer>, closed: bool, ending: Ending)

  /** `send_scan`. With no client from the caller it connects (which may
      fail) and owns the connection; it then opens an SFTP session and puts
      the local file at the destination for the mode. `putSucceeds` covers
      both steps: a failure of either is recorded as the attempted put
      followed by an exception. It closes the connection only if it owns it
      and the put returned: an exception leaves it open. */
  function SendScan(fileName: string, outFileName: string, dynCsm: bool,
                    hasClient: bool, connectSucceeds: bool, putSucceeds: bool): (r: Session)
    ensures r.connects == if hasClient then 0 else 1
    ensures r.ending != ReportedNotFound
    ensures r.ending == Returned <==> (hasClient || connectSucceeds) && putSucceeds
    ensures r.closed <==> r.ending == Returned && !hasClient
    ensures (hasClient || connectSucceeds) ==> r.transfers == [Put(fileName, ScanDestination(dynCsm, outFileName))]
    ensures !(hasClient || connectSucceeds) ==> r.transfers == []
  {
    var connects := if hasClient then 0 else 1;
    if !hasClient && !connectSucceeds then Session(connects, [], false, Raised)
    else
      var put := Put(fileName, ScanDestination(dynCsm, outFileName));
      if !putSucceeds then Session(connects, [put], false, Raised)
      else Session(connects, [put], !hasClient, Returned)
  }

  /** A caller's client is never closed, whatever happens. */
  lemma SendScanKeepsCallerClient(fileName: string, outFileName: string, dynCsm: bool,
                                  connectSucceeds: bool, putSucceeds: bool)
    ensures !SendScan(fileName, outFileName, dynCsm, true, connectSucceeds, putSucceeds).closed
    ensures SendScan(fileName, outFileName, dynCsm, true, connectSucceeds, putSucceeds).connects == 0
  {
  }

  // ---------------------------------------------------------------------
  // get_file

  /** `'%d%02d%02d' % (year, month, day)`: the date as the lidar writes it
      in file and directory names. */
  function DayStamp(t: DateTime): string
  {
    FormatInt(t.year) + Pad2(t.month) + Pad2(t.day)
  }

  /** `'%d%02d%02d_%02d' % (year, month, day, hour)`. */
  function HourStamp(t: DateTime): string
  {
    DayStamp(t) + "_" + Pad2(t.hour)
  }

  /** `"/C:/Lidar/Data/Proc/%d/%d%02d/%d%02d%02d/" % (year, year, month, year, month, day)`. */
  function DataDir(t: DateTime): string
  {
    "/C:/Lidar/Data/Proc/" + FormatInt(t.year) + "/" + FormatInt(t.year) + Pad2(t.month) + "/"
      + DayStamp(t) + "/"
  }

  /** Reads a day stamp back from the right: two digits of day, two of
      month, and the year as the rest. */
  function ParseDayStamp(s: string): Option<(int, int, int)>
  {
    if |s| < 5 then None
    else
      var dd := s[|s| - 2..];
      var mm := s[|s| - 4..|s| - 2];
      var yy := s[..|s| - 4];
      if AllDigits(dd) && AllDigits(mm) && AllDigits(yy) then Some((Value(yy), Value(mm), Value(dd)))
      else None
  }

  /** Reads an hour stamp back: a day stamp, '_', two digits of hour. */
  function ParseHourStamp(s: string): Option<(int, int, int, int)>
  {
    if |s| < 3 || s[|s| - 3] != '_' || !AllDigits(s[|s| - 2..]) then None
    else
      var day :- ParseDayStamp(s[..|s| - 3]);
      Some((day.0, day.1, day.2, Value(s[|s| - 2..])))
  }

  /** The day stamp of a datetime is all digits and reads back as its date. */
  lemma ParseDayStampOfDayStamp(t: DateTime)
    requires Valid(t)
    ensures AllDigits(DayStamp(t))
    ensures ParseDayStamp(DayStamp(t)) == Some((t.year, t.month, t.day))
  {
    FormatIntValue(t.year);
    var y := FormatInt(t.year);
    var s := DayStamp(t);
    assert s == y + (Pad2(t.month) + Pad2(t.day));
    assert s[|s| - 2..] == Pad2(t.day);
    assert s[|s| - 4..|s| - 2] == Pad2(t.month);
    assert s[..|s| - 4] == y;
  }

  /** The hour stamp of a datetime reads back as its year, month, day and hour. */
  lemma ParseHourStampOfHourStamp(t: DateTime)
    requires Valid(t)
    ensures ParseHourStamp(HourStamp(t)) == Some((t.year, t.month, t.day, t.hour))
  {
    ParseDayStampOfDayStamp(t);
    var s := HourStamp(t);
    assert s == DayStamp(t) + ("_" + Pad2(t.hour));
    assert s[|s| - 2..] == Pad2(t.hour);
    assert s[..|s| - 3] == DayStamp(t);
  }

  /** Different dates have different day stamps. */
  lemma DayStampInjective(t1: DateTime, t2: DateTime)
    requires Valid(t1) && Valid(t2)
    ensures DayStamp(t1) == DayStamp(t2) <==> (t1.year, t1.month, t1.day) == (t2.year, t2.month, t2.day)
  {
    ParseDayStampOfDayStamp(t1);
    ParseDayStampOfDayStamp(t2);
  }

  /** Different hours have different hour stamps. */
  lemma HourStampInjective(t1: DateTime, t2: DateTime)
    requires Valid(t1) && Valid(t2)
    ensures HourStamp(t1) == HourStamp(t2) <==>
      (t1.year, t1.month, t1.day, t1.hour) == (t2.year, t2.month, t2.day, t2.hour)
  {
    ParseHourStampOfHourStamp(t1);
    ParseHourStampOfHourStamp(t2);
  }

  /** The last component of the day directory is the day stamp. */
  lemma DataDirDay(t: DateTime)
    requires Valid(t)
    ensures var d := DataDir(t);
      |d| > 0 && d[|d| - 1] == '/' && BaseName(d[..|d| - 1]) == DayStamp(t)
  {
    ParseDayStampOfDayStamp(t);
    var day := DayStamp(t);
    var top := "/C:/Lidar/Data/Proc/" + FormatInt(t.year) + "/" + FormatInt(t.year) + Pad2(t.month);
    var d := DataDir(t);
    assert d == top + "/" + day + "/";
    assert d[..|d| - 1] == top + "/" + day;
    BaseNameAfterSlash(top, day);
  }

  /** `time_string in f or time_string_prev in f`. */
  predicate Wanted(name: string, stamp: string, prevStamp: string)
  {
    Contains(name, stamp) || Contains(name, prevStamp)
  }

  /** The download of one listed file: the remote file joined to the
      directory, saved locally under its base name. */
  function Fetch(dir: string, name: string): Transfer
  {
    Get(PathJoin(dir, name), BaseName(name))
  }

  /** `f(x)` for each `x` of `xs` that `keep` accepts, in order. */
  function Select<T, U>(xs: seq<T>, keep: T -> bool, f: T -> U): (r: seq<U>)
    ensures |r| <= |xs|
    ensures forall x :: x in xs && keep(x) ==> f(x) in r
    ensures forall y :: y in r ==> exists x :: x in xs && keep(x) && y == f(x)
    ensures |r| == 0 <==> forall x :: x in xs ==> !keep(x)
  {
    if |xs| == 0 then []
    else
      var rest := Select(xs[1..], keep, f);
      assert forall x :: x in xs[1..] ==> x in xs;
      assert forall x :: x in xs ==> x == xs[0] || x in xs[1..];
      if keep(xs[0]) then [f(xs[0])] + rest else rest
  }

  /** The downloads of the loop over the listing, in listing order. */
  function Downloads(dir: string, names: seq<string>, stamp: string, prevStamp: string): (r: seq<Transfer>)
    ensures |r| <= |names|
    ensures |r| == 0 <==> forall f :: f in names ==> !Wanted(f, stamp, prevStamp)
  {
    Select(names, f => Wanted(f, stamp, prevStamp), f => Fetch(dir, f))
  }

  /** Every wanted file is downloaded, and nothing else is. */
  lemma DownloadsExactly(dir: string, names: seq<string>, stamp: string, prevStamp: string)
    ensures var r := Downloads(dir, names, stamp, prevStamp);
      && (forall f :: f in names && Wanted(f, stamp, prevStamp) ==> Fetch(dir, f) in r)
      && (forall x :: x in r ==> exists f :: f in names && Wanted(f, stamp, prevStamp) && x == Fetch(dir, f))
  {
  }

  /** `get_file`. With no client from the caller it connects (which may
      fail) and owns the connection; it then connects once more in every
      case (which may fail too). It forms the previous hour (OverflowError
      before 0001-01-01T01), lists the directory of the day of `t` through
      `listdir`, the SFTP listing (which may fail), and downloads every
      listed file whose name holds the stamp of the hour of `t` or of the
      hour before, in listing order; a failing
      download ends the call. With no file matched it reports that nothing
      was found. An owned connection is closed when the call returns, and
      left open when an exception escapes. */
  function GetFile(t: DateTime, hasClient: bool, ownConnectSucceeds: bool, connectSucceeds: bool,
                   listdir: string -> Option<seq<string>>, getSucceeds: bool): (r: Session)
    requires Valid(t)
    // A failed first connect ends the call before the second.
    ensures r.connects == if hasClient || !ownConnectSucceeds then 1 else 2
    ensures r.ending != Raised <==>
      ((hasClient || ownConnectSucceeds) && connectSucceeds && PrevHour(t).Some? && listdir(DataDir(t)).Some? &&
       (getSucceeds || forall f :: f in listdir(DataDir(t)).value ==> !Wanted(f, HourStamp(t), HourStamp(PrevHour(t).value))))
    ensures r.closed <==> r.ending != Raised && !hasClient
    ensures r.ending == ReportedNotFound <==> r.ending != Raised && r.transfers == []
    ensures r.ending == ReportedNotFound ==>
      forall f :: f in listdir(DataDir(t)).value ==> !Wanted(f, HourStamp(t), HourStamp(PrevHour(t).value))
    ensures r.ending == Returned ==>
      && (forall f :: f in listdir(DataDir(t)).value && Wanted(f, HourStamp(t), HourStamp(PrevHour(t).value)) ==>
            Fetch(DataDir(t), f) in r.transfers)
      && (forall x :: x in r.transfers ==>
            exists f :: f in listdir(DataDir(t)).value && Wanted(f, HourStamp(t), HourStamp(PrevHour(t).value)) && x == Fetch(DataDir(t), f))
  {
    var connects := if hasClient then 1 else 2;
    if !hasClient && !ownConnectSucceeds then Session(1, [], false, Raised)
    else if !connectSucceeds then Session(connects, [], false, Raised)
    else if PrevHour(t).None? || listdir(DataDir(t)).None? then Session(connects, [], false, Raised)
    else
      var dir := DataDir(t);
      var listing := listdir(dir);
      var wanted := Downloads(dir, listing.value, HourStamp(t), HourStamp(PrevHour(t).value));
      DownloadsExactly(dir, listing.value, HourStamp(t), HourStamp(PrevHour(t).value));
      if |wanted| == 0 then Session(connects, [], !hasClient, ReportedNotFound)
      else if !getSucceeds then Session(connects, wanted[..1], false, Raised)
      else Session(connects, wanted, !hasClient, Returned)
  }

  /** The files are listed by the names the lidar gives them, with no '/';
      each is fetched from the day directory and saved under its own name. */
  lemma FetchListedName(t: DateTime, name: string)
    requires Valid(t) && '/' !in name
    ensures Fetch(DataDir(t), name) == Get(DataDir(t) + name, name)
  {
    var d := DataDir(t);
    DataDirDay(t);
    assert |name| == 0 || name[0] != '/';
    assert PathJoin(d, name) == d + name;
    BaseNameOfName(name);
  }

  /** Files of the previous hour are looked for only in the directory of the
      day of `t`: at hour 0 the previous hour is 23 on the previous date,
      whose files live in another day directory, which is not listed. */
  lemma MidnightLooksInWrongDay(t: DateTime)
    requires Valid(t) && t.hour == 0 && PrevHour(t).Some?
    ensures var q := PrevHour(t).value;
      && q.hour == 23
      && DayStamp(q) != DayStamp(t)
      && DataDir(q) != DataDir(t)
  {
    var q := PrevHour(t).value;
    PrevHourAtMidnight(t);
    DayStampInjective(q, t);
    DataDirDay(q);
    DataDirDay(t);
  }
}
