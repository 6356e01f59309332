/** The CSM scan-strategy file `make_scan_file` writes for a Halo Photonics
    Doppler lidar: an optional three-line header, then one motion line and one
    wait line per (elevation, azimuth) pair, every line ending in CR LF. */
module ScanFile {
  import opened Wrappers
  import opened Decimal
  import Numeric

  const CRLF: string := "\r\n"

  /** Encoder ticks per full rotation of one axis (the source's
      `AZ_COUNTS_PER_ROT` and `EL_COUNTS_PER_ROT`, which it never defines). */
  type Counts = c: int | c > 0 witness 1

  /** The arguments of `make_scan_file`, with the two rotation constants. */
  datatype ScanRequest = ScanRequest(
    elevations: seq<real>,
    azimuths: seq<real>,
    aziSpeed: real,
    elSpeed: real,
    wait: int,
    acceleration: int,
    repeat: int,
    raysPerPoint: int,
    dynCsm: bool,
    azCounts: Counts,
    elCounts: Counts)

  /** A request with the keyword defaults of `make_scan_file`. */
  function DefaultRequest(elevations: seq<real>, azimuths: seq<real>, azCounts: Counts, elCounts: Counts): ScanRequest
  {
    ScanRequest(elevations, azimuths, 1.0, 0.1, 0, 30, 7, 2, false, azCounts, elCounts)
  }

  /** One motion command: acceleration, speed and target position of axis 1
      (azimuth) and axis 2 (elevation), in encoder ticks. */
  datatype Motion = Motion(azAccel: int, azSpeed: int, azPosition: int, elAccel: int, elSpeed: int, elPosition: int)

  /** `int(degrees * (counts / 360.))`: degrees to ticks, truncated toward zero. */
  function Ticks(degrees: real, counts: Counts): int
  {
    Numeric.Trunc(degrees * (counts as real / 360.0))
  }

  /** The command for one point: both speeds are converted once and are not
      negated; both target angles are converted and then negated. */
  function MotionAt(p: ScanRequest, el: real, az: real): Motion
  {
    Motion(p.acceleration, Ticks(p.aziSpeed, p.azCounts), -Ticks(az, p.azCounts),
           p.acceleration, Ticks(p.elSpeed, p.elCounts), -Ticks(el, p.elCounts))
  }

  /** The line ends in carriage return, line feed. */
  predicate EndsInCrlf(line: string) {
    |line| >= 2 && line[|line| - 2] == '\r' && line[|line| - 1] == '\n'
  }

  /** `lit` and `n` written with `%d`, followed by `rest`. */
  function Emit(lit: string, n: int, rest: string): string
  {
    lit + FormatInt(n) + rest
  }

  lemma EmitKeepsCrlf(lit: string, n: int, rest: string)
    requires EndsInCrlf(rest)
    ensures EndsInCrlf(Emit(lit, n, rest))
  {
    var head := lit + FormatInt(n);
    assert Emit(lit, n, rest) == head + rest;
    assert (head + rest)[|head| + |rest| - 1] == rest[|rest| - 1];
    assert (head + rest)[|head| + |rest| - 2] == rest[|rest| - 2];
  }

  lemma EmitStart(lit: string, n: int, rest: string)
    requires |lit| > 0
    ensures |Emit(lit, n, rest)| > 0 && Emit(lit, n, rest)[0] == lit[0]
  {
  }

  /** `"A.1=%d,S.1=%d,P.1=%d*A.2=%d,S.2=%d,P.2=%d\r\n"` */
  function MotionLine(m: Motion): string
  {
    Emit("A.1=", m.azAccel, Emit(",S.1=", m.azSpeed, Emit(",P.1=", m.azPosition,
      Emit("*A.2=", m.elAccel, Emit(",S.2=", m.elSpeed, Emit(",P.2=", m.elPosition, CRLF))))))
  }

  lemma MotionLineEndsInCrlf(m: Motion)
    ensures EndsInCrlf(MotionLine(m))
  {
    var t6 := Emit(",P.2=", m.elPosition, CRLF);
    var t5 := Emit(",S.2=", m.elSpeed, t6);
    var t4 := Emit("*A.2=", m.elAccel, t5);
    var t3 := Emit(",P.1=", m.azPosition, t4);
    var t2 := Emit(",S.1=", m.azSpeed, t3);
    EmitKeepsCrlf(",P.2=", m.elPosition, CRLF);
    EmitKeepsCrlf(",S.2=", m.elSpeed, t6);
    EmitKeepsCrlf("*A.2=", m.elAccel, t5);
    EmitKeepsCrlf(",P.1=", m.azPosition, t4);
    EmitKeepsCrlf(",S.1=", m.azSpeed, t3);
    EmitKeepsCrlf("A.1=", m.azAccel, t2);
  }

  /** `'W%d\r\n' % wait` */
  function WaitLine(w: int): (line: string)
    ensures EndsInCrlf(line)
  {
    EmitKeepsCrlf("W", w, CRLF);
    Emit("W", w, CRLF)
  }

  /** `'%d\r\n' % n`, the form of the three header lines. */
  function CountLine(n: int): (line: string)
    ensures EndsInCrlf(line)
  {
    FormatInt(n) + CRLF
  }

  // ---------------------------------------------------------------------
  // Reading lines back

  /** Reads `<lit><integer>` from the front of `s`, giving the integer and the rest. */
  function Take(lit: string, s: string): Option<(int, string)>
  {
    if lit <= s then TakeInt(s[|lit|..]) else None
  }

  function ParseMotionLine(line: string): Option<Motion>
  {
    var f1 :- Take("A.1=", line);
    var f2 :- Take(",S.1=", f1.1);
    var f3 :- Take(",P.1=", f2.1);
    var f4 :- Take("*A.2=", f3.1);
    var f5 :- Take(",S.2=", f4.1);
    var f6 :- Take(",P.2=", f5.1);
    if f6.1 == CRLF then Some(Motion(f1.0, f2.0, f3.0, f4.0, f5.0, f6.0)) else None
  }

  function ParseWaitLine(line: string): Option<int>
  {
    var f :- Take("W", line);
    if f.1 == CRLF then Some(f.0) else None
  }

  function ParseCountLine(line: string): Option<int>
  {
    var f :- TakeInt(line);
    if f.1 == CRLF then Some(f.0) else None
  }

  lemma TakeEmit(lit: string, n: int, rest: string)
    requires |lit| > 0
    requires |rest| == 0 || !IsDigit(rest[0])
    ensures Take(lit, Emit(lit, n, rest)) == Some((n, rest))
  {
    var s := Emit(lit, n, rest);
    assert lit <= s;
    assert s[|lit|..] == FormatInt(n) + rest;
    TakeFormatInt(n, rest);
  }

  /** A motion line reads back as the command it was written from. */
  lemma ParseMotionLineOfMotionLine(m: Motion)
    ensures ParseMotionLine(MotionLine(m)) == Some(m)
  {
    var t6 := Emit(",P.2=", m.elPosition, CRLF);
    var t5 := Emit(",S.2=", m.elSpeed, t6);
    var t4 := Emit("*A.2=", m.elAccel, t5);
    var t3 := Emit(",P.1=", m.azPosition, t4);
    var t2 := Emit(",S.1=", m.azSpeed, t3);
    EmitStart(",P.2=", m.elPosition, CRLF);
    EmitStart(",S.2=", m.elSpeed, t6);
    EmitStart("*A.2=", m.elAccel, t5);
    EmitStart(",P.1=", m.azPosition, t4);
    EmitStart(",S.1=", m.azSpeed, t3);
    TakeEmit("A.1=", m.azAccel, t2);
    TakeEmit(",S.1=", m.azSpeed, t3);
    TakeEmit(",P.1=", m.azPosition, t4);
    TakeEmit("*A.2=", m.elAccel, t5);
    TakeEmit(",S.2=", m.elSpeed, t6);
    TakeEmit(",P.2=", m.elPosition, CRLF);
  }

  lemma ParseWaitLineOfWaitLine(w: int)
    ensures ParseWaitLine(WaitLine(w)) == Some(w)
  {
    TakeEmit("W", w, CRLF);
  }

  lemma ParseCountLineOfCountLine(n: int)
    ensures ParseCountLine(CountLine(n)) == Some(n)
  {
    TakeFormatInt(n, CRLF);
  }

  // ---------------------------------------------------------------------
  // Lines as commands

  /** What one line of the file says. */
  datatype Command = Move(motion: Motion) | Pause(wait: int) | Count(count: int)

  /** The text of one line. */
  function Render(c: Command): string
  {
    match c
    case Move(m) => MotionLine(m)
    case Pause(w) => WaitLine(w)
    case Count(n) => CountLine(n)
  }

  /** Reads one line: a motion line starts with `A`, a wait line with `W`,
      and anything else is read as a count. */
  function ParseCommand(line: string): Option<Command>
  {
    if |line| > 0 && line[0] == 'A' then
      var m :- ParseMotionLine(line);
      Some(Move(m))
    else if |line| > 0 && line[0] == 'W' then
      var w :- ParseWaitLine(line);
      Some(Pause(w))
    else
      var n :- ParseCountLine(line);
      Some(Count(n))
  }

  /** Every line reads back as the command it was written from. */
  lemma ParseRender(c: Command)
    ensures ParseCommand(Render(c)) == Some(c)
  {
    match c
    case Move(m) =>
      ParseMotionLineOfMotionLine(m);
      EmitStart("A.1=", m.azAccel, Render(c)[|"A.1=" + FormatInt(m.azAccel)|..]);
    case Pause(w) =>
      ParseWaitLineOfWaitLine(w);
    case Count(n) =>
      ParseCountLineOfCountLine(n);
      assert Render(c)[0] == FormatInt(n)[0];
  }

  /** Every line ends in CR LF. */
  lemma RenderEndsInCrlf(c: Command)
    ensures EndsInCrlf(Render(c))
  {
    if c.Move? {
      MotionLineEndsInCrlf(c.motion);
    }
  }

  /** The lines of the file, one per command. */
  function RenderAll(cs: seq<Command>): (lines: seq<string>)
    ensures |lines| == |cs|
    ensures forall k :: 0 <= k < |cs| ==> lines[k] == Render(cs[k])
  {
    seq(|cs|, k requires 0 <= k < |cs| => Render(cs[k]))
  }

  // ---------------------------------------------------------------------
  // The encoder as written

  /** Python's `~x` on an int. The source flips its boolean `clockwise` flag
      with it: `~True` is -2 and `~-2` is 1, both truthy. */
  function BitNot(x: int): int
  {
    -x - 1
  }

  /** `azimuths.reverse()` returns None, and iterating None raises TypeError. */
  datatype ScanError = ReversedNone

  /** `n` copies of `x`. */
  function Copies<T>(n: nat, x: T): (r: seq<T>)
    ensures |r| == n
    ensures forall i :: 0 <= i < n ==> r[i] == x
  {
    seq(n, _ => x)
  }

  /** The azimuth order the outer loop uses for each of `n` elevations: the
      azimuths as given while `flag` is truthy (non-zero), the failing reverse
      branch otherwise; the flag is flipped with `~` after every elevation. */
  function AzimuthOrders(n: nat, azimuths: seq<real>, flag: int): (r: Result<seq<seq<real>>, ScanError>)
    ensures r.Success? ==> |r.value| == n
  {
    if n == 0 then Success([])
    else if flag == 0 then Failure(ReversedNone)
    else
      var rest :- AzimuthOrders(n - 1, azimuths, BitNot(flag));
      Success([azimuths] + rest)
  }

  /** What the inner loop writes for one elevation: a motion command and a
      wait per azimuth, in the given order. */
  function Block(p: ScanRequest, el: real, order: seq<real>): (cs: seq<Command>)
    ensures |cs| == 2 * |order|
  {
    if |order| == 0 then []
    else [Move(MotionAt(p, el, order[0])), Pause(p.wait)] + Block(p, el, order[1..])
  }

  /** The body: one block per elevation, elevations outermost. */
  function Body(p: ScanRequest, elevations: seq<real>, orders: seq<seq<real>>): seq<Command>
    requires |orders| == |elevations|
  {
    if |elevations| == 0 then []
    else Block(p, elevations[0], orders[0]) + Body(p, elevations[1..], orders[1..])
  }

  /** The static-mode header: repeat count, number of points, rays per point. */
  function Header(p: ScanRequest): seq<Command>
  {
    if p.dynCsm then []
    else [Count(p.repeat), Count(|p.azimuths| * |p.elevations|), Count(p.raysPerPoint)]
  }

  /** The commands `make_scan_file` writes, in order. */
  function Commands(p: ScanRequest): Result<seq<Command>, ScanError>
  {
    var orders :- AzimuthOrders(|p.elevations|, p.azimuths, 1);
    Success(Header(p) + Body(p, p.elevations, orders))
  }

  /** `make_scan_file`: the lines it writes, in order. */
  function MakeScanFile(p: ScanRequest): Result<seq<string>, ScanError>
  {
    var cs :- Commands(p);
    Success(RenderAll(cs))
  }

  // ---------------------------------------------------------------------
  // Properties

  /** The flag starts as True (1) and `~` keeps it among {1, -2}, so the
      reverse branch never runs: every elevation uses the azimuths as given. */
  lemma {:induction false} AzimuthOrdersNeverReverse(n: nat, azimuths: seq<real>, flag: int)
    requires flag == 1 || flag == -2
    ensures AzimuthOrders(n, azimuths, flag) == Success(Copies(n, azimuths))
  {
    if n > 0 {
      AzimuthOrdersNeverReverse(n - 1, azimuths, BitNot(flag));
      assert [azimuths] + Copies(n - 1, azimuths) == Copies(n, azimuths);
    }
  }

  /** The commands as written are the header followed by one unreversed block per elevation. */
  lemma CommandsUnfold(p: ScanRequest)
    ensures Commands(p) == Success(Header(p) + Body(p, p.elevations, Copies(|p.elevations|, p.azimuths)))
  {
    AzimuthOrdersNeverReverse(|p.elevations|, p.azimuths, 1);
  }

  /** Commands 2j and 2j+1 of a block are the motion for the j-th azimuth of
      the order and the wait. */
  lemma {:induction false} BlockAt(p: ScanRequest, el: real, order: seq<real>, j: nat)
    requires j < |order|
    ensures Block(p, el, order)[2 * j] == Move(MotionAt(p, el, order[j]))
    ensures Block(p, el, order)[2 * j + 1] == Pause(p.wait)
  {
    if j > 0 {
      BlockAt(p, el, order[1..], j - 1);
      assert order[1..][j - 1] == order[j];
    }
  }

  lemma Distribute(m: nat, i: nat)
    requires i >= 1
    ensures 2 * m * i == 2 * m + 2 * m * (i - 1)
  {
  }

  lemma SliceOfAppend<T>(a: seq<T>, b: seq<T>, lo: nat, hi: nat)
    requires |a| <= lo <= hi <= |a| + |b|
    ensures (a + b)[lo..hi] == b[lo - |a|..hi - |a|]
  {
  }

  /** With every order of length m, commands 2·m·i up to 2·m·(i+1) of the
      body are the block of elevation i. */
  lemma {:induction false} BodyBlock(p: ScanRequest, elevations: seq<real>, orders: seq<seq<real>>, m: nat, i: nat)
    requires |orders| == |elevations|
    requires forall k :: 0 <= k < |orders| ==> |orders[k]| == m
    requires i < |elevations|
    ensures 2 * m * i + 2 * m <= |Body(p, elevations, orders)|
    ensures Body(p, elevations, orders)[2 * m * i .. 2 * m * i + 2 * m] == Block(p, elevations[i], orders[i])
  {
    var b := Block(p, elevations[0], orders[0]);
    var rest := Body(p, elevations[1..], orders[1..]);
    assert Body(p, elevations, orders) == b + rest;
    if i == 0 {
      assert (b + rest)[0..2 * m] == b;
    } else {
      assert forall k :: 0 <= k < |orders[1..]| ==> orders[1..][k] == orders[k + 1];
      BodyBlock(p, elevations[1..], orders[1..], m, i - 1);
      Distribute(m, i);
      var lo := 2 * m * (i - 1);
      SliceOfAppend(b, rest, 2 * m + lo, 2 * m + lo + 2 * m);
      assert elevations[1..][i - 1] == elevations[i];
      assert orders[1..][i - 1] == orders[i];
    }
  }

  /** With every order of length m, the body has 2·m commands per elevation. */
  lemma {:induction false} BodyLength(p: ScanRequest, elevations: seq<real>, orders: seq<seq<real>>, m: nat)
    requires |orders| == |elevations|
    requires forall k :: 0 <= k < |orders| ==> |orders[k]| == m
    ensures |Body(p, elevations, orders)| == 2 * m * |elevations|
  {
    if |elevations| > 0 {
      assert forall k :: 0 <= k < |orders[1..]| ==> orders[1..][k] == orders[k + 1];
      BodyLength(p, elevations[1..], orders[1..], m);
      Distribute(m, |elevations|);
    }
  }

  /** The file is the rendering of the commands, one line each, and every
      line ends in CR LF. */
  lemma ScanFileLines(p: ScanRequest)
    ensures MakeScanFile(p).Success? && Commands(p).Success?
    ensures |MakeScanFile(p).value| == |Commands(p).value|
    ensures forall k :: 0 <= k < |MakeScanFile(p).value| ==>
      && ParseCommand(MakeScanFile(p).value[k]) == Some(Commands(p).value[k])
      && EndsInCrlf(MakeScanFile(p).value[k])
  {
    CommandsUnfold(p);
    var cs := Commands(p).value;
    forall k | 0 <= k < |cs|
      ensures ParseCommand(Render(cs[k])) == Some(cs[k]) && EndsInCrlf(Render(cs[k]))
    {
      ParseRender(cs[k]);
      RenderEndsInCrlf(cs[k]);
    }
  }

  /** The length of the file: three header lines in static mode, none in
      dynamic mode, then two lines per (elevation, azimuth) pair. */
  lemma ScanFileLength(p: ScanRequest)
    ensures Commands(p).Success?
    ensures |Commands(p).value| == (if p.dynCsm then 0 else 3) + 2 * |p.azimuths| * |p.elevations|
  {
    CommandsUnfold(p);
    BodyLength(p, p.elevations, Copies(|p.elevations|, p.azimuths), |p.azimuths|);
  }

  /** In static mode the header is the repeat count, the number of points
      |azimuths|·|elevations|, and the rays per point; in dynamic mode the
      file starts directly with the first motion. */
  lemma ScanFileHeader(p: ScanRequest)
    ensures Commands(p).Success?
    ensures !p.dynCsm ==> (|Commands(p).value| >= 3 &&
      Commands(p).value[..3] == [Count(p.repeat), Count(|p.azimuths| * |p.elevations|), Count(p.raysPerPoint)])
    ensures p.dynCsm ==> Commands(p).value == Body(p, p.elevations, Copies(|p.elevations|, p.azimuths))
  {
    CommandsUnfold(p);
    var hd := Header(p);
    var body := Body(p, p.elevations, Copies(|p.elevations|, p.azimuths));
    assert (hd + body)[..|hd|] == hd;
  }

  /** Body commands 2·m·i + 2j and the one after it are the motion for
      elevation i and azimuth j of that elevation's order, then the wait. */
  lemma BodyPoint(p: ScanRequest, elevations: seq<real>, orders: seq<seq<real>>, m: nat, i: nat, j: nat)
    requires |orders| == |elevations|
    requires forall k :: 0 <= k < |orders| ==> |orders[k]| == m
    requires i < |elevations| && j < m
    ensures 2 * m * i + 2 * j + 1 < |Body(p, elevations, orders)|
    ensures Body(p, elevations, orders)[2 * m * i + 2 * j] == Move(MotionAt(p, elevations[i], orders[i][j]))
    ensures Body(p, elevations, orders)[2 * m * i + 2 * j + 1] == Pause(p.wait)
  {
    BodyBlock(p, elevations, orders, m, i);
    BlockAt(p, elevations[i], orders[i], j);
    var body := Body(p, elevations, orders);
    var lo := 2 * m * i;
    assert body[lo + 2 * j] == body[lo .. lo + 2 * m][2 * j];
    assert body[lo + 2 * j + 1] == body[lo .. lo + 2 * m][2 * j + 1];
  }

  /** Point (i, j) — elevation i in the outer loop, azimuth j in the inner
      loop — is a motion with the fixed speeds and the negated, truncated
      angle ticks of elevations[i] and azimuths[j], followed by the wait.
      Every elevation sweeps the azimuths in their given order. */
  lemma ScanFilePoint(p: ScanRequest, i: nat, j: nat)
    requires i < |p.elevations| && j < |p.azimuths|
    ensures Commands(p).Success?
    ensures var k := (if p.dynCsm then 0 else 3) + 2 * |p.azimuths| * i + 2 * j;
      && k + 1 < |Commands(p).value|
      && Commands(p).value[k] == Move(Motion(
           p.acceleration, Ticks(p.aziSpeed, p.azCounts), -Ticks(p.azimuths[j], p.azCounts),
           p.acceleration, Ticks(p.elSpeed, p.elCounts), -Ticks(p.elevations[i], p.elCounts)))
      && Commands(p).value[k + 1] == Pause(p.wait)
  {
    var m := |p.azimuths|;
    var orders := Copies(|p.elevations|, p.azimuths);
    CommandsUnfold(p);
    BodyPoint(p, p.elevations, orders, m, i, j);
    var hd := Header(p);
    var body := Body(p, p.elevations, orders);
    var lo := 2 * m * i + 2 * j;
    assert (hd + body)[|hd| + lo] == body[lo];
    assert (hd + body)[|hd| + lo + 1] == body[lo + 1];
  }

  // ---------------------------------------------------------------------
  // The alternating sweep, for comparison

  function Reverse<T>(s: seq<T>): (r: seq<T>)
    ensures |r| == |s|
    ensures forall i :: 0 <= i < |s| ==> r[i] == s[|s| - 1 - i]
  {
    seq(|s|, i requires 0 <= i < |s| => s[|s| - 1 - i])
  }

  lemma ReverseReverse<T>(s: seq<T>)
    ensures Reverse(Reverse(s)) == s
  {
  }

  /** A serpentine sweep: even elevations forward, odd ones reversed. */
  function SerpentineOrders(n: nat, azimuths: seq<real>): (r: seq<seq<real>>)
    ensures |r| == n
    ensures forall k :: 0 <= k < n ==> r[k] == if k % 2 == 0 then azimuths else Reverse(azimuths)
  {
    seq(n, k => if k % 2 == 0 then azimuths else Reverse(azimuths))
  }

  /** In a serpentine sweep each elevation's order reverses the previous one. */
  lemma SerpentineAlternates(n: nat, azimuths: seq<real>)
    ensures forall k :: 0 <= k < n - 1 ==>
      SerpentineOrders(n, azimuths)[k + 1] == Reverse(SerpentineOrders(n, azimuths)[k])
  {
    var r := SerpentineOrders(n, azimuths);
    forall k | 0 <= k < n - 1
      ensures r[k + 1] == Reverse(r[k])
    {
      if k % 2 == 0 {
        assert (k + 1) % 2 == 1;
      } else {
        assert (k + 1) % 2 == 0;
        ReverseReverse(azimuths);
      }
    }
  }

  /** The commands a serpentine encoder would write from the same request. */
  function SerpentineCommands(p: ScanRequest): seq<Command>
  {
    Header(p) + Body(p, p.elevations, SerpentineOrders(|p.elevations|, p.azimuths))
  }

  /** With two or more elevations and first and last azimuths that encode to
      different ticks, the file as written is not the serpentine one: the
      second elevation starts again at the first azimuth. */
  lemma AsWrittenIsNotSerpentine(p: ScanRequest)
    requires |p.elevations| >= 2 && |p.azimuths| >= 1
    requires Ticks(p.azimuths[0], p.azCounts) != Ticks(p.azimuths[|p.azimuths| - 1], p.azCounts)
    ensures Commands(p) != Success(SerpentineCommands(p))
  {
    var n := |p.elevations|;
    var m := |p.azimuths|;
    var hd := Header(p);
    ScanFilePoint(p, 1, 0);
    var serp := SerpentineOrders(n, p.azimuths);
    assert serp[1] == Reverse(p.azimuths);
    BodyBlock(p, p.elevations, serp, m, 1);
    BlockAt(p, p.elevations[1], serp[1], 0);
    var body := Body(p, p.elevations, serp);
    assert body[2 * m] == body[2 * m .. 2 * m + 2 * m][0];
    assert (hd + body)[|hd| + 2 * m] == body[2 * m];
    assert (hd + body)[|hd| + 2 * m] == Move(MotionAt(p, p.elevations[1], p.azimuths[m - 1]));
  }
}
