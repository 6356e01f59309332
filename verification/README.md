# ADAM core, modelled in Dafny

ADAM, the ATMOS Analogue Digital Twin, watches the Chicago
NEXRAD radar for lake-breeze fronts and points instruments at them. This
project models the deterministic core of that pipeline. It uses pure
functions over immutable data and proves what each part promises.

- **Scan-strategy encoder** (`make_scan_file`), module `ScanFile`. It
  produces the CSM text file of a Halo Photonics Doppler lidar:
  - in static mode, a header of repeat count, number of points and rays per point;
  - one motion line `A.1=..,S.1=..,P.1=..*A.2=..,S.2=..,P.2=..` and one
    `W<wait>` line per (elevation, azimuth) pair;
  - every line ends in CR LF.
- **Lidar transfers** (`send_scan`, `get_file`), module `Transport`. Each
  call is modelled as a record of what it did: connections opened, uploads
  and downloads made, whether it closed the SSH client, and how it ended.
- **Speckle filters**, module `AreaFilter`. There are two: the
  component-area filter with largest-component tracking in
  `infer_lake_breeze`, and the steering copy of it with its own label range,
  fixed threshold and transpose.
- **Instrument steering** (`azimuth_point`), module `Steering`:
  - frame selection;
  - nearest grid indices;
  - the truncated centre lookups and the mirrored `num_x - lon_index` lookup;
  - the bearing normalised into [0, 360).
- **NEXRAD scan choice** (lines 58-90 of `preprocess_radar_image`), module
  `RadarScan`:
  - the S3 day prefixes;
  - the candidate key list;
  - key-name time parsing;
  - choosing the first scan nearest the requested time.
- **Job submission script** (`parse_nodes`, `create_job_file`,
  `edit_and_submit_job`), module `SubmitJob`.

Shared pieces:
- `Decimal`: `%d`, `%02d`, fixed-width digits, and reading them back.
- `Text`: `split`, `join`, `strip`, `in`, the base name, `os.path.join`.
- `Numeric`: `int()` truncation, argmin, Python indexing, the bearing modulo.
- `Calendar`: `datetime` minus one day or one hour.
- `Wrappers`: Option and Result.

The network, the clock, the shell and the scipy and numpy routines that are
not modelled appear as parameters. Examples are the bucket listing
`listObjects`, the label grid and its feature count, `centreOfMass` and
`atan2Deg`, the job-name time stamp, the environment, and whether each
connect, put, get or command succeeds.

Where the docstrings, or what the code's own structure suggests, differ
from what the code does, the model follows the code:
- Angles become ticks by `int()`, which truncates toward zero. It does not
  round.
- There is no serpentine sweep. The direction flag is flipped with `~`,
  and `~True` is -2, which is truthy. The `reverse()` branch therefore never
  runs, and every elevation uses the azimuths as given.
- `send_scan` and `get_file` say that a client they open is closed within
  the function, but they close it only when they return normally. An exception leaves it open, because there is no `finally`.
- `get_file` connects a second time even when the caller supplied the
  client.
- The `make_scan_file` docstring (halo_lidar.py:21-25) says that a 2-tuple
  of elevations makes an RHI from the smallest to the largest elevation, and
  a 2-tuple of azimuths a PPI from the least to the greatest azimuth. The code
  (lines 42 and 49-54) treats a 2-tuple as just two angles to visit. The
  docstring also allows a single float azimuth, for which `len(azimuths)`
  at line 42 raises TypeError. Here both angle lists are sequences of reals,
  so a scalar azimuth cannot be passed.

## Model

| member | source | states |
|---|---|---|
| ScanFile.ScanFileLength | src/adam/triggering/halo_lidar.py:42-60 | The file has 3 header lines in static mode and none in dynamic mode, plus exactly 2·\|azimuths\|·\|elevations\| body lines. |
| ScanFile.ScanFileHeader | src/adam/triggering/halo_lidar.py:44-47 | In static mode the first three lines are the repeat count, \|azimuths\|·\|elevations\| and rays per point. In dynamic mode the file is the body alone. |
| ScanFile.ScanFilePoint | src/adam/triggering/halo_lidar.py:39-60 | Line pair (i, j) sits at header + 2·\|azimuths\|·i + 2·j, with elevation outermost. It is the motion with the acceleration on both axes, the un-negated speed ticks computed once, and the negated truncated ticks of azimuths[j] and elevations[i], then the wait line. |
| ScanFile.ScanFileLines | src/adam/triggering/halo_lidar.py:43-60 | Encoding never fails. The file has one line per command, each the rendering of its command and each ending in CR LF. |
| ScanFile.ParseRender | src/adam/triggering/halo_lidar.py:45-60 | Every line the encoder writes reads back as the command it was written from (the round trip of the line formats). |
| ScanFile.ParseMotionLineOfMotionLine | src/adam/triggering/halo_lidar.py:57-59 | A motion line reads back as its six integers, negative ones included. |
| ScanFile.ParseWaitLineOfWaitLine | src/adam/triggering/halo_lidar.py:60 | A `W%d` line reads back as its wait. |
| ScanFile.ParseCountLineOfCountLine | src/adam/triggering/halo_lidar.py:45-47 | A `%d` header line reads back as its number. |
| ScanFile.RenderEndsInCrlf | src/adam/triggering/halo_lidar.py:45-60 | Every line ends in "\r\n". |
| ScanFile.AzimuthOrdersNeverReverse | src/adam/triggering/halo_lidar.py:41-61 | Starting from True and flipping with `~` keeps the flag truthy (1 or -2). The reverse branch never runs, and every elevation gets the azimuths in their original order. |
| ScanFile.CommandsUnfold | src/adam/triggering/halo_lidar.py:41-61 | The commands are the header followed by one unreversed block per elevation. |
| ScanFile.AsWrittenIsNotSerpentine | src/adam/triggering/halo_lidar.py:49-61 | With two elevations and first and last azimuths of different ticks, the file differs from a serpentine sweep: the second elevation restarts at the first azimuth. |
| ScanFile.SerpentineAlternates | src/adam/triggering/halo_lidar.py:50-53 | In the serpentine reference sweep, each elevation's order is the reverse of the previous one. |
| ScanFile.BodyLength | src/adam/triggering/halo_lidar.py:49-60 | With m azimuths per order, the body has 2·m lines per elevation. |
| ScanFile.BodyBlock | src/adam/triggering/halo_lidar.py:49-60 | Lines 2·m·i up to 2·m·(i+1) of the body are the inner loop's block for elevation i. |
| ScanFile.BodyPoint | src/adam/triggering/halo_lidar.py:54-60 | Within the body, pair (i, j) is the motion for elevations[i] and orders[i][j], followed by the wait. |
| ScanFile.BlockAt | src/adam/triggering/halo_lidar.py:54-60 | In one elevation's block, lines 2j and 2j+1 are the motion for the j-th azimuth and the wait. |
| Transport.SendScan | src/adam/triggering/halo_lidar.py:89-106 | It connects only without a caller's client and makes exactly one put once connected (opening the SFTP session counts as part of the put). The put goes to `Scan parameters/<name>` in static mode and `DynScan/<name>` in dynamic mode. It returns iff the connect and put succeed, and closes iff it returned and owns the client. |
| Transport.SendScanKeepsCallerClient | src/adam/triggering/halo_lidar.py:89-91 | A caller-supplied client is never connected or closed. |
| Transport.ScanDestinationInjective | src/adam/triggering/halo_lidar.py:100-104 | The remote path determines both the CSM mode and the remote file name. |
| Transport.GetFile | src/adam/triggering/halo_lidar.py:132-172 | It connects twice with no client and once with one, or once if its own first connect fails. It raises on a failed first or second connect, an OverflowError from the previous hour, a failed listing of the day directory `DataDir(t)`, or a failed get. It reports not-found iff no name in that listing holds either hour stamp, and then transfers nothing. On return, the transfers are exactly the listed names holding the stamp of the hour or of the previous hour. It closes iff it did not raise and owns the client. |
| Transport.Downloads | src/adam/triggering/halo_lidar.py:157-165 | No more downloads than names, and none iff no name holds either stamp. |
| Transport.DownloadsExactly | src/adam/triggering/halo_lidar.py:159-164 | Every listed name holding either stamp is fetched, and every fetch is of such a name. |
| Transport.FetchListedName | src/adam/triggering/halo_lidar.py:162-164 | A listed name without '/' is fetched from the day directory plus the name and saved under the name. |
| Transport.ParseDayStampOfDayStamp | src/adam/triggering/halo_lidar.py:151-155 | The `%d%02d%02d` day stamp is all digits and reads back as year, month and day. |
| Transport.ParseHourStampOfHourStamp | src/adam/triggering/halo_lidar.py:155-156 | The `%d%02d%02d_%02d` hour stamp reads back as year, month, day and hour. |
| Transport.HourStampInjective | src/adam/triggering/halo_lidar.py:155-156 | Two hour stamps are equal iff they name the same hour. |
| Transport.DayStampInjective | src/adam/triggering/halo_lidar.py:151 | Two day stamps are equal iff they name the same date. |
| Transport.DataDirDay | src/adam/triggering/halo_lidar.py:151 | The data directory ends in '/', and its last component is the day stamp. |
| Transport.MidnightLooksInWrongDay | src/adam/triggering/halo_lidar.py:150-156 | At hour 0 the previous hour is 23 of another date whose directory differs, so its files are looked for in a directory that does not hold them. |
| Calendar.PrevHour | src/adam/triggering/halo_lidar.py:150 | `time - timedelta(hours=1)` is 3600 seconds earlier and valid. It fails (OverflowError) exactly at hour 0 of 0001-01-01. |
| Calendar.PrevHourAtMidnight | src/adam/triggering/halo_lidar.py:150 | At hour 0 the previous hour is hour 23 of the previous day. |
| Calendar.PrevDay | src/adam/io/get_radar_scan.py:58 | `now - timedelta(days=1)` keeps the time of day, is 86400 seconds earlier, and fails exactly on 0001-01-01. |
| AreaFilter.LakeBreezeFilterCells | src/adam/model/predict_lake_breeze.py:68-75 | A pixel with label k in 1..n is zeroed iff component k's area in the original mask is below the threshold. All other pixels keep their value. |
| AreaFilter.LakeBreezeLargest | src/adam/model/predict_lake_breeze.py:66-75 | `largest_index` is the smallest label of maximal area, chosen before zeroing, so it may name a removed component. It stays 0 while no area exceeds -99999. |
| AreaFilter.LakeBreezeNoFeatures | src/adam/model/predict_lake_breeze.py:65-68 | With no features the mask is unchanged, `largest_area` is -99999 and `largest_index` is 0. |
| AreaFilter.SweepSpec | src/adam/model/predict_lake_breeze.py:66-75 | The loop equals the cell-by-cell filter over the ORIGINAL areas, so zeroing one component never changes another's area and the order does not matter. The largest area is the maximum of -99999 and all visited areas; its index is the first label attaining it. |
| AreaFilter.FilteredStep | src/adam/model/predict_lake_breeze.py:68-75 | Visiting label k leaves k's area as in the original and zeroes exactly label k when that area is below the threshold. |
| AreaFilter.FilterIdempotent | src/adam/model/predict_lake_breeze.py:64-75 | Filtering the filtered mask again with the same labels and threshold changes nothing. |
| AreaFilter.AreaAgree | src/adam/model/predict_lake_breeze.py:69 | A component's area depends only on the cells carrying its label. |
| AreaFilter.AreaOfZeros | src/adam/model/predict_lake_breeze.py:69 | A component whose cells are all 0 has area 0. |
| AreaFilter.ZeroLabel | src/adam/model/predict_lake_breeze.py:75 | `mask[labels == k] = 0` zeroes exactly the cells labelled k and keeps the shape. |
| AreaFilter.SteeringFilterCells | src/adam/util/instrument_steering.py:45-54 | The filter fails iff there is a feature and the transposed frame's shape differs from the labels'. Otherwise each pixel is the transposed frame's, zeroed iff its label is in 0..n-1 with area below 20. |
| AreaFilter.BackgroundZeroingHarmless | src/adam/util/instrument_steering.py:49-54 | Zeroing label 0 leaves a mask unchanged when the mask is 0 on the background. |
| AreaFilter.TransposeLosesFeature | src/adam/util/instrument_steering.py:45-54 | Visiting 0..n-1 after a transpose can erase the only feature: the frame [[0,1],[0,0]] filters to all zeros. |
| AreaFilter.Transpose | src/adam/util/instrument_steering.py:48 | `mask.T` swaps rows and columns of a rectangular grid. |
| Steering.SelectFrame | src/adam/util/instrument_steering.py:36-39 | No index selects frame 0. An index selects that frame with Python's negative indexing. Any other index raises IndexError. |
| Steering.DefaultFrameIsFirst | src/adam/util/instrument_steering.py:36-39 | Leaving the index out is the same as asking for frame 0. |
| Steering.ThresholdIgnored | src/adam/util/instrument_steering.py:8-46 | The `area_threshold` argument has no effect on the result. |
| Steering.AzimuthPoint | src/adam/util/instrument_steering.py:6-67 | It succeeds iff a frame exists, both axes are non-empty, the filter succeeds, the centre exists and the final lookups succeed. On success its result is the final step's from the nearest indices and the centre. |
| Steering.AimAt | src/adam/util/instrument_steering.py:56-67 | The bearing lies in [0, 360). A nearest longitude index of 0 makes the mirrored lookup `grid_x[num_x - 0]` fail. It succeeds iff all six lookups are in range. The lat/lon returned are the axis values at the truncated centre. The bearing is atan2 of the centre-minus-instrument offsets, turned into [0, 360). |
| Steering.FirstLongitudeFails | src/adam/util/instrument_steering.py:44-61 | Whenever the nearest longitude index is 0, `azimuth_point` fails. |
| Steering.FilteredFrame | src/adam/util/instrument_steering.py:36-54 | It fails iff the frame selection fails or the steering filter of the selected frame fails, and every failure is an IndexError (a shape mismatch in the filter included). On success it is the steering filter of the selected frame. |
| Numeric.NearestIndex | src/adam/util/instrument_steering.py:43-44 | `argmin(abs(xs - x))` is the first index of minimal distance. It is None exactly for an empty axis. |
| Numeric.FirstArgMin | src/adam/io/get_radar_scan.py:89 | numpy's argmin is an index of the least value, and the first such index. |
| Numeric.NormaliseBearing | src/adam/util/instrument_steering.py:64-66 | `(deg + 360) % 360` lies in [0, 360). It keeps an angle in [0, 180] and adds 360 to one in (-180, 0). |
| Numeric.Trunc | src/adam/util/instrument_steering.py:59-60 | `int(x)` truncates toward zero: the integer between 0 and x that is less than one away from x. |
| Numeric.At | src/adam/util/instrument_steering.py:59-62 | Python's `s[i]` succeeds iff -len ≤ i < len, gives s[i] for i ≥ 0 and s[len + i] for a negative i. |
| RadarScan.ParseDayPrefixOfDayPrefix | src/adam/io/get_radar_scan.py:66 | The prefix `YYYY/MM/DD/KLOT` reads back as the date it was built from. |
| RadarScan.DayPrefixInjective | src/adam/io/get_radar_scan.py:66-71 | Two day prefixes are equal iff the dates are. |
| RadarScan.CandidatePrefixes | src/adam/io/get_radar_scan.py:58-71 | The two prefixes listed name the requested day and the day 86400 seconds before it. |
| RadarScan.RadarArgumentIgnored | src/adam/io/get_radar_scan.py:65 | The `radar` argument is overwritten with KLOT and has no effect. |
| RadarScan.Candidates | src/adam/io/get_radar_scan.py:67-73 | The candidates are today's keys followed by yesterday's. KeyError is raised iff either listing is empty, and OverflowError iff there is no day before (0001-01-01). |
| RadarScan.OutDirDayUnpadded | src/adam/io/get_radar_scan.py:74 | On days 1-9 the output directory carries a one-digit day, unlike the padded month. |
| RadarScan.ParseStampOfFormatStamp | src/adam/io/get_radar_scan.py:83-86 | A `%Y%m%d_%H%M%S` stamp reads back as its datetime. |
| RadarScan.ParseKeyTime | src/adam/io/get_radar_scan.py:80-86 | A parsed key time is a valid datetime. |
| RadarScan.KeyNameParts | src/adam/io/get_radar_scan.py:80-86 | A key name is the radar, the stamp and the suffix, with no '/'. It ends in "MDM" iff it has the `_V06_MDM` suffix. |
| RadarScan.ParseKeyTimeOfKeyName | src/adam/io/get_radar_scan.py:79-86 | Any key `dir/KLOTYYYYmmdd_HHMMSS_V06[_MDM]` parses back to its scan time: the base name is after the last '/' and the format is chosen by "MDM". |
| RadarScan.ParseAll | src/adam/io/get_radar_scan.py:78-86 | The times list exists iff every key parses, and then holds each key's time in order. |
| RadarScan.NearestTime | src/adam/io/get_radar_scan.py:88-89 | The chosen index is the first whose time is nearest the request. |
| RadarScan.ChooseScan | src/adam/io/get_radar_scan.py:58-90 | On success, the time and path come from the same key, the first nearest. The path is the bucket URL plus that key. Any failure other than ValueError is exactly the failure of the listings (KeyError or OverflowError). |
| RadarScan.ChooseScanValueError | src/adam/io/get_radar_scan.py:78-86 | ValueError is raised iff both listings exist and some key does not parse. |
| RadarScan.UnreadableKeyFails | src/adam/io/get_radar_scan.py:68-86 | One unparseable key in yesterday's listing fails the whole choice, however close the other scans are. |
| Decimal.FormatIntValue | src/adam/triggering/halo_lidar.py:45 | The text of `%d` denotes the number: its digits after an optional minus sign. |
| Decimal.TakeFormatInt | src/adam/triggering/halo_lidar.py:57-60 | Reading back what `%d` wrote gives the number and the following text. |
| Decimal.Pad2 | src/adam/io/get_radar_scan.py:66 | `%02d` of 0..99 is two digits denoting the number. Otherwise it is `%d`. |
| Decimal.ValueOfFixedDigits | src/adam/io/get_radar_scan.py:83 | w fixed digits of n < 10^w denote n. |
| Text.Split | scripts/submit_job.py:84 | `split(sep)` has one more field than separators, and no field holds the separator. |
| Text.JoinSplit | scripts/submit_job.py:43 | Joining the fields of a split restores the string. |
| Text.SplitJoin | scripts/submit_job.py:165 | Splitting a join of one or more separator-free parts restores the parts. |
| Text.Strip | scripts/submit_job.py:84 | `strip()` leaves no whitespace at either end, and leaves an already stripped string unchanged. |
| Text.StripTrims | scripts/submit_job.py:84 | The stripped string is a slice of the input with only whitespace before and after it. |
| Text.ContainsAt | src/adam/triggering/halo_lidar.py:160 | `sub in s` holds iff sub occurs at some position of s. |
| Text.BaseName | src/adam/io/get_radar_scan.py:80 | `split("/")[-1]` is a '/'-free suffix of the path, preceded by '/' when shorter than it. |
| Text.BaseNameAfterSlash | src/adam/io/get_radar_scan.py:80 | The base name of `dir + "/" + name` is name. |
| Text.PathJoin | src/adam/triggering/halo_lidar.py:164 | `os.path.join(a, b)` ends in b, and an absolute b is the whole result. A relative b follows a directly or after one inserted '/'. |
| SubmitJob.ParseNodes | scripts/submit_job.py:74-84 | One entry per comma-separated field (commas + 1), each the field stripped. |
| SubmitJob.ParseNodesTrims | scripts/submit_job.py:84 | Each entry holds no comma and is its field with only surrounding whitespace removed. |
| SubmitJob.ParseNodesOfJoin | scripts/submit_job.py:74-84 | A comma-join of stripped, comma-free names parses back to the names. |
| SubmitJob.JobName | scripts/submit_job.py:33-36 | A non-empty custom name is the name. Otherwise the name is `sdl-mobo-` followed by the time stamp. |
| SubmitJob.CreateJobFile | scripts/submit_job.py:33-67 | The file is `<job name>.yaml` under the job directory. Exactly the given nodes map to true. There is one plugin named like the job, with the argument list and image, and the science rules are exactly the one rule scheduling the job by name. There are no success criteria. |
| SubmitJob.JobFileBaseName | scripts/submit_job.py:37 | The file's last path component is `<name>.yaml`. |
| SubmitJob.PluginArgs | scripts/submit_job.py:44-51 | The plugin argument list has 12 entries. |
| SubmitJob.PluginArgsRead | scripts/submit_job.py:44-51 | Read as flag/value pairs, the argument list gives ip, "direction", south, the joined directions, username and password to their flags. |
| SubmitJob.DirectionsReadBack | scripts/submit_job.py:43-48 | The `-pt` value parses back into the directions when they are stripped and comma-free. |
| SubmitJob.RuleNameOfScienceRule | scripts/submit_job.py:65 | The science rule `schedule(<name>): cronjob(...)` names its job. |
| SubmitJob.EditAndSubmitJob | scripts/submit_job.py:99-122 | A missing or empty token or host raises before any command runs. Otherwise the edit runs first, and the submit runs only after a successful edit. The call ends without error iff both succeed. |
| SubmitJob.CommandsRead | scripts/submit_job.py:104-121 | The edit command carries the job id, file, token and server. The submit command carries the id, token and server. `--dry-run` is one extra last argument exactly in a dry run. |
| SubmitJob.DryRunOnlyAppends | scripts/submit_job.py:109-121 | A dry run appends `--dry-run` to each command and changes nothing else. |
| SubmitJob.DryRunEverywhere | scripts/submit_job.py:104-122 | Every command run ends in `--dry-run` in a dry run and is the shorter form otherwise. |

## Left out

- File, SSH, SFTP, S3 and subprocess I/O. The model returns the lines
  `make_scan_file` writes, not the file; `out_file_name` is therefore not
  modelled. Transfers are recorded, not performed. Each step that can fail
  is a boolean parameter.
- `print` and `logging` output, and the YAML serialisation of the job.
- scipy's `label` and `center_of_mass`, and numpy's `atan2` and `rad2deg`.
  These are parameters: the label grid with its feature count,
  `centreOfMass` (None for the NaN centre of an empty mask) and `atan2Deg`.
  Connectivity is not modelled.
- Floating point. Angles, speeds and grid values are exact reals. `int()`
  truncation and the float `%` are written out exactly; rounding error is
  not modelled.
- The `AZ_COUNTS_PER_ROT` and `EL_COUNTS_PER_ROT` constants. The source
  never defines them, so they are positive parameters.
- `dyn_csm is False` with a non-boolean argument. The mode is a `bool`
  here.
- `mask.T` in the steering filter is a numpy view, so zeroing it also
  writes into the caller's frame. The model returns a new grid and does not
  model that aliasing.
- Steering.AzimuthPoint: the `RadarImage` class (get_radar_scan.py:13-26)
  defines no `__getitem__` and no `grid_x` or `grid_y`. Its instances
  therefore raise TypeError at instrument_steering.py:37 or :39, and
  AttributeError at :57-61. The model assumes an image that provides its
  frames and all four grid axes.
- Module loading. The model follows each function's text as if its module
  loaded, but two syntax errors stop that:
  - predict_lake_breeze.py:43 (`elif model_name == ...`) lacks its colon,
    so the filter loop at lines 64-75 is never loaded;
  - get_radar_scan.py:28 lacks its colon. `adam/__init__.py` imports
    `adam.io`, which imports get_radar_scan.py, so halo_lidar.py (through
    `..util`) and instrument_steering.py (through `adam.io`) cannot be
    imported either.

  Only scripts/submit_job.py loads as written.
- `preprocess_radar_image` does not run as written:
  - line 28 lacks its colon;
  - `inp_time` is never defined;
  - `out_path` is read before it is assigned at line 74;
  - `Config` and `os` are not imported.

  The model takes the requested time as a parameter and keeps only the
  directory name of line 74.
- RadarScan.ChooseScan: the parameter `datetime=None` (line 28) shadows the
  `datetime` class imported at line 8, so `datetime.utcnow()` (line 55) and
  `datetime.strptime` (lines 83 and 86) would raise AttributeError. The
  model treats those calls as the class methods they are evidently meant to
  be, and lets them succeed.
- RadarScan.ParseName: `strptime` matches the literal parts of its format
  (the radar name and `_V06`) case-insensitively. The model compares them
  exactly, so a key such as `klot...` is rejected here but parsed by the
  source. NEXRAD keys are upper-case. Py-ART reading, plotting and image
  preprocessing after line 90 are out of scope.
- `list_objects_v2` returns at most 1000 keys per call. `listObjects`
  stands for whatever the call returns.
- `strptime` is modelled at fixed width. It accepts one-digit month, day,
  hour, minute and second fields, but NEXRAD names never use them. Datetime
  microseconds are not modelled.
- Python's `datetime` accepts years 1 to 9999. `Calendar.Valid` keeps that
  range; the OverflowError past 9999 cannot arise from subtraction.
- The script's `__main__` block: argparse, `SES_MOBO_PASSWORD`, and
  `os.makedirs`. The default job name's clock reading is the `stamp`
  parameter.
- The trigger wrappers, the ML model and inference, visualisation, the
  fake lidar and the tests. They are orchestration, numerics or scaffolding
  outside the modelled core.
- Transport.GetFile: when a download raises, the contract says that the call
  raised and left the client open. It does not say which transfer was
  attempted (the first wanted file).
- Steering.AimAt: the bearing is tied to atan2's result only when that
  result lies in (-180, 180], which is the range of atan2. For any other
  value only the [0, 360) bound is stated.
