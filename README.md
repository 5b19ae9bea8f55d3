# get_cgpu_pw in Dafny

`get_cgpu_pw` prints the current CPU and GPU power draw in watts, as
`"<cpu>W <gpu>W\n"`. The CPU figure comes from the `energy17_input` counter
of the `zenergy` hardware-monitor device. That counter is in microjoules, is
read twice 10 ms apart, and the difference becomes watts. The GPU figure
comes from the `power1_average` file of the `amdgpu` device, in microwatts.
Each device is found by scanning `/sys/class/hwmon` for a `hwmonN` directory
whose `name` file holds the device name and which contains the metric file.

The model has six modules:

- `Locator` (`locator.dfy`) models `find_hwmon_file`. The hardware-monitor
  directory is a snapshot: `None` when `opendir` fails, otherwise the entries
  in enumeration order. Each entry has its name, the contents of its `name`
  file (`None` when `fopen` fails) and the set of file names that `access`
  finds. The scan is the `while` loop of `FindHwmonFile`. It is proved equal
  to the specification function `Locate`, a first-match search, and the
  lemmas about the scan are proved on `Locate`. `fgets` (at most 127 bytes,
  through the first newline, NULL at end of file), the `strcspn` cut and the
  `strcmp` comparison are modelled byte for byte. A NUL stops both `strcspn`
  and `strcmp`, so the compared name is the first line up to its first
  newline or NUL.
- `Decimal` (`decimal.dfy`) models `strtoull` and `strtol` in base 10. Each
  skips leading white space, takes an optional sign and reads the longest run
  of digits. An out-of-range magnitude saturates. `strtoull` negates a
  leading `-` modulo 2^64. "Nothing converted" (`end == buffer`) is
  `consumed == 0`. The module also holds the decimal printing (`ToDecimal`,
  `FormatSigned`) that the round-trip lemmas use.
- `Sampler` (`sampler.dfy`) models `get_cpu_energy`, `read_gpu_power`, and
  the energy-difference and watt arithmetic of `main`. A read is what the
  system call saw: an error, or the file's bytes, of which at most 127
  arrive. Watts are exact `real`s.
- `PowerReport` (`report.dfy`) models `main` as `Run` over an `Environment`,
  which supplies the directory snapshot and the result of each open and
  read. A run ends either with both figures reported or with one of the
  fatal failures. A failure records whether the CPU figure had already been
  printed.
- `Bytes` and `Wrappers` hold the byte type, the `Span` helper (the
  `strcspn` cut and the white-space skip of `strtoull` and `strtol` are both
  spans), `Option` and `Result`.

The program takes no arguments, so `main` gets no input beyond the
environment.

Where the code's behaviour is surprising, the model follows it:

- `main` prints the CPU figure before it looks for the GPU. A GPU-stage
  failure therefore leaves `"<cpu>W "` on standard output before the exit,
  which flushes standard output. `Outcome.Failed` records that figure.
- `strtoull` accepts a leading `-` and wraps, so a CPU counter file holding
  `-1` reads as 2^64 − 1 rather than failing (`CpuEnergyOfNegative`).
- Only the first 127 bytes of any file are looked at. A `name` line is
  compared only up to a NUL byte.
- `read_gpu_power` tests the sign of an unsigned variable, so the test never
  rejects anything. A negative power reading is reported as a huge power and
  the run ends normally. `GpuStage` and `Run` use the sampler as written
  (`ReadGpuPowerAsWritten`), and `RunReportsWrappedPower` shows the result
  end to end. The corrected sampler `ReadGpuPower`, which rejects negative
  readings, is modelled beside it and compared with it (see "## Findings").

## Model

| member | source | states |
|---|---|---|
| Locator.FindHwmonFile | get_cgpu_pw.c:23-66 | the scan loop returns exactly the first-match result `Locate`: NotFound, the path of the first qualifying entry, or RootUnavailable when the directory cannot be opened |
| Locator.FirstWhere | get_cgpu_pw.c:34-62 | the index returned satisfies the condition and no earlier index does; none is returned only when no entry satisfies it |
| Locator.HasHwmonPrefix | get_cgpu_pw.c:36 | the name passes the strncmp test exactly when it is at least five bytes long and its first five bytes are "hwmon" |
| Locator.Fgets | get_cgpu_pw.c:46-47 | NULL exactly for an empty file; otherwise a non-empty prefix of the file, shorter than the 128-byte buffer, with no newline before its last byte, ending at a newline, at 127 bytes or at the end of the file |
| Locator.CutAtNewline | get_cgpu_pw.c:49 | the cut line is a prefix of the line holding no newline and no NUL, and it ends at the line's end or just before a newline or NUL |
| Locator.ComparedName | get_cgpu_pw.c:46-49 | there is no name to compare exactly when the `name` file is empty; a name is shorter than the 128-byte buffer |
| Locator.ComparedNameIsFirstLine | get_cgpu_pw.c:46-50 | the compared name is absent exactly for an empty file; otherwise it is the longest prefix of the file's first 127 bytes that holds no newline and no NUL |
| Locator.ComparedNameOfLine | get_cgpu_pw.c:46-50 | a `name` file holding one line shorter than 127 bytes, followed by a newline and anything else, compares as that line |
| Locator.FullPath | get_cgpu_pw.c:52 | the path is "/sys/class/hwmon/", then the entry name, then "/", then the file name, with each part at its own position |
| Locator.Locate | get_cgpu_pw.c:23-66 | the specification of the scan, over `Qualifies` (prefix, `name` file opens, first line equals the target, metric file exists): RootUnavailable exactly when the directory cannot be opened; the full characterisation is in LocateNotFound and LocateFound |
| Locator.LocateNotFound | get_cgpu_pw.c:25-65 | the run stops early exactly when the directory cannot be opened; NULL is returned exactly when no entry qualifies |
| Locator.LocateFound | get_cgpu_pw.c:34-58 | a path is returned exactly when it is "/sys/class/hwmon/" + d_name + "/" + filename of a qualifying entry with no qualifying entry before it |
| Locator.LocateCons | get_cgpu_pw.c:34-62 | one loop step: a qualifying first entry is returned, any other first entry is passed over |
| Locator.SkipsNonQualifying | get_cgpu_pw.c:34-62 | removing a non-qualifying entry from anywhere in the enumeration does not change the result |
| Locator.NonHwmonEntryIgnored | get_cgpu_pw.c:36-37 | an entry whose name does not start with "hwmon" never affects the result, whatever its `name` file says |
| Locator.NameMismatchSkipped | get_cgpu_pw.c:49-50 | an entry whose `name` file opens but whose compared first line is not exactly the target is skipped, wherever it stands and whatever files it holds; only an exact match selects a device |
| Locator.UnreadableNameSkipped | get_cgpu_pw.c:42-44 | an entry whose `name` file cannot be opened is skipped without error |
| Locator.MissingMetricFileContinues | get_cgpu_pw.c:50-59 | a device whose name matches but which lacks the metric file does not end the scan; later entries are still searched |
| Locator.FirstMatchWins | get_cgpu_pw.c:52-57 | when no earlier entry qualifies, the first qualifying entry's path is returned, whatever follows it |
| Decimal.ToDecimal | get_cgpu_pw.c:81 | the decimal text of a number is a non-empty run of digits whose value is that number |
| Decimal.ToDecimalOfU64 | get_cgpu_pw.c:71 | the decimal text of a 64-bit unsigned value has at most 20 digits, so it fits in one 127-byte read |
| Decimal.ScanDecimal | get_cgpu_pw.c:81 | a number that is found is a run of digits and consumes at least one byte and no more than the text; its shape is in ScanDecimalShape and its parts in ScanOfText |
| Decimal.ScanDecimalShape | get_cgpu_pw.c:81-82 | the scan finds no number exactly when the text, after white space, does not start with a digit or a sign and a digit; otherwise it ends on the last digit of a maximal digit run |
| Decimal.Strtoull | get_cgpu_pw.c:81 | the value is in 0..ULLONG_MAX and consumes no more than the text; nothing consumed gives value 0 |
| Decimal.Strtol | get_cgpu_pw.c:112 | the value is in LONG_MIN..LONG_MAX and consumes no more than the text; nothing consumed gives value 0 |
| Decimal.ConversionEnd | get_cgpu_pw.c:81-82 | strtoull and strtol stop at the same byte; `end == buffer` exactly when no number starts the text; the end follows the last digit of a maximal run |
| Decimal.StrtoullOfDecimal | get_cgpu_pw.c:81 | strtoull reads back the decimal text of any 64-bit value followed by a non-digit, consuming exactly its digits |
| Decimal.StrtoullOfNegative | get_cgpu_pw.c:81 | strtoull accepts "-n" and returns 2^64 − n |
| Decimal.StrtolOfSigned | get_cgpu_pw.c:112 | strtol reads back the signed decimal text of any long followed by a non-digit |
| Decimal.ScanOfText | get_cgpu_pw.c:81 | any white space, then an optional `+` or `-`, then a run of digits and a non-digit scan as that run with that sign, consuming everything up to the last digit |
| Decimal.StrtoullOfText | get_cgpu_pw.c:81 | for any white space and optional sign before the digits, strtoull returns the digits' value, ULLONG_MAX when it does not fit, 2^64 minus it after a `-` (0 for a zero magnitude), and ends after the last digit |
| Decimal.StrtolOfText | get_cgpu_pw.c:112 | for any white space and optional sign before the digits, strtol returns the signed value of the digits, clamped to LONG_MIN..LONG_MAX, and ends after the last digit |
| Decimal.PaddedExample | get_cgpu_pw.c:81 | " +42\n" converts to 42 with four bytes consumed, under strtoull and strtol alike |
| Sampler.BytesRead | get_cgpu_pw.c:71-72 | the read returns at most 127 bytes, and returns 0 or less exactly on an error or an empty file |
| Sampler.Buffer | get_cgpu_pw.c:78 | the C string scanned is the first bytes_read bytes of the file |
| Sampler.BufferOfShortReading | get_cgpu_pw.c:71-78 | a reading shorter than 127 bytes reaches the buffer whole, followed by a clipped part of the rest of the file |
| Sampler.GetCpuEnergy | get_cgpu_pw.c:68-88 | a read failure, and only that, gives ReadFailed; get_cpu_energy never reports an open failure; a value it returns is strtoull's value of the terminated buffer, whatever the text |
| Sampler.CpuEnergyParseFailure | get_cgpu_pw.c:80-86 | the energy parse fails exactly when bytes were read but they do not start with a number |
| Sampler.CpuEnergyOfCounter | get_cgpu_pw.c:68-88 | a counter file holding "%llu" followed by a newline (or any non-digit) reads as its value |
| Sampler.CpuEnergyOfNegative | get_cgpu_pw.c:81-87 | a counter file holding "-n" followed by a non-digit reads as 2^64 − n instead of failing |
| Sampler.EnergyDiff | get_cgpu_pw.c:144 | the difference wraps modulo 2^64: initial + diff ≡ final; it is final − initial without wrap-around and 2^64 − (initial − final) when the counter went back |
| Sampler.CpuWatts | get_cgpu_pw.c:145-146 | the CPU figure is the energy difference over 10^6 over 0.01 s, that is the difference over 10000, and is never negative |
| Sampler.ToSizeT | get_cgpu_pw.c:112 | storing a long in a size_t keeps a non-negative value and adds 2^64 to a negative one |
| Sampler.ReadGpuPowerAsWritten | get_cgpu_pw.c:90-120 | read_gpu_power as written: OpenFailed exactly when the open fails; ReadFailed exactly when it opens but the read is an error or empty; a reported power is never negative, because the value is unsigned; a reported power is strtol's value of the terminated buffer, stored in a size_t, over 10^6 |
| Sampler.AsWrittenParseFailure | get_cgpu_pw.c:111-117 | as written, the parse fails exactly when bytes were read but they do not start with a number; every conversion that consumes something is accepted |
| Sampler.AsWrittenAcceptsNegative | get_cgpu_pw.c:112-119 | as written, a negative power reading v passes the sign test and is reported as (v + 2^64)/10^6 W |
| Sampler.ReadGpuPower | get_cgpu_pw.c:113 | the corrected sampler, with the sign test on the signed value: OpenFailed exactly when the open fails; ReadFailed exactly when it opens but the read is an error or empty; a reported power is never negative, and is strtol's value of the terminated buffer over 10^6 |
| Sampler.GpuPowerParseFailure | get_cgpu_pw.c:113 | in the corrected sampler, the parse fails exactly when bytes were read but they do not start with a number, or the number is negative |
| Sampler.GpuReadingOfSigned | get_cgpu_pw.c:99-112 | a power file holding a signed decimal reading converts to exactly that long |
| Sampler.GpuPowerOfCounter | get_cgpu_pw.c:90-120 | a power file holding a non-negative "%ld" followed by a newline reports that many microwatts in watts, as written and corrected alike |
| Sampler.GpuRejectsNegative | get_cgpu_pw.c:113 | the corrected sampler rejects every negative reading as a parse failure |
| Sampler.CorrectionOnlyRejectsNegative | get_cgpu_pw.c:112-113 | the corrected sampler differs from the as-written one exactly on readings that convert to a negative long |
| PowerReport.CpuStage | get_cgpu_pw.c:124-146 | a CPU figure is produced only when the counter was located, and is never negative; its failures are never GPU-stage failures; it fails with HwmonUnavailable exactly when the directory cannot be opened |
| PowerReport.GpuStage | get_cgpu_pw.c:149-157 | with read_gpu_power as written, a GPU figure is produced only when the power file was located, and is never negative; when the directory opens, every failure is a GPU-stage failure |
| PowerReport.Run | get_cgpu_pw.c:122-161 | the CPU figure is on standard output at a failure exactly when the failure is in the GPU stage; the run fails before any output on an unopenable directory, and that is the only way to get that failure; a report means both sensors were found and both figures are non-negative |
| PowerReport.CpuStageOutcome | get_cgpu_pw.c:124-146 | each CPU step ends the run on failure with its own diagnostic: CpuSensorNotFound exactly when no counter is located, CpuSample(OpenFailed) exactly when it is located but does not open, the first or second reading's own error when that read fails; a figure exactly when every step succeeds |
| PowerReport.GpuStageOutcome | get_cgpu_pw.c:149-157 | each GPU step ends the run on failure with its own diagnostic: GpuSensorNotFound exactly when the directory opens but no power file is located, GpuSample(e) with read_gpu_power's own error e; a figure exactly when the file is located and read_gpu_power succeeds |
| PowerReport.RunOutcome | get_cgpu_pw.c:122-161 | every failure is fatal and there is no degraded output: both figures are reported exactly when all six steps succeed; a CPU-stage failure prints nothing; a GPU-stage failure leaves exactly the CPU figure computed from the two energy readings on standard output |
| PowerReport.CpuStageOfCounterFiles | get_cgpu_pw.c:124-146 | counter files holding e1 ≤ e2 as "%llu\n" give (e2 − e1)/10000 W |
| PowerReport.GpuStageOfPowerFile | get_cgpu_pw.c:149-157 | a power file holding p ≥ 0 as "%ld\n" gives p/10^6 W |
| PowerReport.GpuStageOfNegativeFile | get_cgpu_pw.c:149-157 | a power file holding v < 0 as "%ld\n" gives (v + 2^64)/10^6 W, as written |
| PowerReport.RunReportsReadings | get_cgpu_pw.c:122-161 | with both sensors found, counter files holding e1 ≤ e2 and a power file holding p ≥ 0, the output is (e2 − e1)/10000 W and p/10^6 W |
| PowerReport.RunReportsWrappedPower | get_cgpu_pw.c:122-161 | with both sensors found and a power file holding v < 0, the run still reports both figures, the GPU figure being (v + 2^64)/10^6 W |
| PowerReport.ExampleGpuLocated | get_cgpu_pw.c:149 | in a directory listing the amdgpu device first, the GPU power file is its path |
| PowerReport.ExampleGpuPassedOver | get_cgpu_pw.c:49-50 | the amdgpu entry also holds a file named like the CPU counter, yet the search for the zenergy counter passes over it because its name line differs |
| PowerReport.ExampleCpuLocated | get_cgpu_pw.c:124 | in the same directory, the CPU counter is found in the second entry; the amdgpu entry ahead of it, though it holds a file of that name, is passed over |
| PowerReport.RunExample | get_cgpu_pw.c:122-161 | in that directory, readings 10000 µJ apart and a GPU reading of 20000000 µW give 1.0 W and 20.0 W |

## Left out

- Real I/O is not performed. `opendir`, `readdir`, `fopen`, `open`,
  `pread`, `read` and `access` become the `Environment`'s snapshot and read
  outcomes. `close`, `fclose` and `closedir` have no observable effect in
  the model.
- The 10 ms `usleep` between the two energy readings is not modelled. The
  two readings are independent inputs, and the watt formula uses the nominal
  0.01 s the code divides by.
- Floating point is not modelled. Watts are exact reals, and the `%.1f`
  rounding and text of `printf` are left out. The model records which
  figures are printed, not their digits.
- The text written to standard error by `perror` and `fprintf` is left out.
  Each message is reduced to its `Failure` case, and every failure exits.
  The exit status is not modelled.
- `snprintf` truncation at `PATH_MAX` is not modelled. A path is
  `"/sys/class/hwmon/" + d_name + "/" + filename` at any length.
- `access(F_OK)` is modelled as membership of the filename in the entry's
  file set. Permissions and races are not modelled.
- The static `full_path` buffer is shared by the two calls of
  `find_hwmon_file`. The first path is used before the second call
  overwrites it, so this aliasing cannot be observed. The model returns a
  fresh sequence instead.
- Both calls of `find_hwmon_file` see the same directory snapshot. Devices
  that appear or disappear between the calls are not modelled.
- Sampler.GetCpuEnergy, Sampler.ReadGpuPowerAsWritten and
  Sampler.ReadGpuPower: a read that fails and a
  read of an empty file are both ReadFailed. The code reports both through
  `perror`, and the difference shows only in `errno`'s text.
- `size_t`, `unsigned long long` and `long` are taken to be 64 bits wide,
  as on LP64 Linux. The constants `ULLONG_MAX`, `LONG_MAX`, `LONG_MIN` and
  the 2^64 wrap-around all follow from that.
- Locator.Qualifies: `strcmp` is modelled as equality of the cut name with
  the target. This is exact because the targets are the NUL-free constants
  "zenergy" and "amdgpu".
- The paths that `find_hwmon_file` returns are not followed to files. The
  `Environment` gives the outcome of each `open` and read directly, so the
  model does not tie the file that `main` opens (get_cgpu_pw.c:132, :157) to
  the located path. It only requires that a path was located first.
- Locale-dependent white space for `strtoull` and `strtol` is not modelled.
  The C locale's set is used: space and bytes 9 to 13.

## Findings

| source | as written | input that shows it | evidently intended | confidence | as-written member | corrected member |
|---|---|---|---|---|---|---|
| get_cgpu_pw.c:112-113 | `strtol`'s result is stored in the unsigned `size_t power_micro_watts`, so `power_micro_watts < 0` never holds and a negative reading passes | a `power1_average` file holding "-5\n" is reported as (2^64 − 5)/10^6 W, about 1.8·10^13 W | a negative reading is rejected as a parse failure | not executed | Sampler.AsWrittenAcceptsNegative | Sampler.GpuRejectsNegative |
