/** main: locate the CPU energy counter, sample it twice, print the CPU
    figure, locate the GPU power file, sample it, print the GPU figure.
    Every failure ends the run; the environment supplies the directory
    snapshot and the outcome of each open and read. */
module PowerReport {
  import opened Wrappers
  import opened Bytes
  import opened Decimal
  import opened Locator
  import opened Sampler

  const CPU_DEVICE: seq<byte> := /* "zenergy" */ [122, 101, 110, 101, 114, 103, 121]
  const CPU_METRIC: seq<byte> := /* "energy17_input" */ [101, 110, 101, 114, 103, 121, 49, 55, 95, 105, 110, 112, 117, 116]
  const GPU_DEVICE: seq<byte> := /* "amdgpu" */ [97, 109, 100, 103, 112, 117]
  const GPU_METRIC: seq<byte> := /* "power1_average" */ [112, 111, 119, 101, 114, 49, 95, 97, 118, 101, 114, 97, 103, 101]

  /** Everything the run observes: the hardware-monitor directory, whether
      the CPU counter opens and what its two reads see, and whether the GPU
      power file opens and what its read sees. */
  datatype Environment = Environment(
    hwmon: Option<seq<Entry>>,
    cpuOpenOk: bool, cpuFirst: ReadOutcome, cpuSecond: ReadOutcome,
    gpuOpenOk: bool, gpuRead: ReadOutcome)

  /** The fatal conditions, one per diagnostic. */
  datatype Failure =
    | HwmonUnavailable
    | CpuSensorNotFound
    | CpuSample(cpuError: SampleError)
    | GpuSensorNotFound
    | GpuSample(gpuError: SampleError)
  {
    predicate IsGpuStage()
    {
      GpuSensorNotFound? || GpuSample?
    }
  }

  /** How a run ends: both figures printed, or a failure. The CPU figure is
      printed before the GPU stage starts, and the exit flushes it, so a
      GPU-stage failure leaves it on standard output. */
  datatype Outcome =
    | Reported(cpuWatts: real, gpuWatts: real)
    | Failed(printedCpuWatts: Option<real>, failure: Failure)

  /** main up to the first printf: locate the energy counter, open it,
      read it twice and convert the difference to watts. */
  function CpuStage(env: Environment): (r: Result<real, Failure>)
    ensures r.Ok? ==> r.value >= 0.0 && Locate(env.hwmon, CPU_DEVICE, CPU_METRIC).Found?
    ensures r.Err? ==> !r.error.IsGpuStage()
    ensures r == Err(HwmonUnavailable) <==> env.hwmon.None?
  {
    match Locate(env.hwmon, CPU_DEVICE, CPU_METRIC)
    case RootUnavailable => Err(HwmonUnavailable)
    case NotFound => Err(CpuSensorNotFound)
    case Found(_) =>
      if !env.cpuOpenOk then Err(CpuSample(OpenFailed))
      else match GetCpuEnergy(env.cpuFirst)
      case Err(e) => Err(CpuSample(e))
      case Ok(initial) =>
        match GetCpuEnergy(env.cpuSecond)
        case Err(e) => Err(CpuSample(e))
        case Ok(final) => Ok(CpuWatts(EnergyDiff(initial, final)))
  }

  /** main after the first printf: locate the power file and sample it with
      read_gpu_power as written, whose sign test never rejects anything. */
  function GpuStage(env: Environment): (r: Result<real, Failure>)
    ensures r.Ok? ==> r.value >= 0.0 && Locate(env.hwmon, GPU_DEVICE, GPU_METRIC).Found?
    ensures r.Err? ==> (r.error.IsGpuStage() <==> env.hwmon.Some?)
  {
    match Locate(env.hwmon, GPU_DEVICE, GPU_METRIC)
    case RootUnavailable => Err(HwmonUnavailable)
    case NotFound => Err(GpuSensorNotFound)
    case Found(_) =>
      match ReadGpuPowerAsWritten(env.gpuOpenOk, env.gpuRead)
      case Err(e) => Err(GpuSample(e))
      case Ok(gpuWatts) => Ok(gpuWatts)
  }

  /** The whole run. Failures are fatal; the CPU figure is on standard
      output exactly when the failure is in the GPU stage. */
  function Run(env: Environment): (r: Outcome)
    ensures r.Failed? ==> (r.printedCpuWatts.Some? <==> r.failure.IsGpuStage())
    ensures r == Failed(None, HwmonUnavailable) <==> env.hwmon.None?
    ensures r.Reported? ==>
      Locate(env.hwmon, CPU_DEVICE, CPU_METRIC).Found? && Locate(env.hwmon, GPU_DEVICE, GPU_METRIC).Found?
    ensures r.Reported? ==> r.cpuWatts >= 0.0 && r.gpuWatts >= 0.0
  {
    match CpuStage(env)
    case Err(failure) => Failed(None, failure)
    case Ok(cpuWatts) =>
      match GpuStage(env)
      case Err(failure) => Failed(Some(cpuWatts), failure)
      case Ok(gpuWatts) => Reported(cpuWatts, gpuWatts)
  }

  /** Every step of the CPU stage ends it on failure, with that step's own
      diagnostic, and the stage produces a figure only when every step
      succeeds. */
  lemma CpuStageOutcome(env: Environment)
    ensures CpuStage(env) == Err(CpuSensorNotFound) <==> Locate(env.hwmon, CPU_DEVICE, CPU_METRIC).NotFound?
    ensures CpuStage(env) == Err(CpuSample(OpenFailed)) <==>
      Locate(env.hwmon, CPU_DEVICE, CPU_METRIC).Found? && !env.cpuOpenOk
    ensures Locate(env.hwmon, CPU_DEVICE, CPU_METRIC).Found? && env.cpuOpenOk && GetCpuEnergy(env.cpuFirst).Err? ==>
      CpuStage(env) == Err(CpuSample(GetCpuEnergy(env.cpuFirst).error))
    ensures (Locate(env.hwmon, CPU_DEVICE, CPU_METRIC).Found? && env.cpuOpenOk && GetCpuEnergy(env.cpuFirst).Ok?
             && GetCpuEnergy(env.cpuSecond).Err?) ==>
      CpuStage(env) == Err(CpuSample(GetCpuEnergy(env.cpuSecond).error))
    ensures CpuStage(env).Ok? <==>
      Locate(env.hwmon, CPU_DEVICE, CPU_METRIC).Found? && env.cpuOpenOk
      && GetCpuEnergy(env.cpuFirst).Ok? && GetCpuEnergy(env.cpuSecond).Ok?
  {
  }

  /** Every step of the GPU stage ends it on failure, with that step's own
      diagnostic, and the stage produces a figure only when every step
      succeeds. */
  lemma GpuStageOutcome(env: Environment)
    ensures env.hwmon.Some? ==>
      (GpuStage(env) == Err(GpuSensorNotFound) <==> Locate(env.hwmon, GPU_DEVICE, GPU_METRIC).NotFound?)
    ensures Locate(env.hwmon, GPU_DEVICE, GPU_METRIC).Found? && ReadGpuPowerAsWritten(env.gpuOpenOk, env.gpuRead).Err? ==>
      GpuStage(env) == Err(GpuSample(ReadGpuPowerAsWritten(env.gpuOpenOk, env.gpuRead).error))
    ensures GpuStage(env).Ok? <==>
      Locate(env.hwmon, GPU_DEVICE, GPU_METRIC).Found? && ReadGpuPowerAsWritten(env.gpuOpenOk, env.gpuRead).Ok?
  {
  }

  /** Every failure ends the run with the failing stage's diagnostic; there is
      no degraded output. Both figures are reported exactly when every step
      succeeds, and a CPU figure left on standard output is the one computed
      from the two energy readings. */
  lemma RunOutcome(env: Environment)
    ensures Run(env).Reported? <==>
      && Locate(env.hwmon, CPU_DEVICE, CPU_METRIC).Found? && env.cpuOpenOk
      && GetCpuEnergy(env.cpuFirst).Ok? && GetCpuEnergy(env.cpuSecond).Ok?
      && Locate(env.hwmon, GPU_DEVICE, GPU_METRIC).Found? && ReadGpuPowerAsWritten(env.gpuOpenOk, env.gpuRead).Ok?
    ensures CpuStage(env).Err? ==> Run(env) == Failed(None, CpuStage(env).error)
    ensures CpuStage(env).Ok? && GpuStage(env).Err? ==> Run(env) == Failed(Some(CpuStage(env).value), GpuStage(env).error)
    ensures Run(env).Failed? && Run(env).printedCpuWatts.Some? ==>
      Run(env).printedCpuWatts.value ==
        CpuWatts(EnergyDiff(GetCpuEnergy(env.cpuFirst).value, GetCpuEnergy(env.cpuSecond).value))
  {
    CpuStageOutcome(env);
    GpuStageOutcome(env);
  }

  /** The CPU stage composes its samples: with the counter found and opened
      and both readings converted, it yields the wrapped difference in watts. */
  lemma CpuStageOfSamples(env: Environment, initial: u64, final: u64)
    requires Locate(env.hwmon, CPU_DEVICE, CPU_METRIC).Found?
    requires env.cpuOpenOk
    requires GetCpuEnergy(env.cpuFirst) == Ok(initial)
    requires GetCpuEnergy(env.cpuSecond) == Ok(final)
    ensures CpuStage(env) == Ok(CpuWatts(EnergyDiff(initial, final)))
  {
  }

  /** The GPU stage composes its sample: with the power file found and its
      reading converted, it yields that reading. */
  lemma GpuStageOfSample(env: Environment, gpuWatts: real)
    requires Locate(env.hwmon, GPU_DEVICE, GPU_METRIC).Found?
    requires ReadGpuPowerAsWritten(env.gpuOpenOk, env.gpuRead) == Ok(gpuWatts)
    ensures GpuStage(env) == Ok(gpuWatts)
  {
  }

  /** Counter files holding "%llu\n" with a non-decreasing pair of energy
      readings give the plain difference over 10000. */
  lemma CpuStageOfCounterFiles(env: Environment, e1: nat, e2: nat)
    requires Locate(env.hwmon, CPU_DEVICE, CPU_METRIC).Found?
    requires env.cpuOpenOk && e1 <= e2 <= ULLONG_MAX
    requires env.cpuFirst == ReadOk(ToDecimal(e1) + [NEWLINE])
    requires env.cpuSecond == ReadOk(ToDecimal(e2) + [NEWLINE])
    ensures CpuStage(env) == Ok((e2 - e1) as real / 10_000.0)
  {
    assert GetCpuEnergy(env.cpuFirst) == Ok(e1) by { CpuEnergyOfCounter(e1, [NEWLINE]); }
    assert GetCpuEnergy(env.cpuSecond) == Ok(e2) by { CpuEnergyOfCounter(e2, [NEWLINE]); }
    CpuStageOfSamples(env, e1, e2);
    var w := CpuWatts(EnergyDiff(e1, e2));
    assert w == (e2 - e1) as real / 10_000.0 by { WattsOfOrderedReadings(e1, e2); }
    assert CpuStage(env) == Ok(w);
  }

  /** Without wrap-around the CPU figure is the plain difference over 10000. */
  lemma WattsOfOrderedReadings(e1: u64, e2: u64)
    requires e1 <= e2
    ensures CpuWatts(EnergyDiff(e1, e2)) == (e2 - e1) as real / 10_000.0
  {
  }

  /** A power file holding a non-negative "%ld\n" gives that many
      microwatts, in watts. */
  lemma GpuStageOfPowerFile(env: Environment, p: nat)
    requires Locate(env.hwmon, GPU_DEVICE, GPU_METRIC).Found?
    requires env.gpuOpenOk && p <= LONG_MAX
    requires env.gpuRead == ReadOk(ToDecimal(p) + [NEWLINE])
    ensures GpuStage(env) == Ok(p as real / MICRO)
  {
    GpuPowerOfCounter(p, [NEWLINE]);
    GpuStageOfSample(env, p as real / MICRO);
  }

  /** A power file holding a negative "%ld\n" gives, as written, 2^64 more
      microwatts than it holds, in watts. */
  lemma GpuStageOfNegativeFile(env: Environment, v: int)
    requires Locate(env.hwmon, GPU_DEVICE, GPU_METRIC).Found?
    requires env.gpuOpenOk && LONG_MIN <= v < 0
    requires env.gpuRead == ReadOk(FormatSigned(v) + [NEWLINE])
    ensures GpuStage(env) == Ok((v + U64_MODULUS) as real / MICRO)
  {
    AsWrittenAcceptsNegative(v, [NEWLINE]);
    GpuStageOfSample(env, (v + U64_MODULUS) as real / MICRO);
  }

  /** The run reports both figures exactly when both stages produce one. */
  lemma RunOfStages(env: Environment)
    ensures Run(env).Reported? <==> CpuStage(env).Ok? && GpuStage(env).Ok?
    ensures Run(env).Reported? ==> Run(env) == Reported(CpuStage(env).value, GpuStage(env).value)
  {
  }

  /** End to end: with both sensors present, counter files holding
      "%llu\n" with a non-decreasing pair of energy readings, and a power
      file holding a non-negative "%ld\n", the run reports the energy
      difference over 10000 and the power over 10^6. */
  lemma RunReportsReadings(env: Environment, e1: nat, e2: nat, p: nat)
    requires Locate(env.hwmon, CPU_DEVICE, CPU_METRIC).Found?
    requires Locate(env.hwmon, GPU_DEVICE, GPU_METRIC).Found?
    requires e1 <= e2 <= ULLONG_MAX && p <= LONG_MAX
    requires env.cpuOpenOk && env.gpuOpenOk
    requires env.cpuFirst == ReadOk(ToDecimal(e1) + [NEWLINE])
    requires env.cpuSecond == ReadOk(ToDecimal(e2) + [NEWLINE])
    requires env.gpuRead == ReadOk(ToDecimal(p) + [NEWLINE])
    ensures Run(env) == Reported((e2 - e1) as real / 10_000.0, p as real / MICRO)
  {
    CpuStageOfCounterFiles(env, e1, e2);
    GpuStageOfPowerFile(env, p);
    RunOfStages(env);
  }

  /** The sign test as written lets a negative GPU reading through: main
      reports it as (v + 2^64) microwatts and exits normally. */
  lemma RunReportsWrappedPower(env: Environment, e1: nat, e2: nat, v: int)
    requires Locate(env.hwmon, CPU_DEVICE, CPU_METRIC).Found?
    requires Locate(env.hwmon, GPU_DEVICE, GPU_METRIC).Found?
    requires e1 <= e2 <= ULLONG_MAX && LONG_MIN <= v < 0
    requires env.cpuOpenOk && env.gpuOpenOk
    requires env.cpuFirst == ReadOk(ToDecimal(e1) + [NEWLINE])
    requires env.cpuSecond == ReadOk(ToDecimal(e2) + [NEWLINE])
    requires env.gpuRead == ReadOk(FormatSigned(v) + [NEWLINE])
    ensures Run(env) == Reported((e2 - e1) as real / 10_000.0, (v + U64_MODULUS) as real / MICRO)
  {
    CpuStageOfCounterFiles(env, e1, e2);
    GpuStageOfNegativeFile(env, v);
    RunOfStages(env);
  }

  /** A device directory with the given name line and files. */
  function Device(dName: seq<byte>, name: seq<byte>, files: set<seq<byte>>): Entry
  {
    Entry(dName, Some(name + [NEWLINE]), files)
  }

  /** A directory with the GPU device enumerated before the CPU device. The
      GPU device also holds a file named like the CPU counter, so only its
      name line tells it apart. */
  const EXAMPLE_HWMON: seq<Entry> := [
    Device(/* "hwmon0" */ [104, 119, 109, 111, 110, 48], GPU_DEVICE, {GPU_METRIC, CPU_METRIC}),
    Device(/* "hwmon1" */ [104, 119, 109, 111, 110, 49], CPU_DEVICE, {CPU_METRIC})]

  /** The example devices' `name` files read as the device names. */
  lemma ExampleNames()
    ensures ComparedName(EXAMPLE_HWMON[0].nameFile.value) == Some(GPU_DEVICE)
    ensures ComparedName(EXAMPLE_HWMON[1].nameFile.value) == Some(CPU_DEVICE)
  {
    ComparedNameOfLine(GPU_DEVICE, []);
    ComparedNameOfLine(CPU_DEVICE, []);
    assert GPU_DEVICE + [NEWLINE] == GPU_DEVICE + [NEWLINE] + [];
    assert CPU_DEVICE + [NEWLINE] == CPU_DEVICE + [NEWLINE] + [];
  }

  /** The GPU device comes first and is found. */
  lemma ExampleGpuLocated()
    ensures Locate(Some(EXAMPLE_HWMON), GPU_DEVICE, GPU_METRIC) == Found(FullPath(EXAMPLE_HWMON[0].dName, GPU_METRIC))
  {
    ExampleNames();
    var gpu := EXAMPLE_HWMON[0];
    assert Qualifies(gpu, GPU_DEVICE, GPU_METRIC);
    FirstMatchWins([], gpu, [EXAMPLE_HWMON[1]], GPU_DEVICE, GPU_METRIC);
    assert [] + [gpu] + [EXAMPLE_HWMON[1]] == EXAMPLE_HWMON;
  }

  /** The GPU device holds a file named like the CPU counter, but its name
      line is not the CPU device's, so the search for the CPU counter
      passes over it. */
  lemma ExampleGpuPassedOver()
    ensures Locate(Some(EXAMPLE_HWMON), CPU_DEVICE, CPU_METRIC) == Locate(Some([EXAMPLE_HWMON[1]]), CPU_DEVICE, CPU_METRIC)
  {
    ExampleNames();
    var gpu := EXAMPLE_HWMON[0];
    var cpu := EXAMPLE_HWMON[1];
    assert CPU_METRIC in gpu.files && |GPU_DEVICE| != |CPU_DEVICE|;
    NameMismatchSkipped([], gpu, [cpu], CPU_DEVICE, CPU_METRIC);
    assert [] + [gpu] + [cpu] == EXAMPLE_HWMON;
    assert [] + [cpu] == [cpu];
  }

  /** The CPU device comes second; the GPU device before it is passed over. */
  lemma ExampleCpuLocated()
    ensures Locate(Some(EXAMPLE_HWMON), CPU_DEVICE, CPU_METRIC) == Found(FullPath(EXAMPLE_HWMON[1].dName, CPU_METRIC))
  {
    ExampleNames();
    var cpu := EXAMPLE_HWMON[1];
    ExampleGpuPassedOver();
    assert Qualifies(cpu, CPU_DEVICE, CPU_METRIC);
    LocateCons(cpu, [], CPU_DEVICE, CPU_METRIC);
    assert [cpu] + [] == [cpu];
  }

  /** The worked example: energy readings 10,000 microjoules apart and a
      GPU reading of 20,000,000 microwatts give 1.0 W and 20.0 W. */
  lemma RunExample(e1: nat)
    requires e1 <= ULLONG_MAX - 10_000
    ensures Run(Environment(Some(EXAMPLE_HWMON),
                            true, ReadOk(ToDecimal(e1) + [NEWLINE]), ReadOk(ToDecimal(e1 + 10_000) + [NEWLINE]),
                            true, ReadOk(ToDecimal(20_000_000) + [NEWLINE])))
      == Reported(1.0, 20.0)
  {
    ExampleGpuLocated();
    ExampleCpuLocated();
    var env := Environment(Some(EXAMPLE_HWMON),
                           true, ReadOk(ToDecimal(e1) + [NEWLINE]), ReadOk(ToDecimal(e1 + 10_000) + [NEWLINE]),
                           true, ReadOk(ToDecimal(20_000_000) + [NEWLINE]));
    RunReportsReadings(env, e1, e1 + 10_000, 20_000_000);
  }
}
