/** The two samplers, get_cpu_energy and read_gpu_power, and the unit
    arithmetic main applies to their readings. A read is modelled by what
    the system call saw: an error, or the file's bytes, of which the call
    returns at most READ_LIMIT. */
module Sampler {
  import opened Wrappers
  import opened Bytes
  import opened Decimal

  /** The reads ask for one byte fewer than BUFFER_SIZE, leaving room for a NUL. */
  const READ_LIMIT: nat := BUFFER_SIZE - 1
  const MICRO: real := 1_000_000.0
  /** The nominal 10 ms between the two energy readings, in seconds. */
  const SAMPLE_INTERVAL: real := 0.01

  datatype ReadOutcome = ReadError | ReadOk(fileBytes: seq<byte>)

  /** Why a sampler gives up: the open failed, the read returned no bytes,
      or the bytes did not convert. */
  datatype SampleError = OpenFailed | ReadFailed | ParseFailed

  /** The return value of pread(fd, buffer, BUFFER_SIZE - 1, 0) or read(fd, buffer, BUFFER_SIZE - 1). */
  function BytesRead(read: ReadOutcome): (n: int)
    ensures n <= READ_LIMIT
    ensures n <= 0 <==> read.ReadError? || read.fileBytes == []
  {
    match read
    case ReadError => -1
    case ReadOk(bytes) => Min(READ_LIMIT, |bytes|)
  }

  /** The bytes in `buffer` before the NUL written at buffer[bytes_read].
      Conversion stops at that NUL as at any other non-digit, so scanning
      these bytes is scanning the C string. */
  function Buffer(read: ReadOutcome): (b: seq<byte>)
    requires read.ReadOk?
    ensures |b| == BytesRead(read) && b <= read.fileBytes
  {
    read.fileBytes[..Min(READ_LIMIT, |read.fileBytes|)]
  }

  /** A reading shorter than the buffer arrives whole, followed by as much
      of the rest of the file as fits. */
  lemma BufferOfShortReading(payload: seq<byte>, tail: seq<byte>)
    requires |payload| < READ_LIMIT
    requires tail == [] || !IsDigit(tail[0])
    ensures var b := Buffer(ReadOk(payload + tail)) ;
      b == payload + b[|payload|..] && (b[|payload|..] == [] || !IsDigit(b[|payload|]))
  {
    var b := Buffer(ReadOk(payload + tail));
    assert b[..|payload|] == payload;
    if tail != [] {
      assert b[|payload|] == tail[0];
    }
  }

  /** get_cpu_energy: one positioned read of the energy counter, converted
      with strtoull. It fails on a read of no bytes and when nothing
      converts; otherwise it yields the counter value. */
  function GetCpuEnergy(read: ReadOutcome): (r: Result<u64, SampleError>)
    ensures r == Err(ReadFailed) <==> read.ReadError? || read.fileBytes == []
    ensures r != Err(OpenFailed)
    ensures r.Ok? ==> r.value == Strtoull(Buffer(read)).value
  {
    if BytesRead(read) <= 0 then Err(ReadFailed)
    else
      var conversion := Strtoull(Buffer(read));
      if conversion.consumed == 0 then Err(ParseFailed)
      else Ok(conversion.value)
  }

  /** get_cpu_energy reports a parse failure exactly when bytes were read
      but they do not start with a number. */
  lemma CpuEnergyParseFailure(read: ReadOutcome)
    ensures GetCpuEnergy(read) == Err(ParseFailed) <==>
      read.ReadOk? && read.fileBytes != [] && !StartsWithNumber(Buffer(read))
  {
    if read.ReadOk? {
      ConversionEnd(Buffer(read));
    }
  }

  /** A counter file holding "%llu\n" (or followed by any non-digit) reads
      as its value. */
  lemma CpuEnergyOfCounter(n: nat, tail: seq<byte>)
    requires n <= ULLONG_MAX
    requires tail == [] || !IsDigit(tail[0])
    ensures GetCpuEnergy(ReadOk(ToDecimal(n) + tail)) == Ok(n)
  {
    ToDecimalOfU64(n);
    var b := Buffer(ReadOk(ToDecimal(n) + tail));
    BufferOfShortReading(ToDecimal(n), tail);
    StrtoullOfDecimal(n, b[|ToDecimal(n)|..]);
  }

  /** A counter file holding "-n" reads as 2^64 - n: strtoull negates
      modulo 2^64 rather than failing. */
  lemma CpuEnergyOfNegative(n: nat, tail: seq<byte>)
    requires 0 < n <= ULLONG_MAX
    requires tail == [] || !IsDigit(tail[0])
    ensures GetCpuEnergy(ReadOk([MINUS] + ToDecimal(n) + tail)) == Ok(U64_MODULUS - n)
  {
    ToDecimalOfU64(n);
    var text := [MINUS] + ToDecimal(n);
    assert [MINUS] + ToDecimal(n) + tail == text + tail;
    var b := Buffer(ReadOk(text + tail));
    BufferOfShortReading(text, tail);
    assert b == text + b[|text|..];
    StrtoullOfNegative(n, b[|text|..]);
    ConversionEnd(b);
  }

  /** size_t energy_diff = final_energy - initial_energy: unsigned
      subtraction, which wraps modulo 2^64. */
  function EnergyDiff(initial: u64, final: u64): (d: u64)
    ensures (initial + d) % U64_MODULUS == final
    ensures initial <= final ==> d == final - initial
    ensures final < initial ==> d == U64_MODULUS - (initial - final)
  {
    (final - initial) % U64_MODULUS
  }

  /** CPU power: the energy difference in joules over the sampling interval.
      With microjoules and 10 ms this is the difference divided by 10000. */
  function CpuWatts(energyDiff: u64): (w: real)
    ensures w == energyDiff as real / 10_000.0
    ensures w >= 0.0
  {
    (energyDiff as real / MICRO) / SAMPLE_INTERVAL
  }

  /** The conversion `size_t power_micro_watts = strtol(...)`: a long stored
      in an unsigned 64-bit variable, negative values wrapping. */
  function ToSizeT(v: i64): (r: u64)
    ensures v >= 0 ==> r == v
    ensures v < 0 ==> r == v + U64_MODULUS
  {
    v % U64_MODULUS
  }

  /** read_gpu_power as written. The test `power_micro_watts < 0` is on an
      unsigned variable, so it never holds and a negative reading is
      reported as a huge power. */
  function ReadGpuPowerAsWritten(openOk: bool, read: ReadOutcome): (r: Result<real, SampleError>)
    ensures r == Err(OpenFailed) <==> !openOk
    ensures r == Err(ReadFailed) <==> openOk && (read.ReadError? || read.fileBytes == [])
    ensures r.Ok? ==> r.value >= 0.0
    ensures r.Ok? ==> r.value == ToSizeT(Strtol(Buffer(read)).value) as real / MICRO
  {
    if !openOk then Err(OpenFailed)
    else if BytesRead(read) <= 0 then Err(ReadFailed)
    else
      var conversion := Strtol(Buffer(read));
      var microWatts := ToSizeT(conversion.value);
      if conversion.consumed == 0 || microWatts < 0 then Err(ParseFailed)
      else Ok(microWatts as real / MICRO)
  }

  /** As written, read_gpu_power reports a parse failure exactly when bytes
      were read but they do not start with a number: every conversion that
      consumes something is accepted. */
  lemma AsWrittenParseFailure(openOk: bool, read: ReadOutcome)
    ensures ReadGpuPowerAsWritten(openOk, read) == Err(ParseFailed) <==>
      openOk && read.ReadOk? && read.fileBytes != [] && !StartsWithNumber(Buffer(read))
  {
    if read.ReadOk? {
      ConversionEnd(Buffer(read));
    }
  }

  /** The as-written sampler accepts any negative reading: "-5" becomes
      (2^64 - 5) microwatts. */
  lemma AsWrittenAcceptsNegative(v: int, tail: seq<byte>)
    requires LONG_MIN <= v < 0
    requires tail == [] || !IsDigit(tail[0])
    ensures ReadGpuPowerAsWritten(true, ReadOk(FormatSigned(v) + tail)) == Ok((v + U64_MODULUS) as real / MICRO)
  {
    GpuReadingOfSigned(v, tail);
  }

  /** read_gpu_power with the sign test done on the signed value, where it
      can hold: the open, the read, the conversion and the sign can each
      fail it, and a reported power is never negative. */
  function ReadGpuPower(openOk: bool, read: ReadOutcome): (r: Result<real, SampleError>)
    ensures r == Err(OpenFailed) <==> !openOk
    ensures r == Err(ReadFailed) <==> openOk && (read.ReadError? || read.fileBytes == [])
    ensures r.Ok? ==> r.value >= 0.0
    ensures r.Ok? ==> r.value == Strtol(Buffer(read)).value as real / MICRO
  {
    if !openOk then Err(OpenFailed)
    else if BytesRead(read) <= 0 then Err(ReadFailed)
    else
      var conversion := Strtol(Buffer(read));
      if conversion.consumed == 0 || conversion.value < 0 then Err(ParseFailed)
      else Ok(conversion.value as real / MICRO)
  }

  /** read_gpu_power reports a parse failure exactly when bytes were read
      but they do not start with a number, or the number is negative. */
  lemma GpuPowerParseFailure(openOk: bool, read: ReadOutcome)
    ensures ReadGpuPower(openOk, read) == Err(ParseFailed) <==>
      openOk && read.ReadOk? && read.fileBytes != [] &&
      (!StartsWithNumber(Buffer(read)) || Strtol(Buffer(read)).value < 0)
  {
    if read.ReadOk? {
      ConversionEnd(Buffer(read));
    }
  }

  /** A power file holding a signed decimal reading converts to it. */
  lemma GpuReadingOfSigned(v: int, tail: seq<byte>)
    requires LONG_MIN <= v <= LONG_MAX
    requires tail == [] || !IsDigit(tail[0])
    ensures Strtol(Buffer(ReadOk(FormatSigned(v) + tail))) == Conversion(v, |FormatSigned(v)|)
  {
    if v < 0 {
      ToDecimalOfU64(-v);
    } else {
      ToDecimalOfU64(v);
    }
    var b := Buffer(ReadOk(FormatSigned(v) + tail));
    BufferOfShortReading(FormatSigned(v), tail);
    StrtolOfSigned(v, b[|FormatSigned(v)|..]);
  }

  /** A power file holding "%ld\n" with a non-negative value reads as that
      many microwatts, in watts, as written and corrected alike. */
  lemma GpuPowerOfCounter(p: int, tail: seq<byte>)
    requires 0 <= p <= LONG_MAX
    requires tail == [] || !IsDigit(tail[0])
    ensures ReadGpuPowerAsWritten(true, ReadOk(ToDecimal(p) + tail)) == Ok(p as real / MICRO)
    ensures ReadGpuPower(true, ReadOk(ToDecimal(p) + tail)) == Ok(p as real / MICRO)
  {
    GpuReadingOfSigned(p, tail);
  }

  /** A negative reading is rejected. */
  lemma GpuRejectsNegative(v: int, tail: seq<byte>)
    requires LONG_MIN <= v < 0
    requires tail == [] || !IsDigit(tail[0])
    ensures ReadGpuPower(true, ReadOk(FormatSigned(v) + tail)) == Err(ParseFailed)
  {
    GpuReadingOfSigned(v, tail);
  }

  /** The correction changes nothing but the negative readings. */
  lemma CorrectionOnlyRejectsNegative(openOk: bool, read: ReadOutcome)
    ensures ReadGpuPower(openOk, read) != ReadGpuPowerAsWritten(openOk, read) <==>
      openOk && read.ReadOk? && read.fileBytes != [] && StartsWithNumber(Buffer(read)) && Strtol(Buffer(read)).value < 0
  {
    if openOk && read.ReadOk? && read.fileBytes != [] {
      ConversionEnd(Buffer(read));
      var v := Strtol(Buffer(read)).value;
      if v < 0 {
        assert (v + U64_MODULUS) as real / MICRO > 0.0;
      }
    }
  }
}
