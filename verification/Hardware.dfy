/** Resource samples, limits, and when a sample is unsafe. */
module Hardware {
  import opened Prelude

  datatype ResourceSample = ResourceSample(
    ram: real, swap: real, gpuMemory: int, gpuTemperature: int, gpuPower: real, gpuUtilization: int,
    gpuClock: Option<int>, windowsRam: Option<real>, windowsSwap: Option<real>)

  datatype ResourceLimits = ResourceLimits(
    minRam: real, maxSwap: real, maxGpuMemory: int, maxGpuTemperature: int, maxGpuPower: real, maxGpuClock: Option<int>)

  /** One line of the sensor, split and parsed: malformed, or six finite numbers. */
  datatype Line = Malformed | Fields(memory: real, temperature: real, average: real, instant: real, utilization: real, clock: real)

  predicate Integral(r: real) { r == r.Floor as real }

  predicate ValidLine(line: Line) {
    && line.Fields?
    && line.memory >= 0.0 && line.temperature >= 0.0 && line.average >= 0.0 && line.instant >= 0.0
    && 0.0 <= line.utilization <= 100.0 && line.clock >= 0.0
    && Integral(line.memory) && Integral(line.temperature) && Integral(line.utilization) && Integral(line.clock)
  }

  function MaxReal(a: real, b: real): real { if b > a then b else a }
  function MinReal(a: real, b: real): real { if b < a then b else a }
  function MaxInt(a: int, b: int): int { if b > a then b else a }

  /** `parse_gpu_sample`. */
  function ParseGpuSample(line: Line): Result<ResourceSample> {
    if !ValidLine(line) then Err("Invalid GPU sensor value")
    else Ok(ResourceSample(0.0, 0.0, line.memory.Floor, line.temperature.Floor, MaxReal(line.average, line.instant),
                           line.utilization.Floor, Some(line.clock.Floor), None, None))
  }

  /** Six readings, none negative, all but power whole, utilization a percentage. */
  ghost predicate GoodLine(line: Line) {
    && line.Fields? && line.average >= 0.0 && line.instant >= 0.0
    && exists m: nat, t: nat, u: nat, c: nat :: Reads(line, m, t, u, c) && u <= 100
  }

  /** The whole readings of memory, temperature, utilization and clock. */
  predicate Reads(line: Line, m: int, t: int, u: int, c: int) {
    && line.Fields?
    && line.memory == m as real && line.temperature == t as real && line.utilization == u as real && line.clock == c as real
  }

  /** A line is taken exactly when it is good, and every field of the sample is the reading
      of that name; the power is the higher of the two. */
  lemma SampleReadsLine(line: Line)
    ensures ParseGpuSample(line).Ok? <==> GoodLine(line)
    ensures ParseGpuSample(line).Ok? ==>
      var s := ParseGpuSample(line).value;
      && s.gpuClock.Some? && Reads(line, s.gpuMemory, s.gpuTemperature, s.gpuUtilization, s.gpuClock.value)
      && s.gpuPower >= line.average && s.gpuPower >= line.instant && (s.gpuPower == line.average || s.gpuPower == line.instant)
  {
    if ParseGpuSample(line).Ok? {
      var s := ParseGpuSample(line).value;
      assert Reads(line, s.gpuMemory, s.gpuTemperature, s.gpuUtilization, s.gpuClock.value);
    }
    if GoodLine(line) {
      var m: nat, t: nat, u: nat, c: nat :| Reads(line, m, t, u, c) && u <= 100;
      assert line.memory.Floor == m && line.temperature.Floor == t && line.utilization.Floor == u && line.clock.Floor == c;
    }
  }

  /** A reading of the line is at or over its limit, or the clock over its cap. */
  predicate LineBreach(line: Line, limits: ResourceLimits) {
    line.Fields? &&
    (|| line.memory >= limits.maxGpuMemory as real || line.temperature >= limits.maxGpuTemperature as real
     || line.average >= limits.maxGpuPower || line.instant >= limits.maxGpuPower
     || (limits.maxGpuClock.Some? && line.clock > limits.maxGpuClock.value as real))
  }

  lemma LineBreaches(line: Line, limits: ResourceLimits)
    requires GoodLine(line)
    ensures ParseGpuSample(line).Ok? && (LineBreach(line, limits) <==> GpuBreach(ParseGpuSample(line).value, limits))
  {
    SampleReadsLine(line);
  }

  /** A GPU limit is reached or a clock cap exceeded. */
  predicate GpuBreach(s: ResourceSample, limits: ResourceLimits) {
    || s.gpuMemory >= limits.maxGpuMemory || s.gpuTemperature >= limits.maxGpuTemperature || s.gpuPower >= limits.maxGpuPower
    || (limits.maxGpuClock.Some? && s.gpuClock.Some? && s.gpuClock.value > limits.maxGpuClock.value)
  }

  /** `unsafe_reason`: the first check that fails, in the order of the code. */
  function UnsafeReason(s: ResourceSample, limits: ResourceLimits): Option<string> {
    if s.ram < 0.0 || s.swap < 0.0 || s.gpuMemory < 0 || s.gpuTemperature < 0 || s.gpuPower < 0.0 || s.gpuUtilization < 0 then
      Some("monitor failure: invalid resource observation")
    else if s.gpuUtilization > 100 then Some("monitor failure: invalid GPU utilization")
    else if limits.maxGpuClock.Some? && (s.gpuClock.None? || s.gpuClock.value < 0) then
      Some("monitor failure: GPU clock observation missing or invalid")
    else if limits.maxGpuClock.Some? && s.gpuClock.value > limits.maxGpuClock.value then Some("GPU clock exceeds cap")
    else if s.ram < limits.minRam then Some("available RAM")
    else if s.swap >= limits.maxSwap then Some("swap")
    else if s.gpuMemory >= limits.maxGpuMemory then Some("VRAM")
    else if s.gpuTemperature >= limits.maxGpuTemperature then Some("GPU temperature")
    else if s.gpuPower >= limits.maxGpuPower then Some("GPU power")
    else None
  }

  /** A sample is safe exactly when it is a possible reading and within every limit. */
  lemma SafeExactly(s: ResourceSample, limits: ResourceLimits)
    ensures UnsafeReason(s, limits).None? <==>
      && s.ram >= 0.0 && s.swap >= 0.0 && s.gpuMemory >= 0 && s.gpuTemperature >= 0 && s.gpuPower >= 0.0 && 0 <= s.gpuUtilization <= 100
      && s.ram >= limits.minRam && s.swap < limits.maxSwap
      && s.gpuMemory < limits.maxGpuMemory && s.gpuTemperature < limits.maxGpuTemperature && s.gpuPower < limits.maxGpuPower
      && (limits.maxGpuClock.Some? ==> s.gpuClock.Some? && 0 <= s.gpuClock.value <= limits.maxGpuClock.value)
  {
  }

  lemma SafeMeansNoBreach(s: ResourceSample, limits: ResourceLimits)
    ensures UnsafeReason(s, limits).None? ==> !GpuBreach(s, limits)
  {
  }
}
