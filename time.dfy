/** The generic-timer arithmetic of arch/aarch64/time.rs: counter values of the ARM generic
  * timer, their wrapping sums and differences, and the conversions between a counter value
  * and a `Duration` of seconds and nanoseconds.
  *
  * The set-once `KERNEL_TIMER_DATA` becomes a `KernelTimerData` parameter, and the counter
  * read (`CNTPCT_EL0`) becomes the value `now`. */
module Time {
  import opened Wrappers
  import Arith

  const NANOSEC_PER_SEC: nat := 1_000_000_000
  const U64_MODULUS: nat := 0x1_0000_0000_0000_0000
  const U32_MODULUS: nat := 0x1_0000_0000

  /** `GenericTimerCounterValue`: a 64-bit counter reading. */
  type Counter = c: nat | c < U64_MODULUS

  /** `core::time::Duration`: whole seconds and the nanoseconds past them. */
  datatype Duration = Duration(secs: nat, nanos: nat)

  /** What `Duration` keeps: a 64-bit seconds field and fewer than 10^9 nanoseconds. */
  predicate DurationOk(d: Duration) {
    d.secs < U64_MODULUS && d.nanos < NANOSEC_PER_SEC
  }

  /** `Duration::as_nanos`. */
  function AsNanos(d: Duration): nat {
    d.secs * NANOSEC_PER_SEC + d.nanos
  }

  /** The derived order of `Duration`: seconds first, then nanoseconds. */
  predicate Less(a: Duration, b: Duration) {
    a.secs < b.secs || (a.secs == b.secs && a.nanos < b.nanos)
  }

  /** On well-formed durations the field-by-field order is the order of their lengths. */
  lemma LessIsShorter(a: Duration, b: Duration)
    requires DurationOk(a) && DurationOk(b)
    ensures Less(a, b) <==> AsNanos(a) < AsNanos(b)
  {
    if a.secs < b.secs {
      assert AsNanos(a) < (a.secs + 1) * NANOSEC_PER_SEC <= AsNanos(b);
    } else if b.secs < a.secs {
      assert AsNanos(b) < (b.secs + 1) * NANOSEC_PER_SEC <= AsNanos(a);
    }
  }

  /** `KernelTimerData`: the counter frequency in Hz and the counter value at kernel boot. */
  datatype KernelTimerData = KernelTimerData(frequency: nat, bootTime: Counter)

  /** `KernelTimerData::new`: the frequency must be non-zero (`NonZeroU64::new(..).unwrap()`). */
  function NewKernelTimerData(frequency: Counter, bootTime: Counter): (r: Outcome<KernelTimerData>)
    ensures r.Panic? <==> frequency == 0
    ensures r.Done? ==> r.value.frequency == frequency && r.value.bootTime == bootTime && r.value.frequency > 0
  {
    if frequency == 0 then Panic("called `Option::unwrap()` on a `None` value")
    else Done(KernelTimerData(frequency, bootTime))
  }

  /** The frequency the conversions rely on: non-zero and, as the ARM generic timer's
    * 32-bit frequency register guarantees, below 2^32. */
  predicate FrequencyOk(td: KernelTimerData) {
    0 < td.frequency < U32_MODULUS
  }

  /** `Add for GenericTimerCounterValue`: `wrapping_add`. */
  function WrappingAdd(a: Counter, b: Counter): (r: Counter)
    ensures r == if a + b < U64_MODULUS then a + b else a + b - U64_MODULUS
  {
    (a + b) % U64_MODULUS
  }

  /** `Sub for GenericTimerCounterValue`: `wrapping_sub`. */
  function WrappingSub(a: Counter, b: Counter): (r: Counter)
    ensures r == if b <= a then a - b else a + U64_MODULUS - b
  {
    (a - b) % U64_MODULUS
  }

  /** Wrapping subtraction undoes wrapping addition, and the other way round: counter
    * arithmetic is arithmetic modulo 2^64. */
  lemma SubUndoesAdd(a: Counter, b: Counter)
    ensures WrappingSub(WrappingAdd(a, b), b) == a
    ensures WrappingAdd(WrappingSub(a, b), b) == a
  {
  }

  /** The nanoseconds of a part second of `subsec` ticks: below a second, and the product
    * `subsec * 10^9` stays within 64 bits, so neither the unchecked multiplication nor the
    * cast to `u32` changes the value. */
  lemma SubsecNanos(subsec: nat, frequency: nat)
    requires subsec < frequency < U32_MODULUS
    ensures subsec * NANOSEC_PER_SEC < U64_MODULUS
    ensures 0 <= subsec * NANOSEC_PER_SEC / frequency < NANOSEC_PER_SEC
    ensures (subsec * NANOSEC_PER_SEC / frequency) % U32_MODULUS == subsec * NANOSEC_PER_SEC / frequency
  {
    var n := subsec * NANOSEC_PER_SEC / frequency;
    Arith.DivNonNegative(subsec * NANOSEC_PER_SEC, frequency);
    Arith.RoundDown(subsec * NANOSEC_PER_SEC, frequency);
    if n >= NANOSEC_PER_SEC {
      Arith.MulLeRight(NANOSEC_PER_SEC, n, frequency);
      assert false;
    }
    Arith.DivModUnique(n, U32_MODULUS, 0, n);
  }

  /** Whole seconds plus the rounded-down part second are the rounded-down whole. */
  lemma SplitSeconds(c: nat, frequency: nat)
    requires 0 < frequency
    ensures 0 <= c / frequency
    ensures (c / frequency) * NANOSEC_PER_SEC + (c % frequency) * NANOSEC_PER_SEC / frequency
            == c * NANOSEC_PER_SEC / frequency
  {
    Arith.DivNonNegative(c, frequency);
    var q, s := c / frequency, c % frequency;
    var n, m := s * NANOSEC_PER_SEC / frequency, s * NANOSEC_PER_SEC % frequency;
    assert c == q * frequency + s;
    assert s * NANOSEC_PER_SEC == n * frequency + m;
    assert c * NANOSEC_PER_SEC == (q * NANOSEC_PER_SEC + n) * frequency + m;
    Arith.DivModUnique(c * NANOSEC_PER_SEC, frequency, q * NANOSEC_PER_SEC + n, m);
  }

  /** The nanoseconds field for `subsec` ticks past the whole seconds: the unchecked product
    * `subsec * 10^9`, divided by the frequency and cast to `u32`. */
  function PartNanos(subsec: nat, frequency: nat): (n: nat)
    requires subsec < frequency < U32_MODULUS
    ensures n == subsec * NANOSEC_PER_SEC / frequency < NANOSEC_PER_SEC
  {
    SubsecNanos(subsec, frequency);
    (subsec * NANOSEC_PER_SEC / frequency) % U32_MODULUS
  }

  /** `From<GenericTimerCounterValue> for Duration`: counter value 0 is `Duration::ZERO`;
    * otherwise the whole seconds are `c / freq` and the nanoseconds `(c % freq) * 10^9 / freq`.
    * The result is a well-formed duration of `c` ticks in nanoseconds, rounded down. */
  function ToDuration(td: KernelTimerData, c: Counter): (d: Duration)
    requires FrequencyOk(td)
    ensures DurationOk(d)
    ensures c == 0 ==> d == Duration(0, 0)
    ensures d.secs == c / td.frequency
    ensures AsNanos(d) == c * NANOSEC_PER_SEC / td.frequency
  {
    if c == 0 then Duration(0, 0)
    else
      SplitSeconds(c, td.frequency);
      Arith.DivNonNegative(c, td.frequency);
      Duration(c / td.frequency, PartNanos(c % td.frequency, td.frequency))
  }

  /** More ticks are never a shorter duration. */
  lemma ToDurationMonotone(td: KernelTimerData, a: Counter, b: Counter)
    requires FrequencyOk(td) && a <= b
    ensures AsNanos(ToDuration(td, a)) <= AsNanos(ToDuration(td, b))
  {
    Arith.DivMonotone(a * NANOSEC_PER_SEC, b * NANOSEC_PER_SEC, td.frequency);
  }

  /** `resolution`: the duration of one tick, `10^9 / freq` nanoseconds. */
  function Resolution(td: KernelTimerData): (r: Duration)
    requires FrequencyOk(td)
    ensures DurationOk(r) && AsNanos(r) == NANOSEC_PER_SEC / td.frequency
  {
    ToDuration(td, 1)
  }

  /** `max_duration`: the duration of `u64::MAX` ticks. */
  function MaxDuration(td: KernelTimerData): (r: Duration)
    requires FrequencyOk(td)
    ensures DurationOk(r) && AsNanos(r) == (U64_MODULUS - 1) * NANOSEC_PER_SEC / td.frequency
  {
    ToDuration(td, U64_MODULUS - 1)
  }

  /** The counter value of a duration of at most `max_duration`: the product with the
    * frequency stays within 128 bits, and the rounded-down quotient within 64 bits. */
  lemma CounterFits(td: KernelTimerData, d: Duration)
    requires FrequencyOk(td) && DurationOk(d) && !Less(MaxDuration(td), d)
    ensures AsNanos(d) * td.frequency <= (U64_MODULUS - 1) * NANOSEC_PER_SEC
    ensures AsNanos(d) * td.frequency / NANOSEC_PER_SEC < U64_MODULUS
  {
    var top := (U64_MODULUS - 1) * NANOSEC_PER_SEC;
    LessIsShorter(MaxDuration(td), d);
    assert AsNanos(d) <= top / td.frequency;
    Arith.MulLeRight(AsNanos(d), top / td.frequency, td.frequency);
    Arith.RoundDown(top, td.frequency);
    Arith.DivMonotone(AsNanos(d) * td.frequency, top, NANOSEC_PER_SEC);
  }

  /** The unchecked product `as_nanos * freq`, divided by 10^9 and cast to `u64`: the number
    * of whole ticks in it, when that fits in 64 bits. */
  function Ticks(product: nat): (t: Counter)
    requires product / NANOSEC_PER_SEC < U64_MODULUS
    ensures t * NANOSEC_PER_SEC <= product < (t + 1) * NANOSEC_PER_SEC
  {
    var q := product / NANOSEC_PER_SEC;
    Arith.DivModUnique(q, U64_MODULUS, 0, q);
    q % U64_MODULUS
  }

  /** `TryFrom<Duration> for GenericTimerCounterValue`: durations shorter than one tick give
    * counter 0, durations longer than `max_duration` are refused, and every other duration
    * gives `as_nanos * freq / 10^9` ticks, rounded down. */
  function TryFromDuration(td: KernelTimerData, d: Duration): (r: Result<Counter, string>)
    requires FrequencyOk(td) && DurationOk(d)
    ensures Less(d, Resolution(td)) ==> r == Ok(0)
    ensures !Less(d, Resolution(td)) && Less(MaxDuration(td), d) ==> r == Err("duration too large")
    ensures !Less(d, Resolution(td)) && !Less(MaxDuration(td), d) ==>
      r.Ok? && r.value * NANOSEC_PER_SEC <= AsNanos(d) * td.frequency < (r.value + 1) * NANOSEC_PER_SEC
  {
    if Less(d, Resolution(td)) then Ok(0)
    else if Less(MaxDuration(td), d) then Err("duration too large")
    else
      CounterFits(td, d);
      Ok(Ticks(AsNanos(d) * td.frequency))
  }

  /** Converting a duration to ticks and back never gives a longer duration. */
  lemma DurationRoundTrip(td: KernelTimerData, d: Duration)
    requires FrequencyOk(td) && DurationOk(d) && TryFromDuration(td, d).Ok?
    ensures AsNanos(ToDuration(td, TryFromDuration(td, d).value)) <= AsNanos(d)
  {
    var c := TryFromDuration(td, d).value;
    if c > 0 {
      assert c * NANOSEC_PER_SEC <= AsNanos(d) * td.frequency;
      Arith.DivMonotone(c * NANOSEC_PER_SEC, AsNanos(d) * td.frequency, td.frequency);
      Arith.MultipleMod(AsNanos(d), td.frequency);
    }
  }

  /** When the frequency divides 10^9, every tick is a whole number of nanoseconds. */
  lemma WholeNanos(c: nat, frequency: nat)
    requires 0 < frequency && NANOSEC_PER_SEC % frequency == 0
    ensures (c * NANOSEC_PER_SEC / frequency) * frequency == c * NANOSEC_PER_SEC
  {
    var k := NANOSEC_PER_SEC / frequency;
    Arith.RoundDown(NANOSEC_PER_SEC, frequency);
    assert c * NANOSEC_PER_SEC == c * (k * frequency);
    assert c * (k * frequency) == (c * k) * frequency;
    Arith.MultipleMod(c * k, frequency);
  }

  /** Converting ticks to a duration and back is always accepted and never gives more ticks;
    * at a frequency of at most 1 GHz it loses at most one tick, and none when the frequency
    * divides 10^9. */
  lemma CounterRoundTrip(td: KernelTimerData, c: Counter)
    requires FrequencyOk(td)
    ensures TryFromDuration(td, ToDuration(td, c)).Ok?
    ensures TryFromDuration(td, ToDuration(td, c)).value <= c
    ensures td.frequency <= NANOSEC_PER_SEC ==> TryFromDuration(td, ToDuration(td, c)).value + 1 >= c
    ensures NANOSEC_PER_SEC % td.frequency == 0 ==> TryFromDuration(td, ToDuration(td, c)).value == c
  {
    var f := td.frequency;
    var d := ToDuration(td, c);
    var n := c * NANOSEC_PER_SEC / f;
    LessIsShorter(MaxDuration(td), d);
    ToDurationMonotone(td, c, U64_MODULUS - 1);
    LessIsShorter(d, Resolution(td));
    if c == 0 {
      return;
    }
    ToDurationMonotone(td, 1, c);
    var r := TryFromDuration(td, d).value;
    assert r * NANOSEC_PER_SEC <= n * f < (r + 1) * NANOSEC_PER_SEC;
    Arith.RoundDown(c * NANOSEC_PER_SEC, f);
    assert n * f <= c * NANOSEC_PER_SEC < n * f + f;
    assert r <= c;
    if f <= NANOSEC_PER_SEC {
      assert r + 1 >= c;
    }
    if NANOSEC_PER_SEC % f == 0 {
      WholeNanos(c, f);
    }
  }

  /** `uptime_kernel`: the ticks since boot, by wrapping subtraction from the counter value
    * `now`, as a duration. */
  function UptimeKernel(td: KernelTimerData, now: Counter): (r: Duration)
    requires FrequencyOk(td)
    ensures DurationOk(r)
    ensures AsNanos(r) ==
      (if td.bootTime <= now then now - td.bootTime else now + U64_MODULUS - td.bootTime)
      * NANOSEC_PER_SEC / td.frequency
  {
    ToDuration(td, WrappingSub(now, td.bootTime))
  }

  /** The uptime `elapsed` ticks after boot is the duration of `elapsed` ticks, also when the
    * counter wrapped around in between. */
  lemma UptimeAfterElapsed(td: KernelTimerData, elapsed: Counter)
    requires FrequencyOk(td)
    ensures UptimeKernel(td, WrappingAdd(td.bootTime, elapsed)) == ToDuration(td, elapsed)
  {
    SubUndoesAdd(elapsed, td.bootTime);
    assert WrappingAdd(td.bootTime, elapsed) == WrappingAdd(elapsed, td.bootTime);
  }
}
