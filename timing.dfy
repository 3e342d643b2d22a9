/**
 * Conversions from cycle counts to time.  Every quantity is an unsigned 64-bit
 * integer, so subtraction and multiplication wrap modulo 2^64; an unknown CPU
 * frequency (0 kHz) ends the process, which the model returns as `None`.
 */
module Timing {
  import opened Wrappers

  const U64Modulus: nat := 0x1_0000_0000_0000_0000

  type U64 = x: nat | x < U64Modulus

  /** `diff`: `finish - start` modulo 2^64. */
  function Diff(start: U64, finish: U64): U64
  {
    if finish >= start then finish - start else finish + U64Modulus - start
  }

  /** The cycles elapsed are recovered even when the counter wraps between the
      two readings. */
  lemma DiffAfter(start: U64, k: U64)
    ensures Diff(start, (start + k) % U64Modulus) == k
  {
    if start + k >= U64Modulus {
      assert (start + k) % U64Modulus == start + k - U64Modulus;
    } else {
      assert (start + k) % U64Modulus == start + k;
    }
  }

  /** `seconds_type`. */
  datatype Seconds = Seconds(wholePart: U64, fractionalPart: U64)

  /** `seconds_of`: whole seconds and milliseconds of the cycle count. */
  function SecondsOf(cpuFrequencyKhz: U64, cycles: U64): (t: Option<Seconds>)
    ensures t.None? <==> cpuFrequencyKhz == 0
    ensures t.Some? ==> t.value.fractionalPart < 1000
    ensures t.Some? ==> t.value.wholePart * 1000 + t.value.fractionalPart == cycles / cpuFrequencyKhz
  {
    if cpuFrequencyKhz == 0 then None
    else
      var cpms := cycles / cpuFrequencyKhz;
      var whole := cpms / 1000;
      Some(Seconds(whole, cpms - 1000 * whole))
  }

  /** `10000l * cycles / cpu_frequency_khz` as written in the header, the product
      wrapping modulo 2^64. */
  function NanosecondsOfAsWritten(cpuFrequencyKhz: U64, cycles: U64): (ns: Option<U64>)
    ensures ns.None? <==> cpuFrequencyKhz == 0
  {
    if cpuFrequencyKhz == 0 then None
    else Some(((10000 * cycles) % U64Modulus) / cpuFrequencyKhz)
  }

  /** At 1 kHz, 1000 cycles are one second, 10^9 nanoseconds; the header's
      conversion gives 10^7, where the runtime's own conversion gives 10^9. */
  lemma NanosecondsOfAsWrittenExample()
    ensures NanosecondsOfAsWritten(1, 1000) == Some(10000000)
    ensures NanosecondsOf(1, 1000) == Some(1000000000)
    ensures SecondsOf(1, 1000) == Some(Seconds(1, 0))
  {
  }

  /** The conversion the runtime uses elsewhere: `1000000l * cycles`, wrapping,
      divided by the frequency in kHz. */
  function NanosecondsOf(cpuFrequencyKhz: U64, cycles: U64): (ns: Option<U64>)
    ensures ns.None? <==> cpuFrequencyKhz == 0
  {
    if cpuFrequencyKhz == 0 then None
    else Some(((1000000 * cycles) % U64Modulus) / cpuFrequencyKhz)
  }

  /** When the product does not wrap, the nanoseconds are a whole number of
      milliseconds apart from the rest below one millisecond: dividing them by 10^6
      gives the millisecond count `seconds_of` splits into seconds. */
  lemma NanosecondsAgreeWithSeconds(cpuFrequencyKhz: U64, cycles: U64)
    requires cpuFrequencyKhz > 0 && 1000000 * cycles < U64Modulus
    ensures NanosecondsOf(cpuFrequencyKhz, cycles).value / 1000000 == cycles / cpuFrequencyKhz
    ensures NanosecondsOf(cpuFrequencyKhz, cycles).value / 1000000000 == SecondsOf(cpuFrequencyKhz, cycles).value.wholePart
  {
    var q, t := ScaledQuotient(cycles, cpuFrequencyKhz);
    var ns := NanosecondsWithoutWrap(cpuFrequencyKhz, cycles);
    Milliseconds(ns, q, t);
    SecondsWholePart(cpuFrequencyKhz, cycles);
  }

  /** Below the wrap-around the conversion is the plain quotient. */
  lemma NanosecondsWithoutWrap(cpuFrequencyKhz: U64, cycles: U64) returns (ns: nat)
    requires cpuFrequencyKhz > 0 && 1000000 * cycles < U64Modulus
    ensures ns == (1000000 * cycles) / cpuFrequencyKhz
    ensures NanosecondsOf(cpuFrequencyKhz, cycles) == Some(ns)
  {
    var p := 1000000 * cycles;
    assert p % U64Modulus == p;
    ns := p / cpuFrequencyKhz;
  }

  /** The whole seconds are the milliseconds divided by 1000. */
  lemma SecondsWholePart(cpuFrequencyKhz: U64, cycles: U64)
    requires cpuFrequencyKhz > 0
    ensures SecondsOf(cpuFrequencyKhz, cycles).value.wholePart == (cycles / cpuFrequencyKhz) / 1000
  {
  }

  /** Nanoseconds made of `q` milliseconds and less than one more. */
  lemma Milliseconds(ns: nat, q: nat, t: nat)
    requires t < 1000000 && ns == 1000000 * q + t
    ensures ns / 1000000 == q
    ensures ns / 1000000000 == q / 1000
  {
    DivUnique(ns, 1000000, q, t);
    var w, f := q / 1000, q % 1000;
    assert ns == w * 1000000000 + (1000000 * f + t);
    DivUnique(ns, 1000000000, w, 1000000 * f + t);
  }

  /** Scaling the dividend by 10^6 scales the quotient by 10^6 and adds the scaled
      remainder's quotient, which is below 10^6. */
  lemma ScaledQuotient(cycles: nat, khz: nat) returns (q: nat, t: nat)
    requires khz > 0
    ensures q == cycles / khz && t < 1000000
    ensures (1000000 * cycles) / khz == 1000000 * q + t
  {
    q := cycles / khz;
    var r := cycles % khz;
    t := (1000000 * r) / khz;
    var r' := (1000000 * r) % khz;
    assert 1000000 * r == t * khz + r';
    if t >= 1000000 {
      MulAtLeast(t, khz, 1000000);
      assert false;
    }
    assert cycles == q * khz + r;
    assert 1000000 * cycles == (1000000 * q) * khz + 1000000 * r by {
      assert 1000000 * (q * khz) == (1000000 * q) * khz;
    }
    assert 1000000 * cycles == (1000000 * q + t) * khz + r';
    DivUnique(1000000 * cycles, khz, 1000000 * q + t, r');
  }

  /** `k >= m` makes `k * b >= m * b`. */
  lemma MulAtLeast(k: nat, b: nat, m: nat)
    requires k >= m
    ensures k * b >= m * b
  {
    assert k * b == m * b + (k - m) * b;
  }

  /** Quotient and remainder are unique. */
  lemma DivUnique(n: nat, b: nat, q: nat, r: nat)
    requires b > 0 && r < b && n == q * b + r
    ensures n / b == q
  {
    var q', r' := n / b, n % b;
    assert n == q' * b + r';
    if q' > q {
      MulAtLeast(q', b, q + 1);
      assert false;
    } else if q' < q {
      MulAtLeast(q, b, q' + 1);
      assert false;
    }
  }
}
