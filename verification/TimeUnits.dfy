/** Expiration times on the wire (internal/codec/timeunits.go): a unit code for each half, then the counts. */
module TimeUnits {
  import opened Words
  import opened Varint
  import opened Wire
  import opened Streams

  const MICROSECOND: int64 := 1_000
  const MILLISECOND: int64 := 1_000_000
  const SECOND: int64 := 1_000_000_000
  const MINUTE: int64 := 60_000_000_000
  const HOUR: int64 := 3_600_000_000_000

  const UNIT_SECONDS: byte := 0
  const UNIT_MILLISECONDS: byte := 1
  const UNIT_NANOSECONDS: byte := 2
  const UNIT_MICROSECONDS: byte := 3
  const UNIT_MINUTES: byte := 4
  const UNIT_HOURS: byte := 5
  const UNIT_DEFAULT: byte := 7
  const UNIT_INFINITE: byte := 8

  /** The documented length of each unit in nanoseconds (code 6 is days). */
  function UnitLength(code: byte): nat
    requires code < UNIT_DEFAULT
  {
    [SECOND, MILLISECOND, 1, MICROSECOND, MINUTE, HOUR, 24 * HOUR][code]
  }

  /** The unit code and count for a duration in nanoseconds. */
  function EncodeDuration(d: int64): (r: (byte, int64))
    ensures r.0 <= UNIT_INFINITE
  {
    if d == 0 then (UNIT_DEFAULT, 0)
    else if d < 0 then (UNIT_INFINITE, 0)
    else if d % HOUR == 0 && d / HOUR < 24 * 365 then (UNIT_HOURS, d / HOUR)
    else if d % MINUTE == 0 then (UNIT_MINUTES, d / MINUTE)
    else if d % SECOND == 0 then (UNIT_SECONDS, d / SECOND)
    else if d % MILLISECOND == 0 then (UNIT_MILLISECONDS, d / MILLISECOND)
    else if d % MICROSECOND == 0 then (UNIT_MICROSECONDS, d / MICROSECOND)
    else (UNIT_NANOSECONDS, d)
  }

  /** What an expiration time means to the server. */
  datatype Expiration = ServerDefault | Never | After(nanoseconds: int)

  function Meaning(d: int64): Expiration {
    if d == 0 then ServerDefault else if d < 0 then Never else After(d)
  }

  /** A positive duration is expressed exactly; zero and negative ones need no count. */
  lemma DurationExact(d: int64)
    ensures var (code, n) := EncodeDuration(d);
            && n >= 0
            && (d > 0 ==> code < UNIT_DEFAULT && n > 0 && n * UnitLength(code) == d)
            && (d == 0 ==> code == UNIT_DEFAULT)
            && (d < 0 ==> code == UNIT_INFINITE)
  {
  }

  /** No coarser unit would do, except that hours stop at a year. */
  lemma UnitIsCoarsest(d: int64, code: byte)
    requires d > 0 && code in {UNIT_HOURS, UNIT_MINUTES, UNIT_SECONDS, UNIT_MILLISECONDS, UNIT_MICROSECONDS}
    requires d % UnitLength(code) == 0 && (code == UNIT_HOURS ==> d < 24 * 365 * HOUR)
    ensures EncodeDuration(d).0 < UNIT_DEFAULT && UnitLength(code) <= UnitLength(EncodeDuration(d).0)
  {
  }

  /** Days are never used, and hours for less than a year only. */
  lemma HoursAreBounded(d: int64)
    ensures EncodeDuration(d).0 != 6
    ensures EncodeDuration(d).0 == UNIT_HOURS ==> EncodeDuration(d).1 < 24 * 365
  {
  }

  function PackCodes(high: byte, low: byte): byte
    requires high <= UNIT_INFINITE && low <= UNIT_INFINITE
  {
    var h: nat, l: nat := high, low;
    h * 0x10 + l
  }

  function Pack(lifespan: int64, maxIdle: int64): byte {
    PackCodes(EncodeDuration(lifespan).0, EncodeDuration(maxIdle).0)
  }

  function PrintCountOf(d: int64): Bytes {
    var (code, n) := EncodeDuration(d);
    if code < UNIT_DEFAULT then Print(ToUint64(n)) else []
  }

  function PrintTimeUnits(lifespan: int64, maxIdle: int64): Bytes {
    [Pack(lifespan, maxIdle)] + (PrintCountOf(lifespan) + PrintCountOf(maxIdle))
  }

  /** What the documentation says a unit code and the bytes behind it mean. */
  function ParseExpiration(code: byte, s: Bytes): Parsed<Expiration> {
    if code == UNIT_DEFAULT then Ok(ServerDefault, s)
    else if code > UNIT_DEFAULT then Ok(Never, s)
    else
      var (n, rest) :- ParseVLong(s);
      Ok(After(n * UnitLength(code)), rest)
  }

  function ParseTimeUnits(s: Bytes): Parsed<(Expiration, Expiration)> {
    var (packed, s1) :- ParseU1(s);
    var (lifespan, s2) :- ParseExpiration(packed / 0x10, s1);
    var (maxIdle, s3) :- ParseExpiration(packed % 0x10, s2);
    Ok((lifespan, maxIdle), s3)
  }

  lemma ExpirationRoundTrip(d: int64, tail: Bytes)
    ensures ParseExpiration(EncodeDuration(d).0, PrintCountOf(d) + tail) == Ok(Meaning(d), tail)
  {
    DurationExact(d);
    var (code, n) := EncodeDuration(d);
    if code < UNIT_DEFAULT {
      VLongRoundTrip(n, tail);
    } else {
      assert PrintCountOf(d) + tail == tail;
    }
  }

  lemma PackParts(lifespan: int64, maxIdle: int64)
    ensures Pack(lifespan, maxIdle) / 0x10 == EncodeDuration(lifespan).0
    ensures Pack(lifespan, maxIdle) % 0x10 == EncodeDuration(maxIdle).0
  {
    Nibbles(EncodeDuration(lifespan).0, EncodeDuration(maxIdle).0);
  }

  lemma Nibbles(high: nat, low: nat)
    requires low < 0x10
    ensures (high * 0x10 + low) / 0x10 == high && (high * 0x10 + low) % 0x10 == low
  {
  }

  lemma TimeUnitsStep(s: Bytes, packed: byte, s1: Bytes, lifespan: Expiration, s2: Bytes, maxIdle: Expiration,
                      s3: Bytes)
    requires ParseU1(s) == Ok(packed, s1)
    requires ParseExpiration(packed / 0x10, s1) == Ok(lifespan, s2)
    requires ParseExpiration(packed % 0x10, s2) == Ok(maxIdle, s3)
    ensures ParseTimeUnits(s) == Ok((lifespan, maxIdle), s3)
  {
  }

  lemma TimeUnitsRoundTrip(lifespan: int64, maxIdle: int64, tail: Bytes)
    ensures ParseTimeUnits(PrintTimeUnits(lifespan, maxIdle) + tail) == Ok((Meaning(lifespan), Meaning(maxIdle)), tail)
  {
    var packed, a, b := Pack(lifespan, maxIdle), PrintCountOf(lifespan), PrintCountOf(maxIdle);
    Join([packed], a + b, tail);
    Join(a, b, tail);
    U1RoundTrip(packed, a + (b + tail));
    PackParts(lifespan, maxIdle);
    ExpirationRoundTrip(lifespan, b + tail);
    ExpirationRoundTrip(maxIdle, tail);
    TimeUnitsStep(PrintTimeUnits(lifespan, maxIdle) + tail, packed, a + (b + tail), Meaning(lifespan), b + tail,
                  Meaning(maxIdle), tail);
  }

  method WriteCountOf(w: Writer, code: byte, n: int64, ghost d: int64)
    requires (code, n) == EncodeDuration(d)
    modifies w
    ensures w.out == old(w.out) + PrintCountOf(d)
  {
    DurationExact(d);
    if code < UNIT_DEFAULT {
      var ok := w.WriteVLong(n);
    }
  }

  lemma Assemble(o: Bytes, p: Bytes, a: Bytes, b: Bytes)
    ensures ((o + p) + a) + b == o + (p + (a + b))
  {
  }

  method WriteTimeUnits(w: Writer, lifespan: int64, maxIdle: int64)
    modifies w
    ensures w.out == old(w.out) + PrintTimeUnits(lifespan, maxIdle)
  {
    var (lifespanCode, lifespanCount) := EncodeDuration(lifespan);
    var (maxIdleCode, maxIdleCount) := EncodeDuration(maxIdle);
    w.Write([PackCodes(lifespanCode, maxIdleCode)]);
    WriteCountOf(w, lifespanCode, lifespanCount, lifespan);
    WriteCountOf(w, maxIdleCode, maxIdleCount, maxIdle);
    Assemble(old(w.out), [Pack(lifespan, maxIdle)], PrintCountOf(lifespan), PrintCountOf(maxIdle));
  }
}
