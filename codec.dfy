/**
 * The telemetry codec of the reelyActive DirAct proximity frame: 6-bit
 * sign-folded acceleration codes, a 6-bit battery code, and the 9-byte
 * frame that packs them behind a 4-byte instance id.
 */
module Codec {
  import opened Wrappers
  import opened Bits

  const INVALID_ACCELERATION_CODE: int := 0x20
  /** Largest encodable acceleration, in g. */
  const MAX_ACCELERATION_TO_ENCODE: int := 2
  const MAX_ACCELERATION_MAGNITUDE: int := 0x1f
  const ACCELERATION_UNITS_PER_G: int := 8192
  /** Raw units in MAX_ACCELERATION_TO_ENCODE g: the span mapped onto magnitudes 0..31. */
  const FULL_SCALE: int := ACCELERATION_UNITS_PER_G * MAX_ACCELERATION_TO_ENCODE
  /** Battery limits, in millivolts (2.0 V and 3.0 V). */
  const MIN_BATTERY_MILLIVOLTS: int := 2000
  const MAX_BATTERY_MILLIVOLTS: int := 3000
  const DIRACT_PROXIMITY_FRAME: int := 0x01
  const DIRACT_DEFAULT_COUNT_LENGTH: int := 0x07

  // ---------------------------------------------------------------------------
  // Acceleration
  // ---------------------------------------------------------------------------

  /**
   * The magnitude code of a reading of `a` raw units, a >= 0: 31 * a / 16384
   * rounded half up (`Math.round`), capped at 31. The result is the rounded
   * value exactly when it is below the cap.
   */
  function Magnitude(a: nat): (m: int)
    ensures 0 <= m <= MAX_ACCELERATION_MAGNITUDE
    ensures m < MAX_ACCELERATION_MAGNITUDE ==>
      -FULL_SCALE < 2 * FULL_SCALE * m - 2 * MAX_ACCELERATION_MAGNITUDE * a <= FULL_SCALE
    ensures m == MAX_ACCELERATION_MAGNITUDE <==>
      2 * MAX_ACCELERATION_MAGNITUDE * a + FULL_SCALE >= 2 * FULL_SCALE * MAX_ACCELERATION_MAGNITUDE
  {
    var rounded := (2 * MAX_ACCELERATION_MAGNITUDE * a + FULL_SCALE) / (2 * FULL_SCALE);
    if rounded < MAX_ACCELERATION_MAGNITUDE then rounded else MAX_ACCELERATION_MAGNITUDE
  }

  /**
   * One axis of `encodeAcceleration`: non-negative readings code as their
   * magnitude (0..31), negative ones as 63 minus it (32..63).
   */
  function AxisCode(raw: int): (c: int)
    ensures 0 <= c <= 63
    ensures raw < 0 <==> c >= 32
    ensures raw >= 0 ==> c == Magnitude(raw)
    ensures raw < 0 ==> c == 0x3f - Magnitude(-raw)
  {
    if raw < 0 then 0x3f - Magnitude(-raw) else Magnitude(raw)
  }

  /** Reads an axis code back as a signed number of 1/31 steps of 2 g (-31..31). */
  function DecodeAxis(c: int): int {
    if c <= MAX_ACCELERATION_MAGNITUDE then c else c - 0x3f
  }

  /**
   * Decoding an axis code gives back the reading's sign and rounded
   * magnitude; within +-2 g the decoded step is within half a step of the
   * reading (error at most 2 g / 62).
   */
  lemma AxisCodeDecodes(raw: int)
    ensures DecodeAxis(AxisCode(raw)) == if raw < 0 then -Magnitude(-raw) else Magnitude(raw)
    ensures -FULL_SCALE <= raw <= FULL_SCALE ==>
      -FULL_SCALE <= 2 * FULL_SCALE * DecodeAxis(AxisCode(raw)) - 2 * MAX_ACCELERATION_MAGNITUDE * raw <= FULL_SCALE
  {
  }

  /**
   * The edges of the code space: zero codes as 0, a tiny negative reading as
   * 63, and readings at or beyond +-2 g saturate at 31 and 32.
   */
  lemma AxisCodeEdges(raw: int)
    ensures raw == 0 ==> AxisCode(raw) == 0
    ensures -264 <= raw < 0 ==> AxisCode(raw) == 63
    ensures raw >= FULL_SCALE ==> AxisCode(raw) == 31
    ensures raw <= -FULL_SCALE ==> AxisCode(raw) == 32
  {
  }

  /** Larger readings of the same sign never get a smaller magnitude. */
  lemma {:induction false} MagnitudeMonotone(a: nat, b: nat)
    requires a <= b
    ensures Magnitude(a) <= Magnitude(b)
  {
  }

  /** The record `encodeAcceleration` starts from: every axis marked invalid. */
  function InvalidAcceleration(): map<string, int> {
    map["x" := INVALID_ACCELERATION_CODE, "y" := INVALID_ACCELERATION_CODE, "z" := INVALID_ACCELERATION_CODE]
  }

  /**
   * `encodeAcceleration`: start from the invalid record and, when the
   * accelerometer is enabled, overwrite the entry of every axis the reading
   * has with its code.
   */
  method EncodeAcceleration(acc: map<string, int>, enabled: bool) returns (encoded: map<string, int>)
    ensures encoded.Keys == InvalidAcceleration().Keys + (if enabled then acc.Keys else {})
    ensures forall axis :: axis in encoded ==>
      encoded[axis] == if enabled && axis in acc then AxisCode(acc[axis]) else INVALID_ACCELERATION_CODE
    ensures forall axis :: axis in encoded ==> 0 <= encoded[axis] <= 63
  {
    encoded := InvalidAcceleration();
    if enabled {
      var pending := acc.Keys;
      while pending != {}
        invariant pending <= acc.Keys
        invariant encoded.Keys == InvalidAcceleration().Keys + (acc.Keys - pending)
        invariant forall axis :: axis in encoded ==>
          encoded[axis] == if axis in acc && axis !in pending then AxisCode(acc[axis]) else INVALID_ACCELERATION_CODE
        decreases pending
      {
        var axis :| axis in pending;
        encoded := encoded[axis := AxisCode(acc[axis])];
        pending := pending - {axis};
      }
    }
  }

  // ---------------------------------------------------------------------------
  // Battery
  // ---------------------------------------------------------------------------

  /**
   * `encodeBatteryPercentage`: 0 at or below 2.0 V, 63 at or above 3.0 V,
   * and in between 63 * (v - 2.0 V) rounded half up.
   */
  function EncodeBattery(millivolts: int): (c: int)
    ensures 0 <= c <= 63
    ensures millivolts <= MIN_BATTERY_MILLIVOLTS ==> c == 0
    ensures millivolts >= MAX_BATTERY_MILLIVOLTS ==> c == 63
    ensures MIN_BATTERY_MILLIVOLTS < millivolts < MAX_BATTERY_MILLIVOLTS ==>
      -500 < 1000 * c - 63 * (millivolts - MIN_BATTERY_MILLIVOLTS) <= 500
  {
    if millivolts <= MIN_BATTERY_MILLIVOLTS then 0x00
    else if millivolts >= MAX_BATTERY_MILLIVOLTS then 0x3f
    else (0x3f * (millivolts - MIN_BATTERY_MILLIVOLTS) + 500) / (MAX_BATTERY_MILLIVOLTS - MIN_BATTERY_MILLIVOLTS)
  }

  /** A higher voltage never gives a lower battery code. */
  lemma EncodeBatteryMonotone(v: int, w: int)
    requires v <= w
    ensures EncodeBattery(v) <= EncodeBattery(w)
  {
  }

  // ---------------------------------------------------------------------------
  // Frame
  // ---------------------------------------------------------------------------

  // The three sensor-byte expressions.

  function Byte0(x: bv16, y: bv16): int {
    (((x << 2) & 0xfc) | ((y >> 4) & 0x3f)) as int
  }

  function Byte1(y: bv16, z: bv16): int {
    (((y << 4) & 0xf0) | ((z >> 2) & 0x0f)) as int
  }

  function Byte2(z: bv16, battery: bv16): int {
    (((z << 6) & 0xc0) | (battery & 0x3f)) as int
  }

  /**
   * The three sensor bytes of `compileAccelerationData`: x, y, z and the
   * battery code packed MSB-first as 6-bit fields, each byte masked to 8 bits.
   */
  function SensorBytes(x: int, y: int, z: int, battery: int): (b: seq<int>)
    ensures |b| == 3 && forall i :: 0 <= i < 3 ==> 0 <= b[i] <= 255
  {
    var X, Y, Z, B := Low16(x), Low16(y), Low16(z), Low16(battery);
    [Byte0(X, Y), Byte1(Y, Z), Byte2(Z, B)]
  }

  /** Four 6-bit fields read back MSB-first from three bytes. */
  datatype Fields = Fields(x: int, y: int, z: int, battery: int)

  function UnpackSensorBytes(b0: int, b1: int, b2: int): Fields {
    Fields(b0 / 4, (b0 % 4) * 16 + b1 / 16, (b1 % 16) * 4 + b2 / 64, b2 % 64)
  }

  predicate IsCode(n: int) { 0 <= n < 64 }

  // Small facts linking 6-bit bv16 values to their integer values.

  lemma Byte0Value(x: bv16, y: bv16)
    requires x < 64 && y < 64
    ensures Byte0(x, y) == (x as int) * 4 + (y as int) / 16
  {
    assert ((x << 2) & 0xfc) | ((y >> 4) & 0x3f) == x * 4 + y / 16;
    Div16Value(y);
    Sum4Value(x, y / 16);
  }

  lemma Byte1Value(y: bv16, z: bv16)
    requires y < 64 && z < 64
    ensures Byte1(y, z) == ((y as int) % 16) * 16 + (z as int) / 4
  {
    assert ((y << 4) & 0xf0) | ((z >> 2) & 0x0f) == (y % 16) * 16 + z / 4;
    Mod16Value(y);
    Div4Value(z);
    Sum16Value(y % 16, z / 4);
  }

  lemma Byte2Value(z: bv16, battery: bv16)
    requires z < 64 && battery < 64
    ensures Byte2(z, battery) == ((z as int) % 4) * 64 + battery as int
  {
    assert ((z << 6) & 0xc0) | (battery & 0x3f) == (z % 4) * 64 + battery;
  }

  lemma Mod16Value(v: bv16) requires v < 64 ensures (v % 16) as int == (v as int) % 16 {}
  lemma Div16Value(v: bv16) requires v < 64 ensures (v / 16) as int == (v as int) / 16 {}
  lemma Sum4Value(p: bv16, q: bv16) requires p < 64 && q < 4 ensures (p * 4 + q) as int == (p as int) * 4 + q as int {}
  lemma Div4Value(v: bv16) requires v < 64 ensures (v / 4) as int == (v as int) / 4 {}
  lemma Sum16Value(p: bv16, q: bv16) requires p < 16 && q < 16 ensures (p * 16 + q) as int == (p as int) * 16 + q as int {}

  /** On 6-bit fields the sensor bytes are the plain MSB-first packing. */
  lemma SensorBytesOfCodes(x: int, y: int, z: int, battery: int)
    requires IsCode(x) && IsCode(y) && IsCode(z) && IsCode(battery)
    ensures SensorBytes(x, y, z, battery) == [4 * x + y / 16, (y % 16) * 16 + z / 4, (z % 4) * 64 + battery]
  {
    SmallLow16(x); SmallLow16(y); SmallLow16(z); SmallLow16(battery);
    var X, Y, Z, B := Low16(x), Low16(y), Low16(z), Low16(battery);
    Byte0Value(X, Y);
    Byte1Value(Y, Z);
    Byte2Value(Z, B);
    assert SensorBytes(x, y, z, battery) == [Byte0(X, Y), Byte1(Y, Z), Byte2(Z, B)];
  }

  /** Packing four 6-bit fields into the sensor bytes loses nothing. */
  lemma SensorBytesRoundTrip(x: int, y: int, z: int, battery: int)
    requires IsCode(x) && IsCode(y) && IsCode(z) && IsCode(battery)
    ensures var b := SensorBytes(x, y, z, battery);
      UnpackSensorBytes(b[0], b[1], b[2]) == Fields(x, y, z, battery)
  {
    SensorBytesOfCodes(x, y, z, battery);
    UnpackPacked(x, y, z, battery);
  }

  /** Reading back the MSB-first packing of four 6-bit fields, on integers. */
  lemma UnpackPacked(x: int, y: int, z: int, battery: int)
    requires IsCode(x) && IsCode(y) && IsCode(z) && IsCode(battery)
    ensures UnpackSensorBytes(4 * x + y / 16, (y % 16) * 16 + z / 4, (z % 4) * 64 + battery) == Fields(x, y, z, battery)
  {
    Split(x, y / 16, 4);
    Split(y % 16, z / 4, 16);
    Split(z % 4, battery, 64);
  }

  /** Splitting `hi * k + lo` back into its two parts, for the field widths used here. */
  lemma Split(hi: int, lo: int, k: int)
    requires k == 4 || k == 16 || k == 64
    requires 0 <= lo < k
    ensures (hi * k + lo) / k == hi && (hi * k + lo) % k == lo
  {
    if k == 4 {
      assert (hi * 4 + lo) / 4 == hi;
    } else if k == 16 {
      assert (hi * 16 + lo) / 16 == hi;
    } else {
      assert (hi * 64 + lo) / 64 == hi;
    }
  }

  /** An entry of the encoded-acceleration record; a missing one reads as 0 (ToInt32 of undefined). */
  function Field(data: map<string, int>, axis: string): int {
    if axis in data then data[axis] else 0
  }

  /**
   * `compileAccelerationData`: the 9-byte DirAct proximity frame for an
   * item whose data is an encoded-acceleration record, with the battery
   * read at `batteryMillivolts`.
   */
  function CompileAccelerationData(data: map<string, int>, batteryMillivolts: int, instanceId: seq<int>): (frame: seq<int>)
    requires |instanceId| == 4
    ensures |frame| == 9
    ensures frame[0] == DIRACT_PROXIMITY_FRAME && frame[1] == DIRACT_DEFAULT_COUNT_LENGTH
    ensures frame[2..6] == instanceId
    ensures frame[6..] == SensorBytes(Field(data, "x"), Field(data, "y"), Field(data, "z"), EncodeBattery(batteryMillivolts))
  {
    var sensor := SensorBytes(Field(data, "x"), Field(data, "y"), Field(data, "z"), EncodeBattery(batteryMillivolts));
    var frame := [DIRACT_PROXIMITY_FRAME, DIRACT_DEFAULT_COUNT_LENGTH] + instanceId + sensor;
    assert frame[2..6] == instanceId && frame[6..] == sensor;
    frame
  }

  /** What a receiver reads out of a proximity frame. */
  datatype Proximity = Proximity(instanceId: seq<int>, fields: Fields)

  function ParseFrame(frame: seq<int>): Option<Proximity> {
    if |frame| == 9 && frame[0] == DIRACT_PROXIMITY_FRAME && frame[1] == DIRACT_DEFAULT_COUNT_LENGTH then
      Some(Proximity(frame[2..6], UnpackSensorBytes(frame[6], frame[7], frame[8])))
    else
      None
  }

  /**
   * A receiver parsing the frame recovers the instance id, the three axis
   * codes and the battery code.
   */
  lemma FrameRoundTrip(data: map<string, int>, batteryMillivolts: int, instanceId: seq<int>)
    requires |instanceId| == 4
    requires forall axis :: axis in data ==> IsCode(data[axis])
    ensures ParseFrame(CompileAccelerationData(data, batteryMillivolts, instanceId)) ==
      Some(Proximity(instanceId, Fields(Field(data, "x"), Field(data, "y"), Field(data, "z"),
                                        EncodeBattery(batteryMillivolts))))
  {
    SensorBytesRoundTrip(Field(data, "x"), Field(data, "y"), Field(data, "z"), EncodeBattery(batteryMillivolts));
  }
}
