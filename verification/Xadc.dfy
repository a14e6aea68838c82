/** `drivers/xadc_drv.c` and the consumer's number columns: from a raw converter code to the text on
    the console. */
module Xadc {
  import opened Word
  import opened Wrappers
  import opened Console

  const SENSOR_COUNT: nat := 7
  const TEMP_OFFSET_MILLI: int := 273_150

  type U16 = x: int | 0 <= x < 0x1_0000

  /** Sensor 0 is the die temperature, the others are supplies. */
  predicate IsTemperature(sensor: nat) {
    sensor == 0
  }

  /** A code times a full-scale value over 4096, rounded, in 32-bit arithmetic. */
  function Scaled(rawCode: U16, fullScale: nat): U32 {
    ToU32(ToU32(rawCode * fullScale) + 2048) / 4096
  }

  /** `xadc_drv_code_to_milli`: millidegrees or millivolts; 0 for a sensor there is not. */
  function CodeToMilli(sensor: nat, rawCode: U16): (milli: I32)
  {
    if sensor >= SENSOR_COUNT then 0
    else if IsTemperature(sensor) then Scaled(rawCode, 503_975) - TEMP_OFFSET_MILLI
    else Scaled(rawCode, 3000)
  }

  // ---- against the transfer functions of UG480 chapter 2, in 1/4096 of a milli-unit ----

  /** Temperature in degrees is `code * 503.975 / 4096 - 273.15`, a supply in volts
      `code / 4096 * 3`. */
  function TransferBy4096(sensor: nat, rawCode: U16): int {
    if IsTemperature(sensor) then rawCode * 503_975 - 4096 * TEMP_OFFSET_MILLI else rawCode * 3000
  }

  /** Off by at most half a milli-unit, and of two equally near ones the upper one is taken. */
  predicate NearestUp(milli: int, by4096: int) {
    -4096 < 2 * (4096 * milli - by4096) <= 4096
  }

  /** Up to code 8522 nothing overflows 32 bits and a temperature is the nearest millidegree; above,
      it is not even close. The converter's codes end at 4095. */
  lemma TemperatureNearest(rawCode: U16)
    ensures NearestUp(CodeToMilli(0, rawCode), TransferBy4096(0, rawCode)) <==> rawCode <= 8522
    ensures rawCode > 8522 ==> 2 * Abs(4096 * CodeToMilli(0, rawCode) - TransferBy4096(0, rawCode)) > 4096
  {
  }

  /** A supply is the nearest millivolt for every 16-bit code. */
  lemma SupplyNearest(sensor: nat, rawCode: U16)
    requires 0 < sensor < SENSOR_COUNT
    ensures NearestUp(CodeToMilli(sensor, rawCode), TransferBy4096(sensor, rawCode))
  {
    hide Scaled;
    ScaledExact(rawCode, 3000);
    DivBounds(rawCode * 3000 + 2048, 4096);
  }

  /** One code is 0.73 mV, so a supply moves by 0 or 1 mV. */
  lemma SupplyStep(sensor: nat, rawCode: U16)
    requires 0 < sensor < SENSOR_COUNT && rawCode < 0xFFFF
    ensures CodeToMilli(sensor, rawCode) <= CodeToMilli(sensor, rawCode + 1) <= CodeToMilli(sensor, rawCode) + 1
  {
    hide Scaled;
    ScaledExact(rawCode, 3000);
    ScaledExact(rawCode + 1, 3000);
    NextRounding(rawCode * 3000 + 2048);
  }

  lemma ScaledExact(rawCode: U16, fullScale: nat)
    requires fullScale == 3000 || (fullScale == 503_975 && rawCode < 4096)
    ensures Scaled(rawCode, fullScale) == (rawCode * fullScale + 2048) / 4096
  {
  }

  lemma NextRounding(x: nat)
    ensures x / 4096 <= (x + 3000) / 4096 <= x / 4096 + 1
  {
    DivBounds(x, 4096);
    DivBounds(x + 3000, 4096);
  }

  // ---- the printed number ----

  /** `consumer_fmt_sensor`: two decimals for the temperature, three for a supply. */
  function SensorText(sensor: nat, rawCode: U16): string {
    MilliText(CodeToMilli(sensor, rawCode), if IsTemperature(sensor) then 2 else 3)
  }

  /** The value a reader of the console sees, in milli-units. */
  function Shown(sensor: nat, rawCode: U16): int
    requires IsNumber(SensorText(sensor, rawCode))
  {
    ReadMilli(SensorText(sensor, rawCode))
  }

  /** It has the two places of a hundredth of a degree, or the three of a millivolt. */
  lemma PlacesShown(sensor: nat, rawCode: U16)
    ensures Places(SensorText(sensor, rawCode)) == Some(if sensor == 0 then 2 else 3)
  {
    RoundTrip(CodeToMilli(sensor, rawCode), if IsTemperature(sensor) then 2 else 3);
  }

  lemma TextIsNumber(sensor: nat, rawCode: U16)
    ensures IsNumber(SensorText(sensor, rawCode)) && |SensorText(sensor, rawCode)| <= 12
  {
    RoundTrip(CodeToMilli(sensor, rawCode), if IsTemperature(sensor) then 2 else 3);
    AtMostTwelve(CodeToMilli(sensor, rawCode), if IsTemperature(sensor) then 2 else 3);
  }

  /** The printed temperature is within 5.5 millidegrees of the transfer function. */
  lemma ShownTemperature(rawCode: U16)
    requires rawCode < 4096
    ensures IsNumber(SensorText(0, rawCode))
    ensures 2 * Abs(4096 * Shown(0, rawCode) - TransferBy4096(0, rawCode)) <= 11 * 4096
    ensures CodeToMilli(0, rawCode) - 5 <= Shown(0, rawCode) <= CodeToMilli(0, rawCode) + 5
  {
    TextIsNumber(0, rawCode);
    TemperatureNearest(rawCode);
    RoundTrip(CodeToMilli(0, rawCode), 2);
    SmallPowers();
  }

  /** The printed supply is the exact millivolt value. */
  lemma ShownSupply(sensor: nat, rawCode: U16)
    requires 0 < sensor < SENSOR_COUNT
    ensures IsNumber(SensorText(sensor, rawCode)) && Shown(sensor, rawCode) == CodeToMilli(sensor, rawCode)
  {
    ExactAtThree(CodeToMilli(sensor, rawCode), 3);
  }

  /** Over the converter's 12-bit codes the printed temperature is strictly increasing, across zero
      too, */
  lemma TemperatureIncreases(a: U16, b: U16)
    requires a < b < 4096
    ensures IsNumber(SensorText(0, a)) && IsNumber(SensorText(0, b)) && Shown(0, a) < Shown(0, b)
  {
    ShownTemperature(a);
    ShownTemperature(b);
    TemperaturesApart(a, b);
  }

  /** One code is 0.12 degrees. */
  lemma TemperaturesApart(a: U16, b: U16)
    requires a < b < 4096
    ensures CodeToMilli(0, b) >= CodeToMilli(0, a) + 122
  {
    hide Scaled;
    ScaledExact(a, 503_975);
    ScaledExact(b, 503_975);
  }

  /** so the text tells the code. */
  lemma TemperatureTextTellsCode(a: U16, b: U16)
    requires a < 4096 && b < 4096
    ensures SensorText(0, a) == SensorText(0, b) <==> a == b
  {
    if a < b {
      TemperatureIncreases(a, b);
    } else if b < a {
      TemperatureIncreases(b, a);
    }
  }

  lemma {:induction false} SupplySteps(sensor: nat, a: U16, b: U16)
    requires 0 < sensor < SENSOR_COUNT && a <= b
    ensures CodeToMilli(sensor, a) <= CodeToMilli(sensor, b) <= CodeToMilli(sensor, a) + (b - a)
    decreases b
  {
    if a < b {
      SupplySteps(sensor, a, b - 1);
      SupplyStep(sensor, b - 1);
    }
  }

  /** The printed supply never goes down as the code goes up, and from one code to the next moves by
      at most the last digit shown. */
  lemma SupplyMonotone(sensor: nat, a: U16, b: U16)
    requires 0 < sensor < SENSOR_COUNT && a <= b
    ensures IsNumber(SensorText(sensor, a)) && IsNumber(SensorText(sensor, b))
    ensures Shown(sensor, a) <= Shown(sensor, b) <= Shown(sensor, a) + (b - a)
  {
    ShownSupply(sensor, a);
    ShownSupply(sensor, b);
    SupplySteps(sensor, a, b);
  }

  /** `consumer_fmt_sensor` with the consumer's 16 byte buffer: the text always fits. */
  method FmtSensor(buf: array<char>, sensor: nat, rawCode: U16) returns (text: string)
    requires buf.Length == 16
    modifies buf
    ensures text == SensorText(sensor, rawCode) && |text| <= 12
    ensures Places(text) == Some(if sensor == 0 then 2 else 3)
    ensures buf[..|text|] == text && buf[|text|] == '\0'
  {
    var decimals: U32 := if IsTemperature(sensor) then 2 else 3;
    TextIsNumber(sensor, rawCode);
    PlacesShown(sensor, rawCode);
    text := FmtMilli(buf, CodeToMilli(sensor, rawCode), decimals);
  }
}
