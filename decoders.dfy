/** The fixed-layout packet decoders of the WMR89 driver
    (bin/user/wmr89.py:285-453). Each reads fixed byte offsets of one raw
    packet (byte 0 is the type tag) and builds a record stamped with the
    decode time `now` and the METRIC unit tag. The driver does not check a
    packet's length; the shortest packet each decoder can index without an
    IndexError is its precondition. */
module Decoders {
  import opened Values
  import opened Conversions

  const WIND_MIN_LENGTH: nat := 9
  const RAIN_MIN_LENGTH: nat := 10
  const PRESSURE_MIN_LENGTH: nat := 6
  const TEMP_MIN_LENGTH: nat := 9

  // ---------------------------------------------------------------- wind

  /** Windchill byte: below 125 it is Fahrenheit, 125 means no value, above
      125 it is a negative Fahrenheit reading encoded as `byte - 255`. */
  function Windchill(b: Byte): (v: Value)
    ensures v.Null? <==> b == 125
    ensures v.Int? == false
    ensures b < 125 ==> v == Float(FtoC(b as real))
    ensures b > 125 ==> v == Float(FtoC((b - 255) as real))
    ensures v.Float? ==> FtoC(-129.0) <= v.x <= FtoC(124.0)
  {
    if b < 125 then Float(FtoC(b as real))
    else if b == 125 then Null
    else Float(FtoC((b - 255) as real))
  }

  /** The bytes above 125 do not follow the two's-complement rule the
      dewpoint uses: each reads one degree Fahrenheit warmer than `b - 256`,
      so 255 decodes to 0 F, the same reading as byte 0. */
  lemma WindchillAboveSentinel(b: Byte)
    requires b > 125
    ensures Windchill(b) == Float(FtoC((b - 256) as real + 1.0))
    ensures Windchill(255) == Windchill(0)
  {
  }

  function WindKeys(): set<string>
  {
    {"wind_speed", "wind_dir", DATE_TIME, US_UNITS, "wind_gust", "windchill"}
  }

  /** `_wmr89_wind_packet`: speed and gust are bytes 3 and 5 times 0.36 (km/h
      from 0.1 m/s), direction is byte 7 times 22.5 degrees. */
  function WindPacket(packet: seq<Byte>, now: int): (r: Record)
    requires |packet| >= WIND_MIN_LENGTH
    ensures r.Keys == WindKeys()
    ensures Stamped(r, now)
    ensures r["wind_speed"] == Float(packet[3] as real * 0.36)
    ensures r["wind_gust"] == Float(packet[5] as real * 0.36)
    ensures r["wind_dir"] == Float(packet[7] as real * 22.5)
    ensures 0.0 <= r["wind_speed"].x <= 91.8 && 0.0 <= r["wind_gust"].x <= 91.8
    ensures 0.0 <= r["wind_dir"].x <= 5737.5
    ensures r["windchill"] == Windchill(packet[8])
  {
    map[
      "wind_speed" := Float(packet[3] as real * 0.36),
      "wind_dir" := Float(packet[7] as real * 22.5),
      DATE_TIME := Int(now),
      US_UNITS := Int(METRIC),
      "wind_gust" := Float(packet[5] as real * 0.36),
      "windchill" := Windchill(packet[8])
    ]
  }

  /** A wind record is determined by bytes 3, 5, 7 and the windchill byte's
      reading, and determines them back: nothing else of the packet matters
      and no two speeds, gusts or directions collide. */
  lemma WindPacketLossless(p: seq<Byte>, q: seq<Byte>, now: int)
    requires |p| >= WIND_MIN_LENGTH && |q| >= WIND_MIN_LENGTH
    ensures WindPacket(p, now) == WindPacket(q, now)
        <==> p[3] == q[3] && p[5] == q[5] && p[7] == q[7] && Windchill(p[8]) == Windchill(q[8])
  {
    var r, s := WindPacket(p, now), WindPacket(q, now);
    if r == s {
      assert r["wind_speed"] == s["wind_speed"];
      assert r["wind_gust"] == s["wind_gust"];
      assert r["wind_dir"] == s["wind_dir"];
      assert r["windchill"] == s["windchill"];
    }
  }

  // ---------------------------------------------------------------- rain

  /** A big-endian word of hundredths of an inch, in centimetres. */
  function RainAmount(hi: Byte, lo: Byte): (cm: real)
    ensures 0.0 <= cm <= 1664.589
    ensures cm * 100.0 / 2.54 == Word(hi, lo) as real
  {
    Word(hi, lo) as real * 2.54 / 100.0
  }

  /** The cumulative total at bytes 8-9: what the rain state is set to. */
  function RainTotal(packet: seq<Byte>): (cm: real)
    requires |packet| >= RAIN_MIN_LENGTH
    ensures 0.0 <= cm <= 1664.589
    ensures cm * 100.0 / 2.54 == Word(packet[8], packet[9]) as real
  {
    RainAmount(packet[8], packet[9])
  }

  /** Bytes 2-3: `FF FE` means no value. */
  function RainHour(hi: Byte, lo: Byte): (v: Value)
    ensures v.Null? <==> hi == 0xFF && lo == 0xFE
    ensures v.Int? == false
    ensures v.Float? ==> v.x == RainAmount(hi, lo) && 0.0 <= v.x
  {
    if hi == 0xFF && lo == 0xFE then Null else Float(RainAmount(hi, lo))
  }

  function RainKeys(): set<string>
  {
    {"rain_rate", "rain_total", "rain_hour", "rain_24", DATE_TIME, US_UNITS}
  }

  /** The record `_wmr89_rain_packet` builds before it adds `rain`: bytes
      4-5 go under `rain_rate`, the sentinel-guarded bytes 2-3 under
      `rain_hour`, 6-7 under `rain_24`, 8-9 under `rain_total`. */
  function RainFields(packet: seq<Byte>, now: int): (r: Record)
    requires |packet| >= RAIN_MIN_LENGTH
    ensures r.Keys == RainKeys()
    ensures Stamped(r, now)
    ensures r["rain_hour"] == RainHour(packet[2], packet[3])
    ensures r["rain_rate"] == Float(RainAmount(packet[4], packet[5]))
    ensures r["rain_24"] == Float(RainAmount(packet[6], packet[7]))
    ensures r["rain_total"] == Float(RainTotal(packet))
    ensures forall k | k in r && r[k].Float? :: r[k].x >= 0.0
  {
    map[
      "rain_rate" := Float(RainAmount(packet[4], packet[5])),
      "rain_total" := Float(RainTotal(packet)),
      "rain_hour" := RainHour(packet[2], packet[3]),
      "rain_24" := Float(RainAmount(packet[6], packet[7])),
      DATE_TIME := Int(now),
      US_UNITS := Int(METRIC)
    ]
  }

  /** Two rain packets give the same fields exactly when bytes 2-9 agree. */
  lemma RainFieldsLossless(p: seq<Byte>, q: seq<Byte>, now: int)
    requires |p| >= RAIN_MIN_LENGTH && |q| >= RAIN_MIN_LENGTH
    ensures RainFields(p, now) == RainFields(q, now) <==> p[2..10] == q[2..10]
  {
    var r, s := RainFields(p, now), RainFields(q, now);
    if r == s {
      assert r["rain_hour"] == s["rain_hour"];
      assert r["rain_rate"] == s["rain_rate"];
      assert r["rain_24"] == s["rain_24"];
      assert r["rain_total"] == s["rain_total"];
      WordInjective(p[2], p[3], q[2], q[3]);
      WordInjective(p[4], p[5], q[4], q[5]);
      WordInjective(p[6], p[7], q[6], q[7]);
      WordInjective(p[8], p[9], q[8], q[9]);
      assert forall i | 2 <= i < 10 :: p[i] == q[i];
    }
  }

  // ------------------------------------------------------------ pressure

  function PressureKeys(): set<string>
  {
    {"pressure", "barometer", DATE_TIME, US_UNITS}
  }

  /** `_wmr89_pressure_packet`: the words at bytes 2-3 and 4-5, in tenths. */
  function PressurePacket(packet: seq<Byte>, now: int): (r: Record)
    requires |packet| >= PRESSURE_MIN_LENGTH
    ensures r.Keys == PressureKeys()
    ensures Stamped(r, now)
    ensures r["pressure"] == Float(Word(packet[2], packet[3]) as real * 0.1)
    ensures r["barometer"] == Float(Word(packet[4], packet[5]) as real * 0.1)
    ensures 0.0 <= r["pressure"].x <= 6553.5 && 0.0 <= r["barometer"].x <= 6553.5
  {
    map[
      "pressure" := Float(Word(packet[2], packet[3]) as real * 0.1),
      "barometer" := Float(Word(packet[4], packet[5]) as real * 0.1),
      DATE_TIME := Int(now),
      US_UNITS := Int(METRIC)
    ]
  }

  /** Two pressure packets give the same record exactly when bytes 2-5 agree. */
  lemma PressurePacketLossless(p: seq<Byte>, q: seq<Byte>, now: int)
    requires |p| >= PRESSURE_MIN_LENGTH && |q| >= PRESSURE_MIN_LENGTH
    ensures PressurePacket(p, now) == PressurePacket(q, now) <==> p[2..6] == q[2..6]
  {
    var r, s := PressurePacket(p, now), PressurePacket(q, now);
    if r == s {
      assert r["pressure"] == s["pressure"] && r["barometer"] == s["barometer"];
      WordInjective(p[2], p[3], q[2], q[3]);
      WordInjective(p[4], p[5], q[4], q[5]);
      assert forall i | 2 <= i < 6 :: p[i] == q[i];
    }
  }

  // ------------------------------------------------- temperature/humidity

  /** Bytes 3-4 as a signed word in tenths of a degree Celsius. */
  function Temperature(hi: Byte, lo: Byte): (t: real)
    ensures -3276.8 <= t <= 3276.7
    ensures t * 10.0 == Signed16(Word(hi, lo)) as real
  {
    Signed16(Word(hi, lo)) as real * 0.1
  }

  /** A temperature reading gives back the two bytes it came from. */
  lemma TemperatureInjective(hi: Byte, lo: Byte, hi': Byte, lo': Byte)
    ensures Temperature(hi, lo) == Temperature(hi', lo') <==> hi == hi' && lo == lo'
  {
    if Temperature(hi, lo) == Temperature(hi', lo') {
      assert Signed16(Word(hi, lo)) == Signed16(Word(hi', lo'));
      assert Word(hi, lo) == Word(hi', lo');
      WordInjective(hi, lo, hi', lo');
    }
  }

  /** Humidity byte 254 is clamped to 95 and 252 to 25 (the sensor's 25-95%
      range, as ints); any other byte is its own value, as a float. */
  function Humidity(b: Byte): (v: Value)
    ensures v.Null? == false
    ensures v.Int? <==> b == 254 || b == 252
    ensures v.Int? ==> v.i == (if b == 254 then 95 else 25)
    ensures v.Float? ==> v.x == b as real
  {
    if b == 254 then Int(95) else if b == 252 then Int(25) else Float(b as real)
  }

  /** Dewpoint byte: 125 means no value, above 125 it is two's complement. */
  function Dewpoint(b: Byte): (v: Value)
    ensures v.Null? <==> b == 125
    ensures v.Float? == false
    ensures v.Int? ==> -130 <= v.i <= 124 && v.i % 256 == b
  {
    if b == 125 then Null else if b > 125 then Int(b - 256) else Int(b)
  }

  /** Every dewpoint in -130..124 is sent as exactly one byte. */
  lemma DewpointRoundTrip(d: int)
    requires -130 <= d <= 124
    ensures 0 <= d % 256 < 256 && Dewpoint(d % 256) == Int(d)
  {
  }

  /** Sensor channel of byte 2: 0 indoor, 1 outdoor, 2 and 3 the extra
      sensors 1 and 2; any other channel is not decoded. */
  function ChannelSuffix(channel: Byte): (r: Option<string>)
    ensures r.Some? <==> channel <= 3
  {
    if channel == 0 then Some("in")
    else if channel == 1 then Some("out")
    else if channel == 2 then Some("1")
    else if channel == 3 then Some("2")
    else None
  }

  lemma ChannelSuffixInjective(c: Byte, c': Byte)
    requires c <= 3 && c' <= 3
    ensures ChannelSuffix(c) == ChannelSuffix(c') <==> c == c'
  {
  }

  /** Which observation names a temperature packet fills: channel 0 is the
      indoor sensor, 1 the outdoor one, and 2 and 3 the first and second
      extra sensors. */
  lemma TempPacketChannels(packet: seq<Byte>, now: int)
    requires |packet| >= TEMP_MIN_LENGTH && packet[2] <= 3
    ensures var r := TempPacket(packet, now);
      r.Some? && r.value.Keys ==
        if packet[2] == 0 then {"humidity_in", "temperature_in", "dewpoint_in", DATE_TIME, US_UNITS}
        else if packet[2] == 1 then {"humidity_out", "temperature_out", "dewpoint_out", DATE_TIME, US_UNITS}
        else if packet[2] == 2 then {"humidity_1", "temperature_1", "dewpoint_1", DATE_TIME, US_UNITS}
        else {"humidity_2", "temperature_2", "dewpoint_2", DATE_TIME, US_UNITS}
  {
    var x := ChannelSuffix(packet[2]).value;
    if packet[2] == 0 {
      assert "humidity_" + x == "humidity_in" && "temperature_" + x == "temperature_in" && "dewpoint_" + x == "dewpoint_in";
    } else if packet[2] == 1 {
      assert "humidity_" + x == "humidity_out" && "temperature_" + x == "temperature_out" && "dewpoint_" + x == "dewpoint_out";
    } else if packet[2] == 2 {
      assert "humidity_" + x == "humidity_1" && "temperature_" + x == "temperature_1" && "dewpoint_" + x == "dewpoint_1";
    } else {
      assert "humidity_" + x == "humidity_2" && "temperature_" + x == "temperature_2" && "dewpoint_" + x == "dewpoint_2";
    }
  }

  function TempKeys(x: string): set<string>
  {
    {"humidity_" + x, "temperature_" + x, "dewpoint_" + x, DATE_TIME, US_UNITS}
  }

  /** `_wmr89_temp_packet`. The heat index it computes from bytes 7 and 8 is
      never stored and so is not part of the record. */
  function TempPacket(packet: seq<Byte>, now: int): (r: Option<Record>)
    requires |packet| >= TEMP_MIN_LENGTH
    ensures r.Some? <==> packet[2] <= 3
    ensures r.Some? ==>
      var x := ChannelSuffix(packet[2]).value;
      && r.value.Keys == TempKeys(x)
      && Stamped(r.value, now)
      && r.value["temperature_" + x] == Float(Temperature(packet[3], packet[4]))
      && r.value["humidity_" + x] == Humidity(packet[6])
      && r.value["dewpoint_" + x] == Dewpoint(packet[7])
  {
    match ChannelSuffix(packet[2])
    case None => None
    case Some(x) =>
      assert ("humidity_" + x)[0] == 'h' && ("temperature_" + x)[0] == 't';
      assert ("dewpoint_" + x)[0] == 'd' && ("dewpoint_" + x)[1] == 'e';
      Some(map[
        "humidity_" + x := Humidity(packet[6]),
        "temperature_" + x := Float(Temperature(packet[3], packet[4])),
        "dewpoint_" + x := Dewpoint(packet[7]),
        DATE_TIME := Int(now),
        US_UNITS := Int(METRIC)
      ])
  }

  // ---------------------------------------------------------------- time

  /** `_wmr89_time_packet`: the time packet is recognised but never decoded. */
  function TimePacket(packet: seq<Byte>): (r: Option<Record>)
    ensures r == None
  {
    None
  }
}
