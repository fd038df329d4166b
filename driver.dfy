/** The WMR89 driver's packet pipeline: one buffer read from the console is
    framed into raw packets, each packet is dispatched on its type tag to a
    decoder, the decoded record is renamed through the sensor map, and every
    non-empty result is yielded in order (bin/user/wmr89.py:234-261). The
    only state is the last cumulative rain total (bin/user/wmr89.py:209). */
module Driver {
  import opened Values
  import opened Framing
  import opened Decoders
  import opened Remap

  const TIME_TAG: Byte := 0xB0
  const RAIN_TAG: Byte := 0xB1
  const WIND_TAG: Byte := 0xB2
  const PRESSURE_TAG: Byte := 0xB4
  const TEMP_TAG: Byte := 0xB5

  /** `weewx.wxformulas.calculate_rain(new_total, last_total)`. It belongs to
      the host and its body is not part of this model: the driver is given
      one, and nothing is assumed about it. */
  type RainRule = (real, Option<real>) -> Value

  /** The shortest packet of each type the driver can decode; a shorter one
      makes its decoder raise IndexError. Unknown tags read nothing. */
  function MinLength(tag: Byte): (n: nat)
    ensures n >= 1
    ensures n == 1 <==> tag !in {RAIN_TAG, WIND_TAG, PRESSURE_TAG, TEMP_TAG}
  {
    if tag == RAIN_TAG then RAIN_MIN_LENGTH
    else if tag == WIND_TAG then WIND_MIN_LENGTH
    else if tag == PRESSURE_TAG then PRESSURE_MIN_LENGTH
    else if tag == TEMP_TAG then TEMP_MIN_LENGTH
    else 1
  }

  /** A raw packet that makes its decoder index past its end. */
  predicate Short(raw: seq<Byte>)
  {
    |raw| < MinLength(if |raw| == 0 then 0 else raw[0])
  }

  /** Which packets raise: the rain decoder reads up to byte 9, the wind
      decoder and the heat index of the temperature decoder up to byte 8,
      the pressure decoder up to byte 5; the time packet and unknown tags
      read nothing past the tag. */
  lemma ShortPackets(raw: seq<Byte>)
    ensures Short(raw) <==> || |raw| == 0
                            || (raw[0] == RAIN_TAG && |raw| <= 9)
                            || (raw[0] == WIND_TAG && |raw| <= 8)
                            || (raw[0] == PRESSURE_TAG && |raw| <= 5)
                            || (raw[0] == TEMP_TAG && |raw| <= 8)
  {
  }

  /** `_wmr89_rain_packet`'s record: the rain fields plus `rain`, computed
      from the new total and the total last seen. */
  function RainRecord(packet: seq<Byte>, now: int, last: Option<real>, calculateRain: RainRule): (r: Record)
    requires |packet| >= RAIN_MIN_LENGTH
    ensures r.Keys == RainKeys() + {"rain"}
    ensures Stamped(r, now)
    ensures r["rain"] == calculateRain(RainTotal(packet), last)
    ensures forall k | k in RainKeys() :: r[k] == RainFields(packet, now)[k]
  {
    RainFields(packet, now)["rain" := calculateRain(RainTotal(packet), last)]
  }

  /** What decoding one raw packet gives: the uncaught IndexError of a short
      packet, or the decoder's record (None for the time packet and unknown
      tags) and the rain total kept afterwards. */
  datatype Decoded = IndexError | Decoded(packet: Option<Record>, lastRainTotal: Option<real>)

  /** The dispatch on the first byte (bin/user/wmr89.py:244-257). An empty
      packet cannot be indexed at 0, so it raises too. */
  function DecodePacket(raw: seq<Byte>, now: int, last: Option<real>, calculateRain: RainRule): (d: Decoded)
    ensures d.IndexError? <==> Short(raw)
    ensures d.Decoded? ==> |raw| > 0
    ensures d.Decoded? && raw[0] == RAIN_TAG ==>
      d.packet == Some(RainRecord(raw, now, last, calculateRain)) && d.lastRainTotal == Some(RainTotal(raw))
    ensures d.Decoded? && raw[0] != RAIN_TAG ==> d.lastRainTotal == last
    ensures d.Decoded? && raw[0] == WIND_TAG ==> d.packet == Some(WindPacket(raw, now))
    ensures d.Decoded? && raw[0] == PRESSURE_TAG ==> d.packet == Some(PressurePacket(raw, now))
    ensures d.Decoded? && raw[0] == TEMP_TAG ==> d.packet == TempPacket(raw, now)
    ensures |raw| > 0 && raw[0] == TIME_TAG ==> d == Decoded(None, last)
    ensures |raw| > 0 && raw[0] !in {RAIN_TAG, WIND_TAG, PRESSURE_TAG, TEMP_TAG} ==> d == Decoded(None, last)
    ensures d.Decoded? && d.packet.Some? ==> Stamped(d.packet.value, now)
  {
    if |raw| == 0 then IndexError
    else if raw[0] == TIME_TAG then Decoded(TimePacket(raw), last)
    else if raw[0] == RAIN_TAG then
      if |raw| < RAIN_MIN_LENGTH then IndexError
      else Decoded(Some(RainRecord(raw, now, last, calculateRain)), Some(RainTotal(raw)))
    else if raw[0] == WIND_TAG then
      if |raw| < WIND_MIN_LENGTH then IndexError else Decoded(Some(WindPacket(raw, now)), last)
    else if raw[0] == PRESSURE_TAG then
      if |raw| < PRESSURE_MIN_LENGTH then IndexError else Decoded(Some(PressurePacket(raw, now)), last)
    else if raw[0] == TEMP_TAG then
      if |raw| < TEMP_MIN_LENGTH then IndexError else Decoded(TempPacket(raw, now), last)
    else Decoded(None, last)
  }

  /** One turn of the loop: an IndexError, or the remapped record (None when
      there is nothing to yield) and the rain total kept. */
  datatype Step = Raised | Stepped(mapped: Option<Record>, lastRainTotal: Option<real>)

  /** One raw packet decoded and remapped (bin/user/wmr89.py:244-259). */
  function StepPacket(raw: seq<Byte>, now: int, last: Option<real>,
                      sensorMap: SensorMap, calculateRain: RainRule): (s: Step)
    ensures s.Raised? <==> Short(raw)
    ensures s.Stepped? ==> |raw| > 0
    ensures s.Stepped? && s.mapped.Some? ==> Stamped(s.mapped.value, now)
    ensures s.Stepped? && raw[0] != RAIN_TAG ==> s.lastRainTotal == last
    ensures |raw| > 0 && raw[0] !in {RAIN_TAG, WIND_TAG, PRESSURE_TAG, TEMP_TAG} ==> s == Stepped(None, last)
  {
    match DecodePacket(raw, now, last, calculateRain)
    case IndexError => Raised
    case Decoded(packet, last') =>
      assert packet.Some? ==> Stamped(packet.value, now);
      Stepped(MappedRecord(packet, sensorMap), last')
  }

  /** The step of one buffer's loop: fixed decode time, sensor map and rain rule. */
  type Stepper = (seq<Byte>, Option<real>) -> Step

  function PacketStepper(now: int, sensorMap: SensorMap, calculateRain: RainRule): Stepper
  {
    (raw, last) => StepPacket(raw, now, last, sensorMap, calculateRain)
  }

  /** What the loop over a buffer's raw packets has produced: the records
      yielded, the rain total kept, and whether an IndexError ended it. */
  datatype Outcome = Outcome(out: seq<Record>, lastRainTotal: Option<real>, failed: bool)

  function Yielded(mapped: Option<Record>): seq<Record>
  {
    if mapped.Some? then [mapped.value] else []
  }

  /** The loop over raw packets (bin/user/wmr89.py:240-261), packet by packet:
      a packet that raises ends the generator; otherwise the remapped record
      is yielded when there is one. */
  function Run(frags: seq<seq<Byte>>, last: Option<real>, step: Stepper): (o: Outcome)
    ensures |o.out| <= |frags|
  {
    if frags == [] then Outcome([], last, false)
    else
      match step(frags[0], last)
      case Raised => Outcome([], last, true)
      case Stepped(mapped, last') =>
        var rest := Run(frags[1..], last', step);
        Outcome(Yielded(mapped) + rest.out, rest.lastRainTotal, rest.failed)
  }

  /** The rest of a list processed after an outcome: nothing more once an
      IndexError was raised. */
  function Continue(a: Outcome, ys: seq<seq<Byte>>, step: Stepper): Outcome
  {
    if a.failed then a
    else
      var b := Run(ys, a.lastRainTotal, step);
      Outcome(a.out + b.out, b.lastRainTotal, b.failed)
  }

  /** Processing a list in two parts is processing the first part, then the
      second from the rain total the first left, unless the first one raised. */
  lemma {:induction false} RunConcat(xs: seq<seq<Byte>>, ys: seq<seq<Byte>>, last: Option<real>, step: Stepper)
    ensures Run(xs + ys, last, step) == Continue(Run(xs, last, step), ys, step)
  {
    if xs == [] {
      assert xs + ys == ys;
    } else {
      assert (xs + ys)[0] == xs[0];
      assert (xs + ys)[1..] == xs[1..] + ys;
      match step(xs[0], last)
      case Raised =>
      case Stepped(mapped, last') =>
        RunConcat(xs[1..], ys, last', step);
        var a := Run(xs[1..], last', step);
        if !a.failed {
          var b := Run(ys, a.lastRainTotal, step);
          assert Yielded(mapped) + (a.out + b.out) == (Yielded(mapped) + a.out) + b.out;
        }
    }
  }

  predicate AllStamped(records: seq<Record>, now: int)
  {
    forall i | 0 <= i < |records| :: Stamped(records[i], now)
  }

  /** Processing one more packet: what the loop so far produced, followed
      by that packet's step from the rain total left so far. */
  lemma RunSnoc(xs: seq<seq<Byte>>, x: seq<Byte>, last: Option<real>, step: Stepper)
    ensures var a := Run(xs, last, step);
      Run(xs + [x], last, step)
        == if a.failed then a
           else match step(x, a.lastRainTotal)
             case Raised => Outcome(a.out, a.lastRainTotal, true)
             case Stepped(mapped, last') => Outcome(a.out + Yielded(mapped), last', false)
  {
    RunConcat(xs, [x], last, step);
    var a := Run(xs, last, step);
    if !a.failed {
      var one := [x];
      assert one[0] == x && one[1..] == [];
      match step(x, a.lastRainTotal)
      case Raised =>
      case Stepped(mapped, last') =>
        assert Run(one, a.lastRainTotal, step) == Outcome(Yielded(mapped), last', false);
    }
  }

  /** Once a packet has raised, the packets after it change nothing. */
  lemma RunAfterRaise(xs: seq<seq<Byte>>, ys: seq<seq<Byte>>, last: Option<real>, step: Stepper)
    requires Run(xs, last, step).failed
    ensures Run(xs + ys, last, step) == Run(xs, last, step)
  {
    RunConcat(xs, ys, last, step);
  }

  /** Every record the loop yields carries the decode time and METRIC. */
  lemma {:induction false} RunStamped(frags: seq<seq<Byte>>, now: int, last: Option<real>,
                                      sensorMap: SensorMap, calculateRain: RainRule)
    ensures AllStamped(Run(frags, last, PacketStepper(now, sensorMap, calculateRain)).out, now)
  {
    if frags != [] {
      assert PacketStepper(now, sensorMap, calculateRain)(frags[0], last)
          == StepPacket(frags[0], now, last, sensorMap, calculateRain);
      match StepPacket(frags[0], now, last, sensorMap, calculateRain)
      case Raised =>
      case Stepped(mapped, last') =>
        RunStamped(frags[1..], now, last', sensorMap, calculateRain);
        var o := Run(frags, last, PacketStepper(now, sensorMap, calculateRain));
        var rest := Run(frags[1..], last', PacketStepper(now, sensorMap, calculateRain));
        assert o.out == Yielded(mapped) + rest.out;
        forall i | 0 <= i < |o.out| ensures Stamped(o.out[i], now) {
          if i >= |Yielded(mapped)| {
            assert o.out[i] == rest.out[i - |Yielded(mapped)|];
            assert Stamped(rest.out[i - |Yielded(mapped)|], now);
          } else {
            assert o.out[i] == mapped.value;
            assert Stamped(mapped.value, now);
          }
        }
    }
  }

  /** A packet whose tag is not rain, wind, pressure or temperature (the time
      packet included) yields nothing, leaves the rain total alone and does
      not disturb the packets after it. */
  lemma UnknownPacketSkipped(raw: seq<Byte>, rest: seq<seq<Byte>>, now: int, last: Option<real>,
                             sensorMap: SensorMap, calculateRain: RainRule)
    requires |raw| > 0 && raw[0] !in {RAIN_TAG, WIND_TAG, PRESSURE_TAG, TEMP_TAG}
    ensures var step := PacketStepper(now, sensorMap, calculateRain);
      Run([raw] + rest, last, step) == Run(rest, last, step)
  {
    assert ([raw] + rest)[1..] == rest;
  }

  /** The record of a wind, pressure or temperature packet long enough for
      its decoder: what that decoder returns (bin/user/wmr89.py:250-255). */
  function Reading(raw: seq<Byte>, now: int): (r: Option<Record>)
    requires |raw| > 0 && raw[0] in {WIND_TAG, PRESSURE_TAG, TEMP_TAG} && !Short(raw)
    ensures r.None? <==> raw[0] == TEMP_TAG && raw[2] > 3
    ensures r.Some? ==> Stamped(r.value, now)
    ensures forall last: Option<real>, calculateRain: RainRule {:trigger DecodePacket(raw, now, last, calculateRain)} ::
      DecodePacket(raw, now, last, calculateRain) == Decoded(r, last)
  {
    if raw[0] == WIND_TAG then Some(WindPacket(raw, now))
    else if raw[0] == PRESSURE_TAG then Some(PressurePacket(raw, now))
    else TempPacket(raw, now)
  }

  /** A wind, pressure or temperature packet that is long enough is decoded
      by its own decoder: the loop yields that decoder's record remapped
      through the sensor map, when there is one, keeps the rain total, and
      goes on with the packets after it. */
  lemma ReadingYielded(raw: seq<Byte>, rest: seq<seq<Byte>>, now: int, last: Option<real>,
                       sensorMap: SensorMap, calculateRain: RainRule)
    requires |raw| > 0 && raw[0] in {WIND_TAG, PRESSURE_TAG, TEMP_TAG} && !Short(raw)
    ensures var step := PacketStepper(now, sensorMap, calculateRain);
      var tail := Run(rest, last, step);
      Run([raw] + rest, last, step)
        == Outcome(Yielded(MappedRecord(Reading(raw, now), sensorMap)) + tail.out, tail.lastRainTotal, tail.failed)
  {
    assert ([raw] + rest)[0] == raw && ([raw] + rest)[1..] == rest;
  }

  /** A rain packet long enough for its decoder yields its rain record,
      computed against the total kept so far and remapped through the sensor
      map, and the packets after it are processed from its own total. */
  lemma RainYielded(raw: seq<Byte>, rest: seq<seq<Byte>>, now: int, last: Option<real>,
                    sensorMap: SensorMap, calculateRain: RainRule)
    requires |raw| >= RAIN_MIN_LENGTH && raw[0] == RAIN_TAG
    ensures var step := PacketStepper(now, sensorMap, calculateRain);
      var tail := Run(rest, Some(RainTotal(raw)), step);
      Run([raw] + rest, last, step)
        == Outcome(Yielded(MappedRecord(Some(RainRecord(raw, now, last, calculateRain)), sensorMap)) + tail.out,
                   tail.lastRainTotal, tail.failed)
  {
    assert ([raw] + rest)[0] == raw && ([raw] + rest)[1..] == rest;
  }

  /** `rain` of a rain packet is computed against the total of the rain
      packet decoded before it, and the total kept is the newest one. */
  lemma RainAgainstPreviousTotal(p: seq<Byte>, q: seq<Byte>, now: int, now': int, last: Option<real>,
                                 calculateRain: RainRule)
    requires |p| >= RAIN_MIN_LENGTH && p[0] == RAIN_TAG
    requires |q| >= RAIN_MIN_LENGTH && q[0] == RAIN_TAG
    ensures var d := DecodePacket(p, now, last, calculateRain);
      var e := DecodePacket(q, now', d.lastRainTotal, calculateRain);
      && e.Decoded? && e.packet.Some? && "rain" in e.packet.value
      && e.packet.value["rain"] == calculateRain(RainTotal(q), Some(RainTotal(p)))
      && e.lastRainTotal == Some(RainTotal(q))
  {
  }

  /** After a loop that did not raise and whose last packet is a rain packet,
      the rain total kept is that packet's total. */
  lemma RunKeepsLastRainTotal(frags: seq<seq<Byte>>, raw: seq<Byte>, now: int, last: Option<real>,
                              sensorMap: SensorMap, calculateRain: RainRule)
    requires |raw| >= RAIN_MIN_LENGTH && raw[0] == RAIN_TAG
    ensures var o := Run(frags + [raw], last, PacketStepper(now, sensorMap, calculateRain));
      !o.failed ==> o.lastRainTotal == Some(RainTotal(raw))
  {
    var step := PacketStepper(now, sensorMap, calculateRain);
    RunSnoc(frags, raw, last, step);
    var a := Run(frags, last, step);
    assert step(raw, a.lastRainTotal) == StepPacket(raw, now, a.lastRainTotal, sensorMap, calculateRain);
  }

  /** Only rain packets touch the rain total. */
  lemma {:induction false} RainTotalOnlyFromRainPackets(frags: seq<seq<Byte>>, now: int, last: Option<real>,
                                                        sensorMap: SensorMap, calculateRain: RainRule)
    requires forall i | 0 <= i < |frags| :: |frags[i]| > 0 && frags[i][0] != RAIN_TAG
    ensures Run(frags, last, PacketStepper(now, sensorMap, calculateRain)).lastRainTotal == last
  {
    if frags != [] {
      RainTotalOnlyFromRainPackets(frags[1..], now, last, sensorMap, calculateRain);
    }
  }

  /** The loop ends in an IndexError exactly when some packet is too short. */
  lemma {:induction false} RunFailsIffShort(frags: seq<seq<Byte>>, now: int, last: Option<real>,
                                            sensorMap: SensorMap, calculateRain: RainRule)
    ensures Run(frags, last, PacketStepper(now, sensorMap, calculateRain)).failed
        <==> exists i | 0 <= i < |frags| :: Short(frags[i])
  {
    if frags != [] {
      match StepPacket(frags[0], now, last, sensorMap, calculateRain)
      case Raised =>
      case Stepped(mapped, last') =>
        RunFailsIffShort(frags[1..], now, last', sensorMap, calculateRain);
        if exists i | 0 <= i < |frags| :: Short(frags[i]) {
          var i :| 0 <= i < |frags| && Short(frags[i]);
          assert i > 0 && Short(frags[1..][i - 1]);
        }
        if exists i | 0 <= i < |frags[1..]| :: Short(frags[1..][i]) {
          var i :| 0 <= i < |frags[1..]| && Short(frags[1..][i]);
          assert Short(frags[i + 1]);
        }
    }
  }

  /** A buffer holding one pressure packet, framed by a leading delimiter. */
  const PRESSURE_BUFFER: seq<Byte> := [0xF2, 0xF2, 0xB4, 0x09, 0x27, 0xE9, 0x27, 0xE9, 0x03, 0x02, 0xE0]

  lemma PressureBufferFrame()
    ensures Frame(PRESSURE_BUFFER) == [PRESSURE_BUFFER[2..]]
  {
    var raw := PRESSURE_BUFFER[2..];
    assert !HasDelimiter(raw);
    SplitWholeIffNoDelimiter(raw);
    var none: seq<Byte> := [];
    assert Split(PRESSURE_BUFFER) == [none, raw];
  }

  lemma PressureBufferStep(now: int, last: Option<real>, sensorMap: SensorMap, calculateRain: RainRule)
    requires sensorMap == map["pressure" := "pressure", "barometer" := "barometer"]
    ensures StepPacket(PRESSURE_BUFFER[2..], now, last, sensorMap, calculateRain)
         == Stepped(Some(map["pressure" := Float(1021.7), "barometer" := Float(1021.7),
                             DATE_TIME := Int(now), US_UNITS := Int(METRIC)]), last)
  {
    var rec := PressurePacket(PRESSURE_BUFFER[2..], now);
    assert rec["pressure"] == Float(1021.7) && rec["barometer"] == Float(1021.7);
    assert Renamed(rec, sensorMap) == map["pressure" := Float(1021.7), "barometer" := Float(1021.7)];
  }

  /** The buffer yields one record: the words 0x27E9 read as 1021.7 for both
      station and sea-level pressure, stamped with the decode time. */
  lemma PressureBufferExample(now: int, last: Option<real>, sensorMap: SensorMap, calculateRain: RainRule)
    requires sensorMap == map["pressure" := "pressure", "barometer" := "barometer"]
    ensures Run(Frame(PRESSURE_BUFFER), last, PacketStepper(now, sensorMap, calculateRain))
         == Outcome([map["pressure" := Float(1021.7), "barometer" := Float(1021.7),
                         DATE_TIME := Int(now), US_UNITS := Int(METRIC)]], last, false)
  {
    PressureBufferFrame();
    PressureBufferStep(now, last, sensorMap, calculateRain);
    var frags: seq<seq<Byte>> := [PRESSURE_BUFFER[2..]];
    assert frags[1..] == [];
  }

  /** The driver object; only the state the pipeline uses is modelled. */
  class WMR89 {
    const sensorMap: SensorMap
    const calculateRain: RainRule
    var lastRainTotal: Option<real>

    /** The sensor map is the default map updated with the station's
        overrides; no rain total has been seen (bin/user/wmr89.py:205-209). */
    constructor (defaultMap: SensorMap, overrides: SensorMap, calculateRain: RainRule)
      ensures sensorMap == defaultMap + overrides
      ensures this.calculateRain == calculateRain
      ensures lastRainTotal == None
    {
      this.sensorMap := defaultMap + overrides;
      this.calculateRain := calculateRain;
      lastRainTotal := None;
    }

    /** `_wmr89_rain_packet`: the new total replaces the last one, whatever it was. */
    method RainPacket(packet: seq<Byte>, now: int) returns (r: Record)
      requires |packet| >= RAIN_MIN_LENGTH
      modifies this`lastRainTotal
      ensures r == RainRecord(packet, now, old(lastRainTotal), calculateRain)
      ensures lastRainTotal == Some(r["rain_total"].x)
    {
      r := RainFields(packet, now);
      r := r["rain" := calculateRain(r["rain_total"].x, lastRainTotal)];
      lastRainTotal := Some(r["rain_total"].x);
    }

    /** One raw packet through the dispatch of bin/user/wmr89.py:244-257. */
    method Decode(raw: seq<Byte>, now: int) returns (d: Decoded)
      modifies this`lastRainTotal
      ensures d == DecodePacket(raw, now, old(lastRainTotal), calculateRain)
      ensures lastRainTotal == if d.Decoded? then d.lastRainTotal else old(lastRainTotal)
    {
      var packet: Option<Record> := None;
      if |raw| == 0 {
        return IndexError;
      } else if raw[0] == TIME_TAG {
        packet := TimePacket(raw);
      } else if raw[0] == RAIN_TAG {
        if |raw| < RAIN_MIN_LENGTH {
          return IndexError;
        }
        var rec := RainPacket(raw, now);
        packet := Some(rec);
      } else if raw[0] == WIND_TAG {
        if |raw| < WIND_MIN_LENGTH {
          return IndexError;
        }
        packet := Some(WindPacket(raw, now));
      } else if raw[0] == PRESSURE_TAG {
        if |raw| < PRESSURE_MIN_LENGTH {
          return IndexError;
        }
        packet := Some(PressurePacket(raw, now));
      } else if raw[0] == TEMP_TAG {
        if |raw| < TEMP_MIN_LENGTH {
          return IndexError;
        }
        packet := TempPacket(raw, now);
      }
      d := Decoded(packet, lastRainTotal);
    }

    /** One turn of the loop (bin/user/wmr89.py:244-261): decode the raw
        packet and remap it; `raised` is the IndexError of a short packet. */
    method ProcessPacket(raw: seq<Byte>, now: int) returns (mapped: Option<Record>, raised: bool)
      modifies this`lastRainTotal
      ensures StepPacket(raw, now, old(lastRainTotal), sensorMap, calculateRain)
           == if raised then Raised else Stepped(mapped, lastRainTotal)
      // The same turn through the loop's step function, the form ProcessPackets' proof uses.
      ensures PacketStepper(now, sensorMap, calculateRain)(raw, old(lastRainTotal))
           == if raised then Raised else Stepped(mapped, lastRainTotal)
      ensures raised ==> lastRainTotal == old(lastRainTotal)
    {
      var d := Decode(raw, now);
      if d.IndexError? {
        return None, true;
      }
      mapped, raised := None, false;
      if d.packet.Some? && d.packet.value != map[] {
        mapped := SensorsToFields(d.packet, sensorMap);
      }
    }

    /** The loop over one buffer's raw packets (bin/user/wmr89.py:240-261):
        the records it yields, in order, and whether a packet raised. */
    method ProcessPackets(rawPackets: seq<seq<Byte>>, now: int) returns (out: seq<Record>, failed: bool)
      modifies this`lastRainTotal
      ensures Outcome(out, lastRainTotal, failed)
           == Run(rawPackets, old(lastRainTotal), PacketStepper(now, sensorMap, calculateRain))
    {
      out, failed := [], false;
      ghost var step := PacketStepper(now, sensorMap, calculateRain);
      var i := 0;
      while i < |rawPackets|
        invariant 0 <= i <= |rawPackets|
        invariant Run(rawPackets[..i], old(lastRainTotal), step) == Outcome(out, lastRainTotal, false)
      {
        var raw := rawPackets[i];
        ghost var before := lastRainTotal;
        RunSnoc(rawPackets[..i], raw, old(lastRainTotal), step);
        assert rawPackets[..i + 1] == rawPackets[..i] + [raw];
        var mapped, raised := ProcessPacket(raw, now);
        if raised {
          RunAfterRaise(rawPackets[..i + 1], rawPackets[i + 1..], old(lastRainTotal), step);
          assert rawPackets[..i + 1] + rawPackets[i + 1..] == rawPackets;
          failed := true;
          return;
        }
        assert mapped.Some? ==> DATE_TIME in mapped.value;
        if mapped.Some? && mapped.value != map[] {
          out := out + [mapped.value];
        }
        i := i + 1;
      }
      assert rawPackets[..i] == rawPackets;
    }

    /** The body of `genLoopPackets` for one buffer read at time `now`
        (bin/user/wmr89.py:234-261): an empty read yields nothing; otherwise
        the buffer is framed and its raw packets processed in order. */
    method ProcessBuffer(buf: seq<Byte>, now: int) returns (out: seq<Record>, failed: bool)
      modifies this`lastRainTotal
      ensures Outcome(out, lastRainTotal, failed)
           == Run(Frame(buf), old(lastRainTotal), PacketStepper(now, sensorMap, calculateRain))
    {
      if buf == [] {
        assert Frame(buf) == [];
        return [], false;
      }
      var rawPackets := Frame(buf);
      out, failed := ProcessPackets(rawPackets, now);
    }
  }
}
