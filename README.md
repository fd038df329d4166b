# WMR89 packet pipeline, in Dafny

This project models the packet pipeline of the weewx driver for the Oregon
Scientific WMR89 console (`bin/user/wmr89.py`). The pipeline covers
everything from "a buffer of bytes has been read from the serial line" to
"a record keyed by weewx field names is yielded":

- **Framing** (`framing.dfy`, module `Framing`). The buffer is split on every
  `F2 F2` pair, leftmost match first and without overlap, as `bytes.split`
  does. Empty pieces are dropped.
- **Dispatch** (`driver.dfy`, `Driver.DecodePacket`). The first byte routes a
  raw packet to one of five decoders: `B0` time, `B1` rain, `B2` wind,
  `B4` pressure and `B5` temperature/humidity. Any other tag yields nothing.
- **Decoders** (`decoders.dfy`, module `Decoders`). Each decoder reads fixed
  byte offsets: big-endian 16-bit words, the two's-complement temperature,
  and the sentinel bytes for windchill (125), dewpoint (125), humidity (252
  and 254) and hourly rain (`FF FE`). Each is a pure function. The wind,
  rain and pressure decoders always return a record stamped with the decode
  time and the METRIC unit tag. The temperature decoder returns one only for
  channels 0 to 3 and None for any other channel, and the time decoder
  always returns None.
- **Rain state** (`Driver.WMR89.lastRainTotal`). The last cumulative rain
  total is the driver's only state. It starts as `None`. Each rain packet
  computes `rain` from the new total and the old one, then replaces the
  old total.
- **Remapping** (`remap.dfy`, `Remap.SensorsToFields`). The sensor map
  renames observation names to field names, and `dateTime` and `usUnits`
  are copied across.
- **The loop** (`Driver.WMR89.ProcessBuffer`). This is the body of
  `genLoopPackets` for one buffer. It is proved equal to a specification
  function, `Driver.Run`, which processes the raw packets one by one.

Numbers are exact: bytes are integers 0..255, and the scale factors (0.36,
22.5, 0.1, 2.54/100, 5/9) are Dafny `real`s. Records are
`map<string, Value>`, where a `Value` is a Python float (`Float`), a Python
int (`Int`) or `None` (`Null`).

The decoders do not check a packet's length. The shortest packet each one
can index is its precondition: wind 9, rain 10, pressure 6, temperature 9.
A shorter packet makes the driver raise an uncaught `IndexError`, which
ends the generator. The loop models that as `failed`. The records yielded
before the short packet are kept, and no later packet is processed.

Behaviours kept as written:

- bytes 4-5 of a rain packet go under `rain_rate`;
- the `FF FE`-guarded bytes 2-3 go under `rain_hour`;
- windchill bytes above 125 read as `b - 255`, so byte 255 decodes to the
  same 0 F as byte 0 (`Decoders.WindchillAboveSentinel`);
- the heat index is computed but never stored.

Other consequences of the code:

- A packet too short for its decoder raises an uncaught `IndexError` at the
  first byte its decoder reads past the end (bin/user/wmr89.py:290-334,
  361-380, 428-429). That ends the generator, and the rest of the buffer is
  lost.
- Every decoded record is remapped through the sensor map inside the loop
  (bin/user/wmr89.py:259) before it is yielded.
- The two words of the sample pressure packet `B4 09 27 E9 27 E9 ...` are
  `0x27E9` = 10217, so both read 1021.7 (`Driver.PressureBufferExample`).

## Model

| member | source | states |
|---|---|---|
| `Conversions.FtoC` | bin/user/wmr89.py:28-29 | the Celsius value converts back to the given Fahrenheit value by `c * 9/5 + 32` |
| `Conversions.FtoCRoundTrip` | bin/user/wmr89.py:28-29 | FtoC has an exact inverse: converting to Celsius and back gives the Fahrenheit value again, and the reverse round trip holds too |
| `Conversions.FtoCStrictlyIncreasing` | bin/user/wmr89.py:28-29 | FtoC preserves order strictly, so distinct Fahrenheit readings stay distinct |
| `Conversions.Word` | bin/user/wmr89.py:327-334 | `256*hi + lo` lies in 0..65535, and hi and lo are its quotient and remainder by 256 |
| `Conversions.WordInjective` | bin/user/wmr89.py:428-429 | two byte pairs give the same word exactly when they are equal |
| `Conversions.Signed16` | bin/user/wmr89.py:361-363 | subtracting 65536 from words of at least 32768 gives a value in -32768..32767 that is congruent to the word mod 65536 |
| `Conversions.Signed16RoundTrip` | bin/user/wmr89.py:361-363 | every signed value in -32768..32767 is the reading of exactly one word (its residue mod 65536) |
| `Framing.Split` | bin/user/wmr89.py:238 | the split always has at least one piece, and the first piece is a prefix of the buffer |
| `Framing.JoinSplit` | bin/user/wmr89.py:238 | joining the unfiltered split pieces with `F2 F2` gives back the buffer |
| `Framing.SplitPiecesHaveNoDelimiter` | bin/user/wmr89.py:238 | no piece of the split contains an `F2 F2` pair |
| `Framing.SplitWholeIffNoDelimiter` | bin/user/wmr89.py:238 | a buffer splits into itself alone exactly when it contains no `F2 F2` pair |
| `Framing.KeepNonEmpty` | bin/user/wmr89.py:238 | the `if _f` filter keeps no more pieces than it is given, and every kept piece is non-empty |
| `Framing.KeepNonEmptyFromPieces` | bin/user/wmr89.py:238 | every kept piece is one of the given pieces, and dropping the empty pieces leaves their concatenation unchanged |
| `Framing.KeepNonEmptyOne` | bin/user/wmr89.py:238 | a single piece is kept exactly when it is non-empty |
| `Framing.KeepNonEmptyConcat` | bin/user/wmr89.py:238 | filtering a list in two parts filters each part in turn; with `KeepNonEmptyOne` this fixes the result as exactly the non-empty pieces, each once, in their original order |
| `Framing.Frame` | bin/user/wmr89.py:238 | every raw packet is a non-empty piece of the split, and there are no more raw packets than pieces |
| `Framing.FramesAreClean` | bin/user/wmr89.py:238 | every raw packet is non-empty and contains no `F2 F2` pair |
| `Framing.FramesKeepOrder` | bin/user/wmr89.py:238 | laid end to end, the raw packets give the same bytes as the split pieces laid end to end, and those pieces joined with the delimiter are the buffer |
| `Framing.SplitAfterPiece` | bin/user/wmr89.py:238 | a delimiter-free piece that does not end in F2, followed by a delimiter and the rest, splits into that piece followed by the split of the rest |
| `Framing.FrameAfterPiece` | bin/user/wmr89.py:238 | the piece before the first delimiter is the first raw packet when it is non-empty, and the raw packets of the rest of the buffer follow it in their order |
| `Framing.FrameExample` | bin/user/wmr89.py:238 | `F2F2 41 F2F2 42 F2F2` frames to exactly `[41]`, `[42]`: leading, trailing and adjacent delimiters give no packet |
| `Decoders.Windchill` | bin/user/wmr89.py:293-299 | the windchill byte is None exactly at 125; below 125 it is FtoC of the byte; above 125 it is FtoC of byte - 255; every value lies in [FtoC(-129), FtoC(124)] |
| `Decoders.WindchillAboveSentinel` | bin/user/wmr89.py:298-299 | above 125 the reading is one degree F warmer than two's complement (`b - 256`), and bytes 255 and 0 decode alike |
| `Decoders.WindPacket` | bin/user/wmr89.py:285-310 | exactly the six keys wind_speed, wind_dir, wind_gust, windchill, dateTime, usUnits; speed and gust are bytes 3 and 5 times 0.36, in [0, 91.8]; direction is byte 7 times 22.5, in [0, 5737.5]; windchill follows the sentinel rule; the record is stamped with `now` and METRIC |
| `Decoders.WindPacketLossless` | bin/user/wmr89.py:290-299 | two wind packets decode alike exactly when bytes 3, 5 and 7 agree and their windchill readings agree |
| `Decoders.RainAmount` | bin/user/wmr89.py:327-334 | a word of hundredths of an inch becomes centimetres in [0, 1664.589], and converting back gives the word |
| `Decoders.RainTotal` | bin/user/wmr89.py:334 | the cumulative total is the word at bytes 8-9 in hundredths of an inch, converted to centimetres in [0, 1664.589]; this is the value kept as the last rain total |
| `Decoders.RainHour` | bin/user/wmr89.py:322-327 | bytes 2-3 read None exactly when they are `FF FE`; otherwise they read the non-negative amount of that word |
| `Decoders.RainFields` | bin/user/wmr89.py:312-343 | exactly the keys rain_rate, rain_total, rain_hour, rain_24, dateTime, usUnits; rain_hour comes from bytes 2-3 under the sentinel rule; rain_rate, rain_24 and rain_total come from bytes 4-5, 6-7 and 8-9; every amount is non-negative; the record is stamped |
| `Decoders.RainFieldsLossless` | bin/user/wmr89.py:324-334 | two rain packets give the same fields exactly when bytes 2 to 9 agree |
| `Decoders.PressurePacket` | bin/user/wmr89.py:422-438 | exactly the keys pressure, barometer, dateTime, usUnits; the words at bytes 2-3 and 4-5 times 0.1, each in [0, 6553.5]; the record is stamped |
| `Decoders.PressurePacketLossless` | bin/user/wmr89.py:428-429 | two pressure packets decode alike exactly when bytes 2 to 5 agree |
| `Decoders.Temperature` | bin/user/wmr89.py:361-364 | the temperature is the signed word at bytes 3-4 in tenths, within [-3276.8, 3276.7] |
| `Decoders.TemperatureInjective` | bin/user/wmr89.py:361-364 | two byte pairs give the same temperature exactly when they are equal |
| `Decoders.Humidity` | bin/user/wmr89.py:366-372 | byte 254 gives the int 95 and 252 gives the int 25; every other byte gives its own value as a float |
| `Decoders.Dewpoint` | bin/user/wmr89.py:374-378 | the dewpoint is None exactly at byte 125; otherwise it is an int in [-130, 124] congruent to the byte mod 256 |
| `Decoders.DewpointRoundTrip` | bin/user/wmr89.py:374-378 | every dewpoint in -130..124 is the reading of its byte (the value mod 256) |
| `Decoders.ChannelSuffix` | bin/user/wmr89.py:385-418 | a channel has a key suffix exactly when it is 0..3 |
| `Decoders.ChannelSuffixInjective` | bin/user/wmr89.py:385-418 | the four channels 0..3 have four distinct suffixes |
| `Decoders.TempPacketChannels` | bin/user/wmr89.py:385-416 | channel 0 fills humidity_in, temperature_in and dewpoint_in; channel 1 the `_out` keys; channel 2 the `_1` keys; channel 3 the `_2` keys; each record also holds dateTime and usUnits and nothing else |
| `Decoders.TempPacket` | bin/user/wmr89.py:350-420 | a record exists exactly when channel byte 2 is 0..3; it has exactly the keys humidity_X, temperature_X, dewpoint_X, dateTime and usUnits for that channel's suffix X; its values follow the temperature, humidity and dewpoint rules; it is stamped |
| `Decoders.TimePacket` | bin/user/wmr89.py:440-453 | the time packet always decodes to None |
| `Remap.Renamed` | bin/user/wmr89.py:267-270 | the renaming is empty exactly when no field of the sensor map names an observation the record holds |
| `Remap.MappedRecord` | bin/user/wmr89.py:263-275 | the result is None exactly when the input is None or empty or no field maps; otherwise, outside dateTime and usUnits, field k is present exactly when `sensor_map[k]` is a key of the input, with that value; dateTime and usUnits are copied |
| `Remap.SensorsToFields` | bin/user/wmr89.py:263-275 | the in-place insertion loop over the sensor map returns exactly `MappedRecord` |
| `Remap.MappedRecordStamped` | bin/user/wmr89.py:271-273 | remapping a stamped record can be done, and its result carries the same decode time and METRIC |
| `Driver.RainRecord` | bin/user/wmr89.py:336-345 | the rain record has the rain fields plus `rain`, which is `calculate_rain(new total, previous total)`; it is stamped |
| `Driver.MinLength` | bin/user/wmr89.py:244-257 | every tag needs at least the tag byte; exactly the rain, wind, pressure and temperature tags need more |
| `Driver.ShortPackets` | bin/user/wmr89.py:290-429 | a raw packet raises exactly when it is empty, or is a rain packet of at most 9 bytes, a wind or temperature packet of at most 8, or a pressure packet of at most 5; time packets and unknown tags never raise |
| `Driver.DecodePacket` | bin/user/wmr89.py:244-257 | the decode raises exactly on a packet too short for its tag; a rain packet yields its record and sets the total to its own; a wind, pressure or temperature packet yields what the wind, pressure or temperature decoder returns; a time packet and every other tag yield nothing; only rain changes the total; every record is stamped |
| `Driver.StepPacket` | bin/user/wmr89.py:244-261 | one loop turn raises exactly on a short packet; any record it yields is stamped; only a rain packet changes the total; unknown and time tags yield nothing |
| `Driver.Run` | bin/user/wmr89.py:240-261 | the loop yields at most one record per raw packet |
| `Driver.RunConcat` | bin/user/wmr89.py:240-261 | processing two lists in a row equals processing the first, then the second from the total it left, unless the first raised |
| `Driver.RunSnoc` | bin/user/wmr89.py:240-261 | one more packet appends its remapped record, if any, and its new total to what the loop had produced |
| `Driver.RunAfterRaise` | bin/user/wmr89.py:240-261 | once a packet has raised, later packets change nothing |
| `Driver.RunStamped` | bin/user/wmr89.py:259-261 | every yielded record carries `dateTime = now` and `usUnits = METRIC` |
| `Driver.UnknownPacketSkipped` | bin/user/wmr89.py:246-257 | a packet whose tag is not B1/B2/B4/B5 yields nothing, keeps the rain total and leaves the packets after it unaffected |
| `Driver.Reading` | bin/user/wmr89.py:250-255 | a long-enough wind, pressure or temperature packet has no record exactly when it is a temperature packet of a channel above 3; any record is stamped; and it is exactly what the dispatch decodes for that packet, whatever the rain total and rain rule, with the total kept |
| `Driver.ReadingYielded` | bin/user/wmr89.py:250-261 | a wind, pressure or temperature packet long enough for its decoder adds that decoder's record, remapped through the sensor map, to the loop's output, keeps the rain total, and the loop goes on with the next packets |
| `Driver.RainYielded` | bin/user/wmr89.py:248-261 | a rain packet long enough for its decoder adds its rain record, computed against the total kept so far and remapped through the sensor map, to the loop's output, and the loop goes on with the next packets from that packet's own total |
| `Driver.RainAgainstPreviousTotal` | bin/user/wmr89.py:345-346 | of two rain decodes in a row, the second computes `rain` against the first one's total and keeps its own total |
| `Driver.RunKeepsLastRainTotal` | bin/user/wmr89.py:345-346 | after a loop that did not raise and ended on a rain packet, the kept total is that packet's total |
| `Driver.RainTotalOnlyFromRainPackets` | bin/user/wmr89.py:244-257 | a list with no rain packet leaves the rain total unchanged |
| `Driver.RunFailsIffShort` | bin/user/wmr89.py:240-257 | the loop raises exactly when some raw packet is too short for its decoder |
| `Driver.PressureBufferExample` | bin/user/wmr89.py:422-438 | buffer `F2F2 B4 09 27 E9 27 E9 03 02 E0` yields one record with pressure and barometer 1021.7, stamped, and the rain total unchanged |
| `Driver.WMR89.constructor` | bin/user/wmr89.py:205-209 | the sensor map is the default map updated with the overrides, and no rain total has been seen |
| `Driver.WMR89.RainPacket` | bin/user/wmr89.py:312-348 | returns the rain record computed against the previous total, and the total becomes this record's `rain_total`, whatever it was before |
| `Driver.WMR89.Decode` | bin/user/wmr89.py:244-257 | the dispatch method agrees with `DecodePacket`, and the total changes only as that says |
| `Driver.WMR89.ProcessPacket` | bin/user/wmr89.py:244-261 | one loop turn agrees with `StepPacket`; a raising packet leaves the total alone |
| `Driver.WMR89.ProcessPackets` | bin/user/wmr89.py:240-261 | the yielded records, the final total and the raise flag are exactly `Run` of the raw packets from the old total |
| `Driver.WMR89.ProcessBuffer` | bin/user/wmr89.py:234-261 | the body of `genLoopPackets` for one buffer is exactly `Run` of `Frame(buf)` from the old total |

## Left out

- Serial transport (`SerialWrapper`): port opening and closing, `inWaiting`, the `D1 00` poll write, the 0.5 s sleep and `readAll` are I/O. The model starts from a buffer that has already been read.
- The endless `while True` of `genLoopPackets` and its lazy yielding: one buffer is processed per call, and the records it would yield are returned in order.
- Wall-clock time: the driver reads `int(time.time() + 0.5)` separately in each decoder (bin/user/wmr89.py:304, 341, 390, 398, 406, 414, 434), so records from one buffer can carry different `dateTime` values. The model takes one clock reading per buffer, the parameter `now`, in place of one reading per decoded packet. `Driver.RunStamped` and `Driver.PressureBufferExample` state their stamp under that simplification.
- `weewx.wxformulas.calculate_rain` is a host library function whose body is not part of this model. The driver receives it as the function `calculateRain`, and nothing about it is assumed. So the delta rule (None on the first reading or when the counter decreases) is not proved.
- `weewx.METRIC` is outside the driver. It is taken as the constant 0x10.
- `DEFAULT_MAP` is plain data. The constructor takes the default map as a parameter.
- The heat index (bin/user/wmr89.py:380-383) is computed and never stored, so it has no effect. Its read of byte 8 is kept as the temperature decoder's minimum length of 9.
- Logging, `log_hex` and the debug branches, the configuration editor, `loader`, `hardware_name`, `closePort`, the `__main__` harness and `install.py`.
- Floating-point rounding: every conversion is over exact reals.
- Python dict ordering: records are maps, so the order of keys in a record is not modelled. The order of the yielded records is modelled.
