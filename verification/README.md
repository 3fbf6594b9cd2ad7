# A verified model of c-ulib

c-ulib is a set of small C99 modules for microcontrollers. This project models
five of them in Dafny and proves what they promise, over all inputs, all byte
streams and all runs:

- **nmea**: the byte-fed NMEA 0183 parser. The class `Nmea.Parser` keeps the
  fields of `st_nmea` and works in place on its line buffer. It is proved to
  deliver exactly the events of a specification that cuts the whole stream into
  lines and checks each line at once (`NmeaSpec`). On that specification rest
  isolation of lines, detection of every single corrupted body byte, the
  checksum rule counted bit by bit, and what every sentence decodes to, told on
  its list of fields.
- **nmea time zones and astro**: `nmea_shift_tz` walks day by day,
  `julian_date` is a closed formula with floors. Both are proved against one
  calendar (`Calendar`), in which dates and day numbers are a bijection, and so
  against each other. The shift is an additive action on minutes.
- **ujson**: the eight-state incremental parser over fixed 64-byte slots. The
  class `Ujson.Parser` refines an abstract machine; the machine yields the
  callbacks and error positions of a recursive-descent parser on the whole
  stream (`UjsonSpec`); that parser is sound and complete for a grammar which
  names its bytes and sizes outright, and a
  byte is refused exactly when no object can follow it any more, with one
  exception. Print, parse and look up is the identity.
- **mqtt on byte_stream**: the packet builders write the wire form of MQTT
  3.1.1 packets, a decoder written after the OASIS standard inverts it for
  single packets and for streams, every accepted call is decoded to what the
  caller passed, and nothing outside the packet is touched.
- **stepper**: the tick-driven controller with a ghost trace of pin writes. The
  position counter is the shaft position that the pins produced, and the
  position after k ticks has an exact closed form; the target after any run is
  the last absolute move plus the relative ones behind it.

## How the model is laid out

| files | content |
|---|---|
| `Machine`, `Text` | C integer types and conversions; bytes, decimal numerals |
| `Calendar`, `Astro`, `TimeShift` | calendar, Julian date, time-zone shift |
| `NmeaSpec`, `NmeaLaws`, `NmeaChecksum`, `NmeaRoundTrip`, `NmeaDecode`, `Nmea` | meaning of a stream, its laws, the checksum bit by bit, printing, what each sentence decodes to, the parser class |
| `UjsonSpec`, `UjsonMachine`, `UjsonRefinement`, `UjsonGrammar`, `UjsonRefusal`, `UjsonLookup`, `UjsonRoundTrip`, `Ujson` | reference parser, machine, refinement, grammar, refused bytes, lookups, round trip, the parser class |
| `ByteStream`, `Varint`, `MqttWire`, `Mqtt` | typed buffer access, Remaining Length, wire format and decoder, builders |
| `StepperModel`, `Stepper` | state machine and laws, the controller class |

Callbacks append to a ghost log (`Nmea.Parser.log`, `Ujson.Parser.log`) and do
not change the parser; the ujson handler is called in a state in which the
lookup methods may be called. The ghost field `fed` is the stream so far, and
`Valid()` says that the other fields stand for that stream. Bytes are `bv8`
where the source XORs or compares text, and integers from 0 to 255 where it
does arithmetic. The floating-point routines of nmea are a record of unknown
functions of the field they are given. The width of C's `long` is a parameter
of `Ujson.Parser`, either 32 or 64 bits.

## Where the code and its documentation differ

The model follows the code.

- `nmea_feed` always returns 0 (nmea/nmea.c:386); the header promises a count
  (nmea/nmea.h:126-128). See `Nmea.Parser.Feed`.
- A `$` inside a sentence body is an ordinary byte (nmea/nmea.c:323-337).
- Two-digit years mean 1970-2069 (nmea/nmea.c:431-433); the header says
  1900-2099 (nmea/nmea.h:134-135). A shift that leaves that window loses the
  century: `TimeShift.ShiftExact` gives the exact condition. Shifting on, or
  back, is right all the same: `TimeShift.ShiftAdd`, `TimeShift.ShiftInverse`.
- A PUBLISH body of 2^32 bytes or more is accepted with a truncated length
  (mqtt/mqtt.c:120-125). `Mqtt.PublishExact` gives the exact condition and
  `Mqtt.PublishTruncated` a concrete case.
- The raw capture of ujson starts at the last reset, not at `{`
  (ujson/ujson.c:83, ujson/ujson.h:101), and the object is gone once the
  callback has returned (ujson/ujson.c:185-188, ujson/ujson.h:132-134).
- The comma after an eighth pair is accepted although a ninth pair has no slot,
  so no object can follow (ujson/ujson.c:98-103, 179-181, 209-211).
  `UjsonRefusal.CommaAfterEight` gives the input, `UjsonRefusal.RefusedExactly`
  the exact condition.
- ujson accepts a lone `-` as a number of value 0, and leading zeros
  (ujson/ujson.c:145, 194).
- The position law of the stepper needs two different DIR levels, which
  `stepper_init` does not check: `StepperModel.Odometer`.
- DIR is written in the tick of the STEP rise, just before it
  (stepper/stepper.c:64-75), so the model states the order only.

## Model

| member | source | states |
|---|---|---|
| Calendar.DaysInMonth | nmea/nmea.c:398-406 | every month has 28 to 31 days, also for month numbers out of range |
| Calendar.NextDayNumber | nmea/nmea.c:393-406 | the day after a valid date, across month and year ends, has the next day number |
| Calendar.YearClosedForm | nmea/nmea.c:393-396 | summing year lengths by the leap rule gives 365y + y/4 - y/100 + y/400 for every year |
| Calendar.DayNumberOrder | nmea/nmea.c:393-406 | day numbers order valid dates exactly as the calendar does, and are injective |
| Calendar.DateExists | nmea/nmea.c:393-406 | every day number from 1 on belongs to a valid date, so dates and numbers are a bijection |
| Calendar.CivilOfDayNumber | nmea/nmea.c:393-406 | looking up the number of a date gives back that date |
| Astro.JulianCountsDays | astro/astro.c:30-49 | the floor formula equals the day count plus 1721424.5 plus h/24 + m/1440 + s/86400, for all years from 1 |
| Astro.JulianNextDay | astro/astro.c:30-49 | midnights of successive days differ by exactly 1 across every boundary |
| Astro.JulianOrder | astro/astro.c:30-49 | the formula is strictly increasing and injective on valid dates |
| TimeShift.CarryDays | nmea/nmea.c:414-420 | the two loops compute the floored quotient and remainder by 1440 |
| TimeShift.StepForward | nmea/nmea.c:438-446 | the forward walk reaches the valid date with the target day number |
| TimeShift.StepBack | nmea/nmea.c:447-455 | the backward walk reaches the valid date with the target day number |
| TimeShift.ShiftTz | nmea/nmea.c:408-464 | a valid date comes out as the date and time of the shifted minute count; the clock is right for every input and seconds are kept |
| TimeShift.ShiftExact | nmea/nmea.c:427-460 | the two-digit result denotes the true shifted moment exactly when that moment is in 1970-2069 |
| TimeShift.ShiftValid | nmea/nmea.c:408-464 | the result of shifting a valid date is always a valid date and time |
| TimeShift.Wraps | nmea/nmea.c:431-460 | within a year of either end of 1970-2069, moments a century apart get the same two-digit date |
| TimeShift.ShiftAdd | nmea/nmea.c:408-464 | for every valid date, any clock and all int16 offsets whose sum is one, shifting by a then by b equals shifting by a+b, also when the first shift leaves 1970-2069 |
| TimeShift.ShiftInverse | nmea/nmea.c:408-464 | for every valid date and time and every z above -2^15, shifting by z then by -z restores date and time, also across the ends of 1970-2069 |
| TimeShift.JulianShift | nmea/nmea.c:408-464 | the Julian date moves by exactly tz/1440 if and only if the result is in 1970-2069 |
| Text.DecimalPrint | ujson/ujson.c:38-45 | reading a printed integer as atoi and strtol do gives the integer back |
| NmeaLaws.JoinFields | nmea/nmea.c:41-62 | joining the fields of a line with commas rebuilds it, and no field holds a comma |
| NmeaLaws.FieldsJoin | nmea/nmea.c:41-62 | splitting a joined list of comma-free fields gives the list back |
| Nmea.FieldAt | nmea/nmea.c:45-62 | returns exactly that element of the split, and nothing exactly when the index is past the last field |
| Nmea.Parser.DecodeRmc | nmea/nmea.c:152-187 | every RMC member comes from its own field of the split line, zero when missing, south and west negated |
| Nmea.Parser.DecodeGga | nmea/nmea.c:205-239 | the same for GGA |
| Nmea.Parser.DecodeGsa | nmea/nmea.c:249-264 | the same for GSA |
| Nmea.Parser.DispatchLine | nmea/nmea.c:270-295 | logs one event for a known id with a comma at index 5, none otherwise, and only that snapshot changes |
| Nmea.Parser.Init | nmea/nmea.c:301-307 | a new parser stands for the empty stream, and every snapshot member is zero |
| Nmea.Parser.ResetState | nmea/nmea.c:32-39 | leaves the parser waiting for a dollar sign |
| Nmea.Parser.FrameByte | nmea/nmea.c:309-372 | in each state the buffers keep holding the line framed so far, capped at 96 bytes, and events fire only at a line end |
| Nmea.Parser.FeedByte | nmea/nmea.c:309-372 | after any stream the fired events and all snapshots are those of the line-by-line specification |
| Nmea.Parser.Feed | nmea/nmea.c:374-387 | a buffer is fed byte by byte to the same effect, and 0 is returned |
| NmeaLaws.StreamStep | nmea/nmea.c:309-372 | how one byte moves the framing and the events of a stream |
| NmeaLaws.EventsAppend | nmea/nmea.c:309-372 | after a line end the rest of the stream means what it means on its own |
| NmeaLaws.CorruptionDetected | nmea/nmea.c:353-364 | changing any one body byte of an accepted sentence to any other byte except a star makes it fire nothing |
| NmeaLaws.CorruptionInStream | nmea/nmea.c:309-372 | in a stream a line with one body byte changed to anything except a star, CR or LF is as good as absent |
| NmeaLaws.PrintedDelivered | nmea/nmea.c:309-372 | a printed sentence is delivered once, after any earlier lines and any noise without a dollar sign |
| NmeaChecksum.XorOnes | nmea/nmea.c:319-334 | each bit of the running sum is set exactly when an odd number of body bytes have it set |
| NmeaChecksum.SumExact | nmea/nmea.c:356-364 | two characters match the sum exactly when they are hex digits, in either case, whose eight bits have those parities |
| NmeaChecksum.FramedDelivered | nmea/nmea.c:309-372 | a framed line ended by a CR alone or an LF alone delivers its body exactly when the body has at most 96 bytes and two digits of the right parities follow the star; otherwise nothing |
| NmeaChecksum.UnframedSilent | nmea/nmea.c:309-341 | a line without a star behind a dollar sign delivers nothing |
| NmeaRoundTrip.SixRoundTrip | nmea/nmea.c:114-132 | six printed digits parse back to the time and to the date |
| NmeaRoundTrip.RmcRoundTrip | nmea/nmea.c:152-187 | a printed RMC sentence fires one event whose snapshot holds the printed time, date, status and hemispheres |
| NmeaDecode.HmsMeans | nmea/nmea.c:112-132 | six digits read as the time and the date they print, and fewer than six bytes as zero |
| NmeaDecode.CountOfMeans | nmea/nmea.c:81-86 | a count with any leading zeros reads as its value modulo 256, and as 0 when the field is empty or has 12 bytes or more |
| NmeaDecode.RmcDecoded | nmea/nmea.c:152-187 | each RMC member by the index of its field, empty and missing fields included, south and west negated in either case |
| NmeaDecode.GgaDecoded | nmea/nmea.c:205-239 | the same for GGA |
| NmeaDecode.GsaDecoded | nmea/nmea.c:249-264 | the same for GSA |
| NmeaDecode.BodyMeans | nmea/nmea.c:270-295 | a body with one of the three ids and a comma at index 5 is one event of that kind with those members, any other body is none |
| NmeaDecode.SentenceDecoded | nmea/nmea.c:270-372 | in a stream, a sentence fires exactly once when checksum and id are good, with the members of its fields, and changes only its own snapshot; otherwise nothing fires |
| UjsonMachine.RunReachable | ujson/ujson.c:75-234 | every reachable state has at most 8 pairs, fewer while one is in progress, and tokens that leave room for the terminator |
| UjsonRefinement.StepExplains | ujson/ujson.c:88-231 | one step leaves the rest of the document to be parsed the same, or ends or refuses it at this very byte |
| UjsonRefinement.RunIsOutcomes | ujson/ujson.c:75-234 | for every stream the machine's callbacks and error positions are those of the recursive-descent parser |
| UjsonRefinement.RunThen | ujson/ujson.c:75-234 | whatever follows, the outcomes so far stand and the rest are those of the begun document |
| UjsonRefinement.OutcomesGrow | ujson/ujson.c:75-234 | what has been reported is never changed by later bytes |
| UjsonRefinement.RunStart | ujson/ujson.c:60-86 | the current document starts just after the last outcome |
| UjsonGrammar.MembersComplete | ujson/ujson.c:88-231 | every derivation of the grammar with at most 8 pairs is accepted, with its pairs |
| UjsonGrammar.MembersSound | ujson/ujson.c:88-231 | every accepted object is a derivation of the grammar with those pairs |
| UjsonGrammar.FiredSound | ujson/ujson.c:183-189 | every callback is for an object of the grammar that ends at the reported byte and begins, noise included, right after the previous outcome; its pairs are the written ones and its message is the first 255 bytes of that stretch |
| UjsonGrammar.DocumentComplete | ujson/ujson.c:88-231 | an object of the grammar behind anything without a brace is one accepted document, wherever it stands |
| UjsonGrammar.DocumentSound | ujson/ujson.c:88-231 | every accepted document is such a text |
| UjsonRefusal.ViableExactly | ujson/ujson.c:98-103 | after any stream the begun document can still become an object exactly when the parser does not wait for a ninth pair |
| UjsonRefusal.RefusedExactly | ujson/ujson.c:75-234 | a byte is refused exactly when no continuation of the begun document derives from the grammar any more, unless the parser then waits for a ninth pair |
| UjsonRefusal.WhiteExactly | ujson/ujson.c:88-231 | between tokens a space, tab, CR or LF changes nothing, and any other byte that starts no token is refused |
| UjsonRefusal.CommaAfterEight | ujson/ujson.c:98-103 | a concrete stream whose last byte is accepted though nothing can complete the object |
| Ujson.AppendToken | ujson/ujson.c:18-27 | appends and terminates while there is room, changes nothing otherwise |
| Ujson.Parser.Init | ujson/ujson.c:51-58 | a new parser stands for the empty stream |
| Ujson.Parser.Reset | ujson/ujson.c:60-73 | all tables are zero and the machine is in its start state |
| Ujson.Parser.FinaliseInt | ujson/ujson.c:38-45 | the finished number becomes a pair whose integer is what strtol reads from the slot; the state stays |
| Ujson.Parser.Transition | ujson/ujson.c:88-233 | the tables follow the abstract step, callbacks and refusals are logged, and the return value is 0 exactly on refusal |
| Ujson.Parser.FeedByte | ujson/ujson.c:75-234 | after any stream the log is that of the recursive-descent parser, and 0 is returned exactly for a refused byte, which is characterised by the grammar |
| Ujson.Parser.ReachableSlots | ujson/ujson.c:60-86 | at most 8 pairs, slots are terminated, later slots are zero, and the message is the first 255 bytes since the last outcome |
| Ujson.SameString | ujson/ujson.c:246-253 | the comparison loop stays in bounds and decides equality of the two C strings |
| UjsonLookup.FindKey | ujson/ujson.c:240-256 | the first pair with that key, or -1 when there is none |
| Ujson.Parser.Find | ujson/ujson.c:240-256 | the table scan returns that index |
| Ujson.Parser.GetStr | ujson/ujson.c:258-269 | the text of the first pair with that key |
| Ujson.Parser.GetInt | ujson/ujson.c:271-285 | its integer when it was a number, nothing when missing or a string |
| Ujson.Parser.ValueEq | ujson/ujson.c:287-303 | true exactly when the key exists and its text equals the expected string |
| UjsonRoundTrip.PrintParse | ujson/ujson.c:75-234 | a stream of written objects with noise between them fires once for each, in order, at its last byte, with its pairs and the first 255 bytes of its own text, and refuses nothing |
| UjsonRoundTrip.ChunksParse | ujson/ujson.c:75-234 | the same anywhere in a stream, whatever follows |
| UjsonRoundTrip.WrittenDerivation | ujson/ujson.c:88-231 | strings and int32 values written with any white space derive from the grammar |
| UjsonRoundTrip.LookupWritten | ujson/ujson.c:258-303 | the text and the integer found among the pairs of written entries are those of the first entry with that key |
| UjsonRoundTrip.ReadAny | ujson/ujson.c:38-45 | a printed integer of any size reads as its low 32 bits within the range of long, and as those of the nearest long beyond it |
| Ujson.Parser.LookUp | ujson/ujson.c:240-303 | on the tables that the callback sees, find, get_str, get_int and value_eq answer as the first entry with that key says, integers as value and as text |
| ByteStream.SpliceTwice | byte_stream/byte_stream.h:176-208 | two adjoining writes are one write of both |
| ByteStream.PutU8 | byte_stream/byte_stream.h:36-39 | writes one byte, advances by 1, leaves the rest |
| ByteStream.PutU16BE | byte_stream/byte_stream.h:60-64 | writes high byte then low byte, advances by 2, leaves the rest |
| ByteStream.GetU16BE | byte_stream/byte_stream.h:66-71 | returns the value whose encoding stands there |
| ByteStream.PutU16LE | byte_stream/byte_stream.h:87-91 | the same, low byte first |
| ByteStream.GetU16LE | byte_stream/byte_stream.h:93-98 | returns the value whose encoding stands there |
| ByteStream.PutU32BE | byte_stream/byte_stream.h:114-120 | writes four bytes, high first, and leaves the rest |
| ByteStream.GetU32BE | byte_stream/byte_stream.h:122-129 | returns the value whose encoding stands there |
| ByteStream.PutU32LE | byte_stream/byte_stream.h:145-151 | the same, low byte first |
| ByteStream.GetU32LE | byte_stream/byte_stream.h:153-160 | returns the value whose encoding stands there |
| ByteStream.PutI8 | byte_stream/byte_stream.h:46-49 | writes the two's complement byte and leaves the rest |
| ByteStream.GetI8 | byte_stream/byte_stream.h:51-54 | the signed value whose two's complement byte stands there |
| ByteStream.PutI16 | byte_stream/byte_stream.h:73-103 | writes the two's complement bytes in either order and leaves the rest |
| ByteStream.GetI16 | byte_stream/byte_stream.h:78-108 | the signed value whose two's complement bytes stand there, in either order |
| ByteStream.PutI32 | byte_stream/byte_stream.h:131-165 | the same for 32 bits |
| ByteStream.GetI32 | byte_stream/byte_stream.h:136-170 | the signed value whose two's complement bytes stand there, in either order |
| ByteStream.PutBytes | byte_stream/byte_stream.h:177-182 | copies the source and leaves the rest |
| ByteStream.GetBytes | byte_stream/byte_stream.h:185-190 | copies out exactly the requested bytes |
| ByteStream.PutStrU16BE | byte_stream/byte_stream.h:203-208 | writes the length in two bytes and the string behind it |
| ByteStream.EncodeInjective | byte_stream/byte_stream.h:36-190 | two values of one type with the same bytes are the same value |
| ByteStream.PlaceValues | byte_stream/byte_stream.h:60-160 | the bytes put are the base-256 digits of the value in the named order |
| ByteStream.TwosComplement | byte_stream/byte_stream.h:46-170 | a negative value is put as the unsigned value 2^8, 2^16 or 2^32 above it |
| ByteStream.EncodeAllInjective | byte_stream/byte_stream.h:36-190 | two lists of values of the same types with the same bytes are the same list |
| ByteStream.PutAll | byte_stream/byte_stream.h:36-182 | puts of a mixed list write its encoding at the offset, advance by its length and leave the rest |
| ByteStream.GetAll | byte_stream/byte_stream.h:41-190 | gets of a list of types return a list of those types whose encoding stands there |
| ByteStream.PutGetAll | byte_stream/byte_stream.h:36-190 | any mixed list of typed values put and got back is unchanged, both end at the same place, and the other bytes keep their values |
| Varint.RoundTrip | mqtt/mqtt.c:12-24 | the decoder of section 2.2.3 of MQTT 3.1.1 inverts the encoding of every length below 2^28 |
| Varint.SizeTable | mqtt/mqtt.c:12-24 | the smallest and largest lengths of each size have the bytes of table 2.4 of MQTT 3.1.1 |
| Varint.Shortest | mqtt/mqtt.c:12-24 | no byte string that decodes to a value is shorter than its encoding |
| Varint.PrefixFree | mqtt/mqtt.c:12-24 | no encoding is a proper prefix of another |
| Varint.SizeIsLength | mqtt/mqtt.c:27-34 | the size function is the length of the encoding, and 0 from 2^28 on |
| Varint.PutVarint | mqtt/mqtt.c:14-24 | writes the encoding and returns its length; writes four bytes and returns 0 from 2^28 on |
| MqttWire.BodyInverse | mqtt/mqtt.c:65-99 | decoding the variable header and payload of any well-formed packet gives the packet |
| MqttWire.DecodeWire | mqtt/mqtt.c:88-101 | a packet is read back from the front of a stream and nothing more is consumed |
| MqttWire.DecodeWireAll | mqtt/mqtt.c:36-221 | any list of packets sent back to back is decoded to that list |
| MqttWire.WirePrefixFree | mqtt/mqtt.c:36-221 | no packet is a proper prefix of another |
| Mqtt.WireHeader | mqtt/mqtt.c:79-86 | below 2^28 a packet is its first byte, the Remaining Length of its body and the body, so its size is 1 + varint size + body length |
| Mqtt.BuildConnect | mqtt/mqtt.c:36-102 | returns 0 and leaves the buffer alone exactly on bad arguments or too small a buffer; otherwise the bytes decode to a CONNECT with the given client id, clean session, keep-alive 60, no credentials without a user name and exactly the given ones with it |
| Mqtt.ConnectReceived | mqtt/mqtt.c:36-102 | exactly which calls are accepted, from the lengths of the arguments, and what the packet carries for them |
| Mqtt.ConnectLayout | mqtt/mqtt.c:62-99 | the bytes of the CONNECT body, with flags 02, 82 or C2 |
| Mqtt.OtherLayouts | mqtt/mqtt.c:104-205 | the bytes of PUBLISH, SUBSCRIBE and UNSUBSCRIBE |
| Mqtt.BuildPublish | mqtt/mqtt.c:104-135 | accepted exactly when arguments and size allow; below 2^32 body bytes the buffer decodes to the topic and payload; with the length cast of the source beyond |
| Mqtt.PublishExact | mqtt/mqtt.c:120-125 | an accepted PUBLISH is received as meant if and only if its body is shorter than 2^32 bytes |
| Mqtt.PublishTruncated | mqtt/mqtt.c:120-125 | a payload of 2^32 bytes is accepted and not received |
| Mqtt.BuildSubscribe | mqtt/mqtt.c:137-172 | accepted exactly when arguments and size allow, and then the buffer decodes to a SUBSCRIBE of the id with the one filter at QoS 0 |
| Mqtt.BuildUnsubscribe | mqtt/mqtt.c:174-205 | the same for UNSUBSCRIBE with the one filter |
| Mqtt.BuildPingReq | mqtt/mqtt.c:207-213 | writes C0 00 and returns 2, or 0 when the buffer is too small |
| Mqtt.BuildDisconnect | mqtt/mqtt.c:215-221 | writes E0 00 and returns 2, or 0 when the buffer is too small |
| Mqtt.CallsReceived | mqtt/mqtt.c:36-221 | packets built one after another and sent as one stream are received as one packet for each call, with what the caller passed in it |
| Stepper.Controller.Init | stepper/stepper.c:8-33 | every field zero, the levels as given, and an empty trace |
| Stepper.Controller.Tick | stepper/stepper.c:35-85 | one tick is one step of the model, and the position counter equals the shaft position |
| Stepper.Controller.MoveRelative | stepper/stepper.c:87-91 | adds the steps to the target and changes nothing else, when the sum fits |
| Stepper.Controller.MoveTo | stepper/stepper.c:93-97 | sets the target only |
| Stepper.Controller.SetDelay | stepper/stepper.c:99-103 | sets the delay only |
| Stepper.Controller.Position | stepper/stepper.c:111-114 | reads the shaft position |
| StepperModel.RunSound | stepper/stepper.c:35-103 | over every interleaving STEP writes alternate from high, DIR writes never repeat, every rise follows a DIR write, and the counter is the shaft position |
| StepperModel.Odometer | stepper/stepper.c:35-103 | the position law holds over all runs if and only if the two DIR levels differ |
| StepperModel.Timing | stepper/stepper.c:35-85 | the exact position after k ticks from any delay count, phase and distance, and exactly when the controller is at rest |
| StepperModel.TickWrites | stepper/stepper.c:35-85 | exactly which pins a tick writes and in which order: DIR when it does not point the way to go, also while a pulse is high, then the other STEP level |
| StepperModel.RunTarget | stepper/stepper.c:87-103 | after any commands the target is the last absolute one, 0 if none, plus the relative moves behind it, and the delay is the last one set, 0 if none |
| StepperModel.Arrives | stepper/stepper.c:35-85 | enough ticks without commands end on target with STEP low |
| StepperModel.RunArrives | stepper/stepper.c:35-103 | after any run and enough ticks the counter and the shaft stand at the last absolute target plus the relative moves behind it |

## Left out

- Nmea.FieldAt: lines of 65535 bytes or more, on which the 16-bit loop counter of the source would not end; the parser passes at most 96.
- TimeShift.ShiftTz: says nothing about the date that comes out for an invalid input date, because the source promises nothing there.
- Ujson.Parser.GetStr: returns the string itself rather than a pointer into the slot, so the lifetime of that pointer is not modelled.
- Mqtt.BuildPublish: sizes are unbounded integers, so wrap-around of size_t itself is not modelled; only the casts to uint32_t and int are.
- Mqtt.BuildConnect: MQTT strings are byte sequences; UTF-8 validity is not checked by the code and not modelled.
- Stepper.Controller.MoveRelative: requires that the new target fits int32, since signed overflow is undefined in C.
- Floating point: the rest of astro, `parse_dmm` and `field_to_double`; the values they produce are unknown functions of the field slice. `julian_date` is modelled without rounding.
- `byte_queue` and `math/intmath.h`: a ring buffer and one-line helpers, which would only add easy members.
- `bs_put_str_u8`: not used by any module modelled here.
- `stepper_enable`, NULL-pointer guards other than optional credentials, callbacks that modify the parser, interrupts and threads.
- Receiving side of MQTT beyond the six client packets, QoS above 0 for PUBLISH, wills.
