# Energy dashboard: frame codec, register decoding and data collection

This project models in Dafny the core of the energy dashboard, a Go program
that collects readings from a Delta DPM-C530E power meter and stores them.
It models three parts.

- **The data client's framed protocol** (`main.go`). The client sends an ASCII
  frame with three parts: a six-digit zero-padded length, the payload, and a
  two-character upper-case hexadecimal checksum. The checksum is the byte sum
  of the payload modulo 256. The length counts the payload plus the two
  checksum characters, so a frame is the payload plus 8 characters:
  `query` becomes `000007query36`. A reply is cleaned of bytes outside
  printable ASCII. Its length field is then checked, then its size, then its
  checksum, which is compared ignoring letter case.
  Modules: `FrameCodec`, `ResponseSanitizer`.
- **The readings of a register pair** (`modbus_client.go`). Four bytes come
  back from a Modbus "Read Holding Registers" request (function 0x03,
  section 6.3 of the Modbus Application Protocol Specification V1.1b3). The
  probe reads them three ways:
  - straight big-endian (ABCD);
  - word-swapped (CDAB);
  - the first register alone.

  A `float32` is known only by its IEEE-754 bit pattern (`Float32.FromBits`).
  Modules: `RegisterDecoder`, `ModbusProbe`, and `MeterConfig`, which holds
  the eight-entry parameter table of `energy_backend.go:56-65` and
  `modbus_client.go:22-31`.
- **The backend's collection step** (`energy_backend.go`):
  - `ReadMeterData` reads every parameter and keeps a word-swapped reading for
    each read that returned at least four bytes. It logs each read that
    returned an error, in table order.
  - `SaveToDatabase` stores the batch under device `DPMC530E` unless JSON
    encoding or the insert fails.
  - `EnergySystem.CollectOnce` is the body of one tick of
    `StartDataCollection`.

  The database is the sequence of rows the class has inserted. The log is the
  sequence of entries it has recorded: one per failed parameter read, then
  the outcome of the tick. Module: `EnergyBackend`.

Outcomes of the outside world are parameters:
- whether a connect succeeded;
- what each register read returned (`None` for an error);
- whether the insert succeeded;
- the bytes a socket delivered.

A byte received from the data socket is the integer type `byte` (0 to 255).
Register bytes are `bv8`, because the decoding works on their bits.

The loops of the source are methods. Each is proved equal to a specification
function: `Checksum`, `ResponsePayload`, `Sanitized`, `Readings` or `Probe`.
The properties are proved about those functions.

## Model

| member | source | states |
|---|---|---|
| `FrameCodec.Decimal` | main.go:64 | `%0*d` writes at least one digit and never fewer than the width. |
| `FrameCodec.LengthField` | main.go:64 | A length up to 999999 is written as six digits that read back as the length. |
| `FrameCodec.DecimalDigits` | main.go:62-64 | `%06d` writes decimal digits whose value is the length. A length below 10^6 takes exactly six of them. |
| `FrameCodec.DecimalValue` | main.go:64 | At any width, the formatted value consists of decimal digits that read back as the value. |
| `FrameCodec.DecimalWidth` | main.go:64 | A value below 10^width is padded to exactly width digits. |
| `FrameCodec.DigitsValue` | main.go:92 | Its definition: `strconv.Atoi` of a digit string, most significant digit first, as the recursion on the last digit computes it. |
| `FrameCodec.DecimalOfDigits` | main.go:92 | Every string of digits is the zero-padded formatting of its own value, so each length field has exactly one spelling. |
| `FrameCodec.DecimalNeedsDigits` | main.go:64 | A length of at least 10^width needs more than width digits. |
| `FrameCodec.LengthFieldCanonical` | main.go:81-92 | A six-digit length field carries at most 999999 and is the formatting of its own value. |
| `FrameCodec.Hex2` | main.go:54 | `%02X` of a value below 256 gives two upper-case hex digits whose value is that value. |
| `FrameCodec.ByteSum` | main.go:50-53 | Its definition: the sum of the character codes of the string, the `total` the loop accumulates. |
| `FrameCodec.ByteSumConcat` | main.go:50-53 | The sum of a concatenation is the sum of the parts' sums. |
| `FrameCodec.ByteSumUpdate` | main.go:50-53 | Replacing one character changes the sum by the difference of the two codes. |
| `FrameCodec.Checksum` | main.go:49-55 | The checksum is two upper-case hex digits whose value is the payload's byte sum modulo 256. |
| `FrameCodec.CalculateChecksum` | main.go:49-55 | The summing loop, then `total&0xFF`, then `%02X`, computes exactly that checksum. |
| `FrameCodec.ChecksumInjective` | main.go:54 | Two payloads share a checksum if and only if their byte sums agree modulo 256. |
| `FrameCodec.ChecksumDetectsByteChange` | main.go:49-55 | Replacing any single byte with a different byte changes the checksum. |
| `FrameCodec.CreateCommand` | main.go:58-70 | For a payload that fits the field, the frame has these parts: six digits of value `len(data)+2`, then the payload unchanged, then its checksum. It is 8 characters longer than the payload. |
| `FrameCodec.QueryCommand` | main.go:144 | The query frame is `000007query36`, since the byte sum of `query` is 566 ≡ 0x36. |
| `FrameCodec.FirstNonDigit` | main.go:86-90 | Returns the position the scan of the length field stops at. Every character before it is a digit, and the character there is not. |
| `FrameCodec.UpperAscii` | main.go:116 | Upper-casing keeps the length. |
| `FrameCodec.UpperAsciiChangesCaseOnly` | main.go:116 | Upper-casing leaves no lower-case ASCII letter and changes nothing but the case of letters. |
| `FrameCodec.ResponsePayload` | main.go:77-118 | An accepted payload comes from a reply of at least 8 characters whose six-character length field is all digits, with a length of at least 2 that fits in the reply. The payload is the slice after the length field, and the received checksum equals the calculated one up to case. |
| `FrameCodec.ParseResponse` | main.go:77-118 | The checks, up to the JSON step, give exactly the outcome `ResponsePayload` specifies. |
| `FrameCodec.RejectsShortInput` | main.go:77-79 | Input shorter than six characters is rejected as too short. |
| `FrameCodec.RejectsNonDigitLength` | main.go:85-90 | A non-digit in the length field is reported at the first non-digit position, together with the character found there. |
| `FrameCodec.RejectsInsufficientBody` | main.go:99-101 | A reply shorter than `6+length` is rejected with both sizes. |
| `FrameCodec.TrailingBytesIgnored` | main.go:103-107 | Bytes after the announced `6+length` do not change the outcome. |
| `FrameCodec.RoundTrip` | main.go:58-118 | Decoding the frame of any payload that fits the field gives back that payload. |
| `FrameCodec.AcceptedFrameMatchesCommand` | main.go:77-118 | An accepted payload's frame carries the canonical length field and the payload. Its checksum equals the calculated one up to case. With an upper-case checksum the frame is exactly `CreateCommand(payload)`. |
| `FrameCodec.ChecksumComparedIgnoringCase` | main.go:112-118 | With a correct length field, the payload is accepted if and only if the upper-cased received checksum equals the calculated one. Otherwise the result is a checksum mismatch. |
| `FrameCodec.TamperedChecksumRejected` | main.go:116-118 | A checksum of hex digits with the wrong value is rejected. |
| `FrameCodec.LowerCaseChecksumAccepted` | main.go:116 | A checksum written in lower case is still accepted. |
| `FrameCodec.GoReachesPayloadSlice` | main.go:77-101 | Its definition: the checks Go makes before the slice pass, meaning at least six characters, a six-digit field, and at least `6+length` characters. |
| `FrameCodec.ShortLengthFieldPanics` | main.go:99-104 | As written, the length field `000000` passes every check and reaches the payload slice with low bound 6 above high bound 4. |
| `FrameCodec.ResponsePayloadSlicesInRange` | main.go:99-107 | Whenever Go would reach the slices, the model either reports `LengthBelowChecksum` (exactly when the length is below 2) or slices within bounds. |
| `ResponseSanitizer.KeptByte` | main.go:170 | Its definition: the filter condition as written, printable ASCII or an ASCII digit. |
| `ResponseSanitizer.KeptExactlyPrintable` | main.go:170 | The filter keeps a byte if and only if it is printable ASCII. The digit clause adds nothing. |
| `ResponseSanitizer.Sanitized` | main.go:168-173 | The filtered bytes are never more than the received ones. |
| `ResponseSanitizer.SanitizedMembers` | main.go:168-173 | A byte occurs in the filtered bytes if and only if it occurs in the input and is printable. |
| `ResponseSanitizer.SanitizeResponse` | main.go:165-175 | The clean-up loop and `string(cleanBytes)` give the sanitised bytes as text. |
| `ResponseSanitizer.SanitizedAppend` | main.go:169-172 | Filtering works piecewise, so the kept bytes stay in arrival order. |
| `ResponseSanitizer.PrintablePassesUnchanged` | main.go:168-173 | Input that is all printable passes through unchanged. |
| `ResponseSanitizer.SanitizedIdentity` | main.go:168-173 | Input passes unchanged if and only if all of it is printable. |
| `ResponseSanitizer.SanitizedIdempotent` | main.go:168-173 | Filtering twice is the same as filtering once. |
| `ResponseSanitizer.AsString` | main.go:175 | `string(cleanBytes)` keeps the length, every character it gives is below 256, and converting the text back gives exactly the same bytes. |
| `ResponseSanitizer.AsBytes` | main.go:147 | `[]byte(command)` gives one byte per character of a string of byte-sized characters. |
| `ResponseSanitizer.TextBytesRoundTrip` | main.go:147 | Converting text of byte-sized characters to bytes and back gives the same text. |
| `ResponseSanitizer.SanitizedTextPrintable` | main.go:165-175 | The filtered bytes, read as text, are printable ASCII. |
| `ResponseSanitizer.ReceivedPayload` | main.go:165-179 | Filtering then decoding: any payload it accepts is printable ASCII text. |
| `ResponseSanitizer.NoiseSanitizedAway` | main.go:170 | Input with no printable byte filters to nothing. |
| `ResponseSanitizer.NoiseRemoved` | main.go:168-173 | Non-printable noise inserted anywhere leaves no trace. |
| `ResponseSanitizer.CommandIsPrintable` | main.go:58-70 | The frame of a printable payload is printable. |
| `ResponseSanitizer.NoisyRoundTrip` | main.go:144-179 | Take the frame of a printable payload, send it as bytes, and insert noise at any one position. Filtering and decoding still give back the payload. |
| `RegisterDecoder.BigEndianUint32` | modbus_client.go:81 | `BigEndian.Uint32` loses nothing: writing the word back gives the same four bytes. |
| `RegisterDecoder.BigEndianUint16` | modbus_client.go:90 | `BigEndian.Uint16`: the high byte of the value is the first byte, and the low byte is the second. |
| `RegisterDecoder.WordSwap` | energy_backend.go:147 | The swapped bytes are the second register's two bytes followed by the first register's two. |
| `RegisterDecoder.BigEndianWordRoundTrip` | modbus_client.go:81 | Every 32-bit pattern is the big-endian reading of its own four bytes. |
| `RegisterDecoder.WordSwapInvolution` | modbus_client.go:85 | Swapping the words twice restores the bytes. |
| `RegisterDecoder.WordSwappedUint32` | energy_backend.go:147-148 | The CDAB reading is the ABCD reading with its 16-bit halves exchanged. |
| `RegisterDecoder.WordSwapSymmetry` | modbus_client.go:81-86 | Straight and word-swapped readings undo each other's byte order. |
| `RegisterDecoder.FirstRegister` | modbus_client.go:90 | The 16-bit reading is the high half of the big-endian word. |
| `RegisterDecoder.FirstRegisterIgnoresSecond` | modbus_client.go:90 | The 16-bit reading does not depend on the third and fourth bytes. |
| `RegisterDecoder.RawRegisters` | modbus_client.go:98-100 | The two printed registers, side by side, make the big-endian word. |
| `RegisterDecoder.OnePointZeroExample` | modbus_client.go:80-87 | Bytes 3F 80 00 00 read straight give 1.0. Read word-swapped they give 0x00003F80, a subnormal number. |
| `ModbusProbe.Interpret` | modbus_client.go:77-102 | The readings of one register pair agree with each other. The bytes are the big-endian word written back, the CDAB word is its halves swapped, the first register is its high half, and the two registers concatenate to it. |
| `ModbusProbe.Probe` | modbus_client.go:71-105 | Every report carries its parameter's name, and a decoded report also carries its unit. |
| `ModbusProbe.ProbeCases` | modbus_client.go:71-105 | A read error gives a failure report, fewer than four bytes give an insufficient-data report with the count, and otherwise the bytes are decoded. Each case holds if and only if its condition does. |
| `ModbusProbe.ProbeParameters` | modbus_client.go:53-107 | A failed connect ends the pass. Otherwise every parameter gets exactly its own report, in table order, and a failed read does not stop the pass. |
| `EnergyBackend.Readings` | energy_backend.go:135-158 | The batch from the first k parameters has at most k readings. |
| `EnergyBackend.ReadingOf` | energy_backend.go:147-156 | Its definition: a usable read gives a reading with the parameter's index, name and unit, and the float of its word-swapped bytes. |
| `EnergyBackend.ReadingsFromReads` | energy_backend.go:138-158 | Each reading in a batch is the reading of a parameter among those read. That read returned at least four bytes, and the reading carries that parameter's index, name and unit and its word-swapped value. |
| `EnergyBackend.ReadingsIncreasing` | energy_backend.go:138-158 | The indices of a batch strictly increase, so table order is kept and no parameter appears twice. |
| `EnergyBackend.ReadingsSound` | energy_backend.go:138-158 | The batch is no longer than the table. Its indices strictly increase, and each reading has its parameter's name and unit. Each value is the word-swap decoding of a read that returned at least four bytes. |
| `EnergyBackend.UsableReadKept` | energy_backend.go:139-158 | For a read that returned at least four bytes, gives the position of its reading in the batch. |
| `EnergyBackend.ReadingsComplete` | energy_backend.go:139-158 | A parameter has a reading if and only if its read succeeded with at least four bytes. |
| `EnergyBackend.BackendUsesWordSwapReading` | energy_backend.go:145-149 | The value the backend keeps is the probe's CDAB reading of the same bytes. |
| `EnergyBackend.AllReadsUsable` | energy_backend.go:138-158 | When every read succeeds, the batch has one reading per parameter, indexed in table order. |
| `EnergyBackend.FailureLog` | energy_backend.go:138-143 | Its definition: one `ParameterReadFailed` entry, with index and name, per parameter whose read returned an error, in table order. |
| `EnergyBackend.FailureLogSound` | energy_backend.go:138-143 | Every failure entry names, by index and name, a parameter whose read returned an error. |
| `EnergyBackend.FailedReadLogged` | energy_backend.go:138-143 | Every read that returned an error has its failure entry. |
| `EnergyBackend.FailureLogIncreasing` | energy_backend.go:138-143 | The indices of the failure entries strictly increase, so the entries follow table order. |
| `EnergyBackend.FailuresAndReadingsDisjoint` | energy_backend.go:138-158 | Failure entries and readings together number at most the parameters read, since a parameter gives at most one of them. |
| `EnergyBackend.Marshalable` | energy_backend.go:166-169 | Its definition: `json.Marshal` succeeds exactly when every value is finite (not NaN, not an infinity). |
| `EnergyBackend.EnergySystem.ReadMeterData` | energy_backend.go:120-162 | A failed connect is an error and logs nothing. Otherwise the loop, including its `continue` on read errors, returns exactly the batch `Readings` specifies. It appends exactly the `FailureLog` entries to the log. |
| `EnergyBackend.EnergySystem.constructor` | energy_backend.go:78-86 | A new system has the given parameter table, no rows and an empty log. |
| `EnergyBackend.EnergySystem.SaveToDatabase` | energy_backend.go:165-178 | A non-finite value fails encoding, and a failed insert fails. In both cases nothing is stored. Otherwise exactly one row with device `DPMC530E` and the batch is appended. A batch that fits the table keeps every stored row finite and well tagged. |
| `EnergyBackend.EnergySystem.CollectOnce` | energy_backend.go:191-203 | Every outcome of a tick is stated, with its log entries and its rows. After a connect, the failure entries of the read come first, in table order. A read error saves nothing. A save error is logged. A success appends one row and logs the count. Every stored row stays finite and well tagged. |
| `EnergyBackend.VoltageScenario` | energy_backend.go:145-157 | A one-parameter table read as 3F 80 00 00 yields one reading, tagged index 0, with bit pattern 0x00003F80. |
| `EnergyBackend.FullDeltaBatch` | energy_backend.go:56-65 | With the reference table and every read usable, a batch has eight readings with indices 0 to 7 and the table's names. |

## Left out

- Sockets, Modbus TCP transport, timeouts and `defer ... Close()`. Their outcomes are parameters: a connect result, per-read results, the bytes a read delivered.
- The 4096-byte receive buffer and partial reads. The model takes the bytes `conn.Read` returned as given.
- JSON: `json.Unmarshal` of the payload (main.go:120-127) and the encoded text of `json.Marshal`. Only Marshal's refusal of NaN and infinities is modelled (`Marshalable`).
- SQLite: a row is a device id and a batch. The `id`, the timestamp and the JSON text column are not modelled.
- Floating point: a `float32` is its bit pattern. `float64(value)` is exact and is not modelled separately. The `%.3f` printing is not modelled.
- Log and console texts, and the Chinese error messages. Frame errors (`FrameError`) carry the data their messages print. For the connect, read, marshal and insert errors, only the kind of error is kept, plus the failing parameter for a read. The wrapped library `err` is not modelled, and `ParameterReadFailed` also carries the parameter's index.
- FrameCodec.Checksum: Go's `range` sums runes, and the model sums one value per character, which is the byte. The two agree on ASCII, which is all this protocol carries.
- FrameCodec.UpperAscii: `strings.ToUpper` is modelled on ASCII only. The checksum compared against is always ASCII hex.
- FrameCodec.CreateCommand: its contract is silent for payloads longer than 999997 bytes. There `%06d` writes seven or more digits and the frame no longer has the six-digit layout.
- The `strconv.Atoi` error branch (main.go:92-95) cannot be reached after the digit check, so it is not modelled.
- The probe's three passes with five-second sleeps (modbus_client.go:64-114). One pass is modelled.
- `StartDataCollection`'s ticker, the `running` flag, `StopDataCollection` and the stop channel. These are concurrency: one tick is modelled.
- The rest of the backend: HTTP handlers, queries, aggregation, exporting. The rest of the data client: file writing and its own loop. `test_modbus.go`, `ModBus_request_API.go` and the JavaScript front end. None of these is part of this model.

## Findings

| source | as written | input that shows it | evidently intended | confidence | as-written member | corrected member |
|---|---|---|---|---|---|---|
| main.go:99-107 | After the digit and size checks, `rawData[6 : 6+length-2]` is taken for any length. A length of 0 or 1 gives a high bound below the low bound, and Go panics. | `"000000"` (also `"000001x"`) | Reject a length below 2 (the two checksum characters) with an error. | high (not executed) | `FrameCodec.ShortLengthFieldPanics` | `FrameCodec.ResponsePayloadSlicesInRange` |
