# ERT field acquisition: the measurement-acquisition core in Dafny

This project models the two React hooks at the heart of the resistivity
survey application.

- `useBluetooth` handles the link to the ESP32 resistivity meter:
  - the connection state and its transitions (connect, success, failure or
    cancellation, user disconnect, device lost);
  - the reassembly of newline-terminated messages from notification chunks;
  - the guard and the encoding of `sendCommand`.
- `useMeasurements` keeps the survey data:
  - the single pending reading, built from a resistance-only message with
    placeholder electrode numbers taken from `currentIndex`;
  - the ledger of recorded measurements (record, delete by id, clear);
  - the survey configuration and its partial updates;
  - the two text exports: the five-line-header Res2DInv `.dat` file and the
    `Index,A,B,M,N,Rho_a (Ohm.m),Timestamp` CSV.

Everything is modelled as immutable data and pure functions.

- **Refs and state.** The hooks' refs and state become fields of a `Session`
  or a `Store` record.
- **Asynchronous Web Bluetooth calls.** The outcome of each call made by
  `connect`, and each event the device raises, becomes an `Event`.
  `sendCommand` yields the payload it hands to `writeValue`.
- **Clock.** Ids and timestamps are parameters.
- **Formatting.** The three formatting primitives the exports call
  (`toFixed`, the `toString` of the electrode spacing, `toISOString`) are
  parameters, grouped in a `Formatter`. They are assumed only never to emit
  a newline, comma or space (`Export.Plain`).
- **JavaScript primitives.** The ones the core relies on are defined
  exactly:
  - `trim`, using the ECMAScript white-space and line-terminator set;
  - `split` on a single character and `join`;
  - `includes`;
  - `parseFloat`, as the longest decimal-literal prefix after leading white
    space, or NaN;
  - the `toString` of integers.

Modules:

| file | module | contents |
|---|---|---|
| base.dfy | `Base` | `Option`, `Result` |
| text.dfy | `Text` | trim, split/join, includes |
| number.dfy | `Number` | `parseFloat` as a prefix scanner, integer `toString` |
| line_buffer.dfy | `LineBuffer` | the notification line buffer |
| bluetooth.dfy | `Bluetooth` | the `useBluetooth` session and events |
| measurements.dfy | `Measurements` | the `useMeasurements` store |
| export.dfy | `Export` | the `.dat` and `.csv` exports |

Behaviour of the code worth knowing before reading the model:

- **Message format.** Messages are not split into fields.
  - Every message is trimmed and passed whole to `parseFloat`.
  - So `"1,2,3,4,56.7"` becomes a placeholder reading with resistance 1 on
    electrodes `currentIndex+1 … currentIndex+4`
    (`Measurements.FieldsAreNotParsed`).
- **No polling.** Neither hook has a timer or a request cycle.
  - Readings simply replace the pending one as they arrive
    (`Measurements.LastReadingWins`).
  - Start, Repeat and Stop are commands sent through `sendCommand`.
- **Identifiers.** Ids come from `Date.now()` and are never checked for
  uniqueness.
  - Deleting an id removes every entry that carries it
    (`Measurements.RemoveIdCount`).
- **The index.** `currentIndex` is not kept equal to the ledger length.
  - Delete lowers it even when nothing was removed
    (`Measurements.DeleteAbsentId`, `Measurements.IndexDriftsFromLedger`).
- **Send guard.** `sendCommand` is guarded by the characteristic reference,
  not by the connected flag.
  - When `startNotifications` throws after the reference was stored, the
    session reports an error and is not connected, yet commands are still
    handed to `writeValue` (`Bluetooth.SendAfterLateFailure`).
- **User disconnect.** `disconnect` calls `gatt.disconnect()` on a connected
  device, which fires the `gattserverdisconnected` listener.
  - The callback's own assignments are `Bluetooth.Disconnect`; the listener
    is the `DeviceDisconnected` event that follows it.
  - Together they leave the hook as it was at mount, buffer included
    (`Bluetooth.DisconnectThenLost`).

## Model

| member | source | states |
|---|---|---|
| Text.Trim | src/hooks/useBluetooth.ts:78 | the trimmed line neither starts nor ends with a white-space character |
| Text.TrimKeepsOut | src/hooks/useBluetooth.ts:78 | trimming only removes characters: one absent from the line is absent from its trim |
| Text.TrimOfTrimmed | src/hooks/useMeasurements.ts:74 | a string that neither starts nor ends with white space is its own trim |
| Text.TrimIdempotent | src/hooks/useMeasurements.ts:74 | trimming again a message the Bluetooth hook already trimmed changes nothing |
| Text.TrimEmptyIff | src/hooks/useBluetooth.ts:78-79 | a line is dropped exactly when it consists of white space only |
| Text.TrimStrips | src/hooks/useBluetooth.ts:78 | the trim is the slice of the line left after removing a run of white space from each end, and nothing else |
| Text.Split | src/hooks/useBluetooth.ts:71 | splitting on the newline always yields at least one piece, and no piece contains a newline |
| Text.JoinSplit | src/hooks/useBluetooth.ts:71-74 | splitting loses nothing: joining the pieces with the separator restores the text |
| Text.SplitNoSeparator | src/hooks/useBluetooth.ts:71-74 | a text without a newline splits into itself alone, so it is kept whole as the buffer |
| Text.SplitAfterPiece | src/hooks/useBluetooth.ts:71 | a newline-free prefix followed by a newline becomes the first piece, and the rest splits on its own |
| Text.SplitJoin | src/hooks/useMeasurements.ts:147 | `join` (`Text.Join`) is undone by `split`: joining newline-free lines and splitting again gives back exactly the lines |
| Text.JoinLength | src/hooks/useMeasurements.ts:147 | `join` adds exactly one separator between neighbouring pieces and nothing else |
| Text.IncludesIff | src/hooks/useBluetooth.ts:148 | `includes` (`Text.Includes`) holds exactly when the searched text occurs at some offset |
| Number.ScanFindsLiteralIff | src/hooks/useMeasurements.ts:75 | the prefix scanner finds a literal exactly when the text starts with a sign, then `Infinity`, a digit, or a dot and a digit |
| Number.ParseFloatNaNIff | src/hooks/useMeasurements.ts:75-77 | `parseFloat` (`Number.ParseFloat`) gives NaN exactly when, after leading white space, no numeric literal starts |
| Number.ScanIntegerPrefix | src/hooks/useMeasurements.ts:75 | a leading run of digits followed by the end of the text or by a character that is no digit, dot, `e` or `E` scans as that integer alone |
| Number.ScanDecimal | src/hooks/useMeasurements.ts:75 | a text made of digits, a dot and digits scans as those two digit runs with no exponent |
| Number.ParseFloatReadsDecimal | src/hooks/useMeasurements.ts:72-75 | the resistance message `"120.5"` reads as 120.5 |
| Number.ParseFloatReadsWhole | src/hooks/useMeasurements.ts:75 | `"42.0"` reads as 42 |
| Number.ParseFloatFiveFields | src/hooks/useMeasurements.ts:75 | `"1,2,3,4,56.7"` reads as 1: parsing stops at the first comma |
| Number.ParseFloatRejects | src/hooks/useMeasurements.ts:75-77 | the empty text, `"abc"` and a lone dot all read as NaN |
| Number.NoNumericPrefix | src/hooks/useMeasurements.ts:75-77 | a message starting with a character that is no white space, sign, digit, `I` or dot-before-digit reads as NaN |
| Number.NatToString | src/hooks/useMeasurements.ts:135 | a count prints as decimal digits without a leading zero whose value is the count |
| Number.IntToString | src/hooks/useMeasurements.ts:155 | an integer prints without newline, comma or space |
| Number.NaturalRoundTrip | src/hooks/useMeasurements.ts:135 | a printed natural number, such as the measurement count, parses back to itself |
| Number.NegativeRoundTrip | src/hooks/useMeasurements.ts:155 | a printed negative integer, a minus sign and the digits of its magnitude, parses back to itself |
| Number.IntToStringRoundTrip | src/hooks/useMeasurements.ts:135 | a printed integer parses back to the same number |
| LineBuffer.Feed | src/hooks/useBluetooth.ts:68-74 | buffer and chunk are exactly the complete lines, each followed by its newline, then a newline-free rest kept as the buffer |
| LineBuffer.SplitTerminated | src/hooks/useBluetooth.ts:71-74 | a text made of terminated lines and a newline-free rest splits into those lines and that rest |
| LineBuffer.FeedUnique | src/hooks/useBluetooth.ts:68-74 | the decomposition is unique: any lossless split into newline-free lines and rest is the one found |
| LineBuffer.FeedWithoutNewline | src/hooks/useBluetooth.ts:68-74 | a chunk without a newline completes no line and only extends the buffer |
| LineBuffer.Kept | src/hooks/useBluetooth.ts:78-79 | a line contributes no message exactly when its trim is empty, and at most one otherwise |
| LineBuffer.Messages | src/hooks/useBluetooth.ts:77-84 | there are never more messages than complete lines |
| LineBuffer.MessagesTrimmed | src/hooks/useBluetooth.ts:77-82 | every message passed on is non-empty and neither starts nor ends with white space |
| LineBuffer.MessagesNoNewlines | src/hooks/useBluetooth.ts:71-82 | lines without a newline give messages without one |
| LineBuffer.MessagesAppend | src/hooks/useBluetooth.ts:77-84 | messages of consecutive batches of lines are the batches' messages in order |
| LineBuffer.MessagesMembership | src/hooks/useBluetooth.ts:77-84 | a message is passed on if and only if it is the non-empty trim of some complete line |
| LineBuffer.FeedAll | src/hooks/useBluetooth.ts:58-85 | over a sequence of notifications, lines never contain a newline and the final buffer holds none |
| LineBuffer.FeedAllNoLoss | src/hooks/useBluetooth.ts:67-74 | the initial buffer and all chunks are exactly the lines found, each terminated, followed by the final buffer |
| LineBuffer.ChunkingInvariance | src/hooks/useBluetooth.ts:67-74 | feeding chunks one by one finds the same lines and keeps the same buffer as feeding their concatenation |
| Bluetooth.FailureMessage | src/hooks/useBluetooth.ts:144 | the message of a thrown `Error`, or `Erreur de connexion` for anything else thrown |
| Bluetooth.CancellationMeansCancelled | src/hooks/useBluetooth.ts:148 | the `User cancelled` test of `Bluetooth.IsCancellation` is subsumed: a message is a cancellation if and only if it includes `cancelled` |
| Bluetooth.StartConnect | src/hooks/useBluetooth.ts:88-94 | without Web Bluetooth only the unsupported error is set; otherwise connecting starts with no error and an empty buffer |
| Bluetooth.ShownName | src/hooks/useBluetooth.ts:139 | the device's own name when non-empty, otherwise `ESP32`; never empty |
| Bluetooth.CompleteConnect | src/hooks/useBluetooth.ts:129-141 | success: connected, not connecting, no error, the shown name, the characteristic held |
| Bluetooth.FailConnect | src/hooks/useBluetooth.ts:142-152 | failure: connecting stops; the error is absent if and only if the message includes `cancelled`, otherwise it is `Erreur: ` and the message; a characteristic reference still set when the catch runs stays set |
| Bluetooth.Disconnect | src/hooks/useBluetooth.ts:155-168 | the callback's own assignments: the exposed state and live reading are reset and the characteristic dropped; the line buffer is emptied only by the listener that follows |
| Bluetooth.DisconnectThenLost | src/hooks/useBluetooth.ts:112-117 | a user disconnect followed by the `gattserverdisconnected` listener that `gatt.disconnect()` fires (lines 156-157) leaves the hook as at mount, buffer empty |
| Bluetooth.DeviceLost | src/hooks/useBluetooth.ts:112-117 | device loss clears connected, name, characteristic and buffer, and keeps the error and connecting flag |
| Bluetooth.Notify | src/hooks/useBluetooth.ts:58-85 | a valueless notification changes nothing; otherwise no character is lost, the delivered messages are those of the complete lines, the live reading is the last of them, and the connection is untouched |
| Bluetooth.Receive | src/hooks/useBluetooth.ts:65-84 | a chunk: buffer and chunk are the complete lines and the new newline-free buffer, the messages are those of the lines, the live reading is the last message or unchanged when there is none |
| Bluetooth.Simulate | src/hooks/useBluetooth.ts:53-56 | simulated data is shown and delivered as one message, bypassing the buffer |
| Bluetooth.SendCommand | src/hooks/useBluetooth.ts:170-178 | fails with `Non connecté` if and only if no characteristic is held; otherwise the payload handed to `writeValue` is the command followed by one newline |
| Bluetooth.SendCommandIsOneLine | src/hooks/useBluetooth.ts:176 | a newline-free command arrives at a line reader as exactly one complete line |
| Bluetooth.Step | src/hooks/useBluetooth.ts:53-178 | only notifications and simulations deliver messages, a simulation exactly its text, and neither touches the connection state or the characteristic |
| Bluetooth.StepKeepsValid | src/hooks/useBluetooth.ts:87-178 | every event keeps the buffer newline-free and a connected session named and holding a characteristic |
| Bluetooth.RunKeepsValid | src/hooks/useBluetooth.ts:87-178 | the same holds along any sequence of events |
| Bluetooth.ConnectedCanSend | src/hooks/useBluetooth.ts:136-141 | in any reachable session, being connected means a command passes the guard and its payload is handed to `writeValue`, given that a successful connection is not interrupted by a disconnection |
| Bluetooth.LossDuringLateFailure | src/hooks/useBluetooth.ts:112-131 | a disconnection while `startNotifications` is awaited clears the characteristic reference, so after the throw commands are refused with `Non connecté` |
| Bluetooth.GattFailureShown | src/hooks/useBluetooth.ts:119 | a missing GATT server is reported as `Erreur: Impossible de se connecter au serveur GATT`, not taken for a cancellation |
| Bluetooth.SendAfterLateFailure | src/hooks/useBluetooth.ts:129-131 | a throw from `startNotifications` leaves the session not connected, yet commands still pass the guard |
| Bluetooth.NotificationsDeliverLines | src/hooks/useBluetooth.ts:58-85 | over a stream of notifications the delivered messages are those of the lines found by the buffer, in order |
| Bluetooth.NotificationsIgnoreChunking | src/hooks/useBluetooth.ts:67-74 | delivered messages and the final buffer do not depend on how the stream was cut into notifications |
| Measurements.Placeholder | src/hooks/useMeasurements.ts:80-86 | a placeholder reading sits on four consecutive electrodes right after the index |
| Measurements.HandleIncomingData | src/hooks/useMeasurements.ts:73-88 | a message whose trim starts with a number replaces the pending reading with its placeholder reading and non-NaN value; any other message changes nothing; ledger, index and configuration never change |
| Measurements.HandleFinite | src/hooks/useMeasurements.ts:73-88 | a trimmed message that parses to a finite value becomes the placeholder reading with that value |
| Measurements.HandleNaN | src/hooks/useMeasurements.ts:73-88 | a message whose trim parses to NaN leaves the store as it was |
| Measurements.HandleStep | src/hooks/useMeasurements.ts:73-88 | a numeric message replaces the pending reading with its placeholder reading, any other message keeps it, and the index stays |
| Measurements.ResistanceBecomesReading | src/hooks/useMeasurements.ts:72-86 | `"42.0"` at index 0 becomes the reading on electrodes 1, 2, 3, 4 with resistance 42 |
| Measurements.FieldsAreNotParsed | src/hooks/useMeasurements.ts:73-86 | `"1,2,3,4,56.7"` becomes a placeholder reading with resistance 1 |
| Measurements.StatusMessageIgnored | src/hooks/useMeasurements.ts:73-88 | a status message such as `OK` leaves the store unchanged |
| Measurements.BatchKeepsLedger | src/hooks/useMeasurements.ts:73-88 | a batch of messages never changes the ledger, the index or the configuration |
| Measurements.LastNumeric | src/hooks/useMeasurements.ts:73-87 | the message whose reading a batch leaves pending: a numeric message of the batch after which no numeric message follows, or none when no message is numeric |
| Measurements.LastReadingWins | src/hooks/useMeasurements.ts:77-87 | after a batch of messages the pending reading is that of the last numeric message, or the old one if none: readings are never queued |
| Measurements.Commit | src/hooks/useMeasurements.ts:93-97 | a recorded measurement keeps the reading's electrodes and resistance and takes the given id and timestamp |
| Measurements.RecordCurrentReading | src/hooks/useMeasurements.ts:90-103 | returns true if and only if a reading was pending; then it is appended after the unchanged ledger, the index advances and nothing stays pending; otherwise nothing changes |
| Measurements.RemoveId | src/hooks/useMeasurements.ts:106 | the filtered ledger holds exactly the entries whose id differs, and equals the ledger when no entry carries the id |
| Measurements.RemoveIdAppend | src/hooks/useMeasurements.ts:106 | filtering two consecutive parts is filtering each: survivors keep their order |
| Measurements.RemoveIdCount | src/hooks/useMeasurements.ts:106 | the ledger shrinks by the number of entries carrying the id, all of them when ids repeat |
| Measurements.DeleteMeasurement | src/hooks/useMeasurements.ts:105-108 | delete keeps exactly the entries with another id and lowers the index by one, not below zero |
| Measurements.DeleteAbsentId | src/hooks/useMeasurements.ts:105-108 | deleting an id no entry carries keeps the ledger yet still lowers the index |
| Measurements.IndexDriftsFromLedger | src/hooks/useMeasurements.ts:99-107 | after one recording and a delete of another id, the next placeholder reading starts at electrode 1 again |
| Measurements.ClearAll | src/hooks/useMeasurements.ts:110-114 | clearing empties the ledger, zeroes the index and drops the pending reading, keeping the configuration |
| Measurements.ClearAllIdempotent | src/hooks/useMeasurements.ts:110-114 | clearing twice is clearing once |
| Measurements.ApplyUpdate | src/hooks/useMeasurements.ts:116-118 | each field present in a partial update replaces the old one, and each absent field is kept |
| Measurements.ApplyUpdateCompose | src/hooks/useMeasurements.ts:116-118 | two updates in a row are one update in which the later fields win |
| Measurements.ApplyEmptyUpdate | src/hooks/useMeasurements.ts:116-118 | an update with no fields changes nothing |
| Measurements.UpdateConfig | src/hooks/useMeasurements.ts:116-118 | only the configuration changes |
| Export.ArrayTypeCode | src/hooks/useMeasurements.ts:120-127 | the code is 1 exactly for Wenner, 2 exactly for Schlumberger, and 3 for dipole-dipole and any name that is none of the three |
| Export.Center | src/hooks/useMeasurements.ts:142 | the position is the mean of the four electrodes, never below or above all of them |
| Export.Divide | src/hooks/useMeasurements.ts:143 | division multiplies back to the dividend; by zero it gives infinity, or NaN for zero by zero |
| Export.SeparationFactor | src/hooks/useMeasurements.ts:143 | the factor times the spacing is the distance between M and B; with zero spacing it is NaN exactly when M equals B |
| Export.DatRowFields | src/hooks/useMeasurements.ts:144 | a data line (`Export.DatRow`) splits on spaces into exactly its four fields and holds no newline |
| Export.DatRows | src/hooks/useMeasurements.ts:140-145 | one data line per measurement, in ledger order |
| Export.DatLines | src/hooks/useMeasurements.ts:129-147 | five header lines (`Export.DatHeader`: title, array code, count, spacing, `0`), then the data lines in ledger order |
| Export.DatCountLine | src/hooks/useMeasurements.ts:135 | the count line reads back as the number of measurements |
| Export.DatRoundTrip | src/hooks/useMeasurements.ts:129-148 | the `.dat` text of `exportToDAT` (`Export.ExportDat`) splits back into exactly its 5 + n lines when the project and operator names hold no newline |
| Export.DatEmpty | src/hooks/useMeasurements.ts:132-137 | with no measurements the file is the five header lines alone |
| Export.CsvHeaderOneLine | src/hooks/useMeasurements.ts:152 | the header is one line |
| Export.CsvRowFields | src/hooks/useMeasurements.ts:155 | a row (`Export.CsvRow`) splits on commas into exactly its seven fields and holds no newline |
| Export.CsvRowNumber | src/hooks/useMeasurements.ts:155 | the first field reads back as the one-based row number |
| Export.CsvRowElectrodes | src/hooks/useMeasurements.ts:155 | fields two to five read back as electrodes A, B, M and N |
| Export.CsvRows | src/hooks/useMeasurements.ts:154-156 | one row per measurement, numbered from 1 in ledger order |
| Export.CsvLines | src/hooks/useMeasurements.ts:150-158 | the header line, then the rows |
| Export.CsvRoundTrip | src/hooks/useMeasurements.ts:150-159 | the CSV text of `exportToCSV` (`Export.ExportCsv`) splits back into the header and exactly one row per measurement |
| Export.CsvEmpty | src/hooks/useMeasurements.ts:150-158 | with no measurements the CSV text is the header line alone |

## Left out

- Web Bluetooth I/O is not modelled.
  - Left out: device selection, the GATT connection, service and
    characteristic discovery, the `characteristicvaluechanged` listener
    registration, and `writeValue`.
  - Each outcome of a call made by `connect` is an `Event`.
  - The outcome of `writeValue` is not modelled: `SendCommand` succeeds with
    the payload it hands over, and a rejected write has no counterpart.
  - A failure carries what was thrown and whether the characteristic
    reference is still set when the catch block runs: stored before the
    throw, and not cleared by the `gattserverdisconnected` listener since.
  - A device-disconnected event may arrive between any two events.
  - A successful `connect` is one event. The model assumes no
    `gattserverdisconnected` arrives between storing the characteristic
    reference and the outcome of `startNotifications`. In the program, the
    listener can run while `startNotifications` is awaited. It clears the
    reference, and the final `setState` still marks the session connected.
    `Bluetooth.ConnectedCanSend` and the `Bluetooth.Valid` invariant
    depend on this assumption.
- Bluetooth.ConnectedCanSend: holds for traces in which no
  `gattserverdisconnected` interrupts a successful `connect`. After such a
  disconnection the program can be connected with no characteristic
  reference, and `sendCommand` then throws `Non connecté`.
- UTF-8 decoding and encoding are not modelled: `TextDecoder` and
  `TextEncoder`. Chunks and payloads are strings of Unicode scalar values.
- UTF-16 is not modelled: a character outside the Basic Multilingual Plane
  is one `char` here but two code units in JavaScript, and a lone surrogate
  (possible in the text passed to `simulateData`) cannot be represented.
- `deviceRef` and whether its GATT server is connected are not modelled.
  The listener that `gatt.disconnect()` fires is the `DeviceDisconnected`
  event that follows `DisconnectRequested`; nothing forces it to follow.
- `localStorage` persistence is left out: the load on mount (which sets the
  index to the loaded ledger's length) and the saves after each change.
  These are I/O.
- `Date.now()` and `new Date()` are not modelled. Ids and timestamps are
  parameters.
- Downloading and sharing the exported files is left out:
  `downloadFileWeb`, `downloadFileNative`, and the `exportDAT`/`exportCSV`
  wrappers with their date-stamped file names. These are platform I/O.
- Number formatting is not modelled:
  - `toFixed`, the `toString` of the electrode spacing (any value, so the
    default `1.0` prints as `1`), and
    `toISOString` are parameters;
  - IEEE-754 double rounding, negative zero and exponent notation above
    1e21 are not modelled;
  - `parseFloat` returns exact reals.
- Number.IntToString: prints integers exactly, and does not model the
  exponent form JavaScript uses at 1e21 and above.
- Measurements.UpdateConfig: a key present with the value `undefined`
  overwrites the field with `undefined` in JavaScript. The model's absent
  field keeps the old value instead.
- Export.Divide: models only a non-negative dividend. That is the only case
  the export uses, since the dividend is an absolute value.
- React mechanics are not modelled: `useState` batching, stale closures,
  and callback identities.
- The page components that call these hooks (`Index.tsx` and the
  presentational components) are not part of this model.
