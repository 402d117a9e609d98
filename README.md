# scattered-store: the record codec, key sharding and key/value operations

scattered-store is an embedded key/value store that keeps each entry in a file
of its own. A key's SHA-1 hex digest names the file: the first two hex
characters are a shard directory and the other 38 are the file name. The file
holds a record: a JSON header `{"type":…,"key":…}`, one line feed (byte 10),
then the payload. A Buffer value is stored as raw bytes under type `binary`.
Any other value is stored as its JSON text under type `json`. When a `json`
payload is read back, JSON.parse applies the `dateParser` reviver, which turns
strings shaped like ISO timestamps into Dates.

The repository holds two versions of this code. `lib/persistence.js` is the
newer one: its decoder returns the entry `{key, value}`. `lib/entries_manager.js`
is the older one: its decoder returns the value alone. In both files,
`encodeForStorage` (lib/entries_manager.js:10-28), `isValidKey` (52-57),
`transformKeyToFilePath` (61-68, which joins with `pathUtil.resolve` instead of
`storageDir.path`) and `dateParser` (110-118) are the same code as in
lib/persistence.js. One member models each of them. The table cites whichever
file states that property.

Modules:

- `Utf8`: `new Buffer(string)` and `buf.toString()`, as UTF-8 encoding and decoding.
- `JsonHeader`: JSON.stringify of the header object, and JSON.parse of the text it writes.
- `RecordFormat`: the record layout. It covers encodeForStorage and the first-line-feed split of decodeFromStorage.
- `Sharding`: transformKeyToFilePath.
- `JsValues`: isValidKey, the ISO timestamp pattern, dateParser, and the way JSON.parse applies a reviver.
- `Persistence`: lib/persistence.js. It has the entry decoder and a `Store` class whose `files` map stands for the storage directory.
- `EntriesManager`: lib/entries_manager.js. It has the value-only decoder and its `Store` class.

Three behaviours of the code are easy to misread:

- The seconds group of the ISO pattern is `(\d{2}(?:\.\d*))`. Its `(?:\.\d*)` part is not optional, so a `.` must follow the seconds. `2024-01-01T00:00:00Z` therefore stays a string.
- The offset part of the pattern accepts any run of digits, `|` and `:`.
- When decodeFromStorage throws inside the `.then` callback of `get`, nothing handles it, and the promise `get` returns stays pending. See "## Findings".

## Model

| member | source | states |
|---|---|---|
| `Utf8.EncodeChar` | lib/persistence.js:27 | A character below 0x80 is one byte equal to its code. Every byte of a longer sequence is at least 0x80. |
| `Utf8.DecodeEncode` | lib/persistence.js:27-42 | `toString()` of the bytes `new Buffer(s)` writes gives `s` back, for every string. |
| `Utf8.NewlineFree` | lib/persistence.js:27 | The UTF-8 bytes hold a byte 10 exactly when the text holds a line feed. |
| `JsonHeader.ParseStringify` | lib/persistence.js:23-42 | JSON.parse of the header text that JSON.stringify writes gives back the same type and key, for every key. |
| `JsonHeader.StringifyNewlineFree` | lib/persistence.js:23-26 | The header text holds no line feed for any type or key, because a line feed in the key is escaped. |
| `JsonHeader.StringifyPlain` | lib/entries_manager.js:21-24 | For a type and key made of lower-case letters and digits, the header is exactly `{"type":"<type>","key":"<key>"}`. |
| `RecordFormat.HeaderNewlineFree` | lib/entries_manager.js:21-25 | The header bytes before the written line feed never contain byte 10. |
| `RecordFormat.NewlineIndex` | lib/entries_manager.js:32-38 | The scan stops at an index no greater than the length. No byte before it is 10. If it is inside the buffer, the byte there is 10. |
| `RecordFormat.NoNewline` | lib/persistence.js:34-44 | With no byte 10 the scan ends at the buffer's length, the whole buffer is the header, and the payload is empty. |
| `RecordFormat.Interpret` | lib/persistence.js:51-55 | The value is the payload bytes themselves exactly when the header type is `binary`. Any other type hands those same bytes to JSON.parse. |
| `RecordFormat.Encode` | lib/persistence.js:11-30 | Definition of encodeForStorage. Its properties are in `RecordFormat.EncodeLayout`, `RecordFormat.EncodeTagging` and `Persistence.DecodeEncode`. |
| `RecordFormat.EncodeLayout` | lib/persistence.js:11-30 | An encoded record is the header bytes, then byte 10, then the payload, with nothing between or after. The first line feed is the written one. The split gives back that header and payload, and the header parses to the type and key written. |
| `RecordFormat.EncodeTagging` | lib/entries_manager.js:13-19 | A Buffer is tagged `binary` and its bytes come back unchanged. Any other value is tagged `json` and its payload decodes to its JSON text. |
| `Sharding.TransformKeyToFilePath` | lib/persistence.js:71-78 | The path lies under the storage directory. The directory has 2 lower-case hex characters and the file name has 38. Directory followed by file name equals the key's digest. |
| `Sharding.SamePathIffSameDigest` | lib/entries_manager.js:61-68 | Two keys get the same path exactly when their digests are equal. Equal keys get equal paths. |
| `JsValues.IsValidKey` | lib/entries_manager.js:52-57 | True exactly when the key is a string of length greater than 0. Non-strings and the empty string are rejected. |
| `JsValues.MatchesIso` | lib/persistence.js:150-152 | Definition of `reISO.exec(value)` succeeding. Its properties are in `JsValues.IsoLayoutMatches`, `JsValues.ToJsonTimestampMatches` and `JsValues.NoFractionNoMatch`. |
| `JsValues.DateParser` | lib/entries_manager.js:110-118 | A string that matches the ISO pattern becomes a Date built from it. Every other value, and every non-matching string, is returned unchanged. |
| `JsValues.Revive` | lib/persistence.js:54 | Definition of how JSON.parse applies `dateParser`: children first, then the value itself. Its properties are in `JsValues.ReviveIsDatesInPlace`, `JsValues.ReviveKeepsPlainValues` and `JsValues.ReviveReplacesAllIsoStrings`. |
| `JsValues.ReviveKeepsPlainValues` | lib/persistence.js:54 | A parsed value with no string matching the pattern comes out of the reviver walk unchanged, at every depth. |
| `JsValues.ReviveReplacesAllIsoStrings` | lib/persistence.js:54 | After the reviver walk, no string anywhere in the value matches the pattern. |
| `JsValues.ReviveIsDatesInPlace` | lib/persistence.js:54 | For every parsed value, the reviver walk equals replacing each string that matches the pattern, at any depth, by the Date of that same string in the same place. Member names, other leaves and the shape of arrays and objects are kept. |
| `JsValues.ReviveExample` | lib/persistence.js:54 | Reading `{"when":"2024-01-01T00:00:00.000Z"}` gives an object with the same member name, whose value is now a Date. |
| `JsValues.ToJsonTimestampMatches` | lib/persistence.js:150 | Every timestamp in the `YYYY-MM-DDTHH:mm:ss.sssZ` form that `Date#toJSON` writes for a year from 0 to 9999 matches the pattern, whatever its digits. |
| `JsValues.NoFractionNoMatch` | lib/persistence.js:150 | `2024-01-01T00:00:00Z`, which has no `.` after the seconds, does not match. |
| `JsValues.IsoLayoutMatches` | lib/entries_manager.js:111 | Every `dddd-dd-ddTdd:dd:dd.` timestamp followed by fraction digits, then nothing, `Z`, or a sign with a run of digits, vertical bars and colons (such as `+01:00`) matches the pattern. |
| `Persistence.DecodeFromStorage` | lib/persistence.js:32-58 | The forward scan loop and the split return the entry `Decode` gives: the key from the header, and the payload interpreted by its type. An unreadable header is CorruptRecord. |
| `Persistence.DecodeEncode` | lib/persistence.js:11-58 | Decoding an encoded record gives the key from its header and the value: a Buffer's exact bytes, or the UTF-8 bytes of another value's JSON text. |
| `Persistence.DecodeWithoutNewline` | lib/persistence.js:41-44 | A buffer with no line feed that decodes at all has an empty payload. |
| `Persistence.ReadStored` | lib/persistence.js:86-98 | A file holding the record of `(key, v)` reads as `v` at whatever path it sits. `get` resolves with the `value` of the entry built at lines 47-49 and does not compare the header's key with the key asked for. |
| `Persistence.LastWriteWins` | lib/persistence.js:80-98 | After two writes to one path, `get` returns the value of the later one. |
| `Persistence.OtherPathsUnaffected` | lib/persistence.js:80-108 | Writing or removing one path leaves `get` of every other path as it was. |
| `Persistence.RemoveIdempotent` | lib/persistence.js:100-108 | Removing twice is removing once. Removing a missing path changes nothing. `get` afterwards is absent. |
| `Persistence.GetAsWritten` | lib/persistence.js:86-98 | Definition of `get` as the code has it: a throw inside `.then` leaves the promise unsettled. Its properties are in `Persistence.GetAsWrittenAgrees` and `Persistence.EmptyFileStallsGet`. |
| `Persistence.GetAsWrittenAgrees` | lib/persistence.js:86-98 | For headers in the layout JSON.stringify writes and payloads JSON.parse accepts, the code's `get` and the corrected `get` agree on absent and readable files. The code's `get` never settles exactly where the corrected one reports CorruptRecord. |
| `Persistence.EmptyFileStallsGet` | lib/persistence.js:86-98 | For an existing empty file, the code's `get` never settles. |
| `Persistence.EmptyFileIsCorrupt` | lib/persistence.js:86-98 | For an existing empty file, the corrected `get` reports CorruptRecord. |
| `Persistence.Store.constructor` | lib/persistence.js:67-69 | The store starts over the given directory, digest function and directory contents. |
| `Persistence.Store.Set` | lib/persistence.js:80-84 | Only the key's file changes, and it is replaced whole by the encoded record. `get` then returns the stored value. |
| `Persistence.Store.Get` | lib/persistence.js:86-98 | Absent (`null`) when the key's file does not exist. Otherwise the value decoded by the scanning decoder, or CorruptRecord. |
| `Persistence.Store.Del` | lib/persistence.js:100-108 | The key's file is removed and nothing else changes. Deleting an absent key leaves the files unchanged. `get` then returns `null`. |
| `EntriesManager.DecodeFromStorage` | lib/entries_manager.js:30-50 | The same scan loop. It returns the value alone, or CorruptRecord for an unreadable header. |
| `EntriesManager.DecodeValueEncode` | lib/entries_manager.js:45-46 | Decoding an encoded record gives the value with no key wrapper. For `binary`, that is exactly the bytes after the first line feed. |
| `EntriesManager.DecodeValueAgrees` | lib/entries_manager.js:30-50 | This decoder succeeds exactly when the lib/persistence.js decoder does, and returns that entry's `value`. |
| `EntriesManager.ReadAgrees` | lib/entries_manager.js:76-88 | The corrected `get` of this store equals that of lib/persistence.js on every file map. An empty file reads as CorruptRecord. |
| `EntriesManager.GetAsWritten` | lib/entries_manager.js:76-88 | Definition of this file's `get` as the code has it: a throw inside `.then` leaves the promise unsettled. Its property is in `EntriesManager.EmptyFileStallsGet`. |
| `EntriesManager.EmptyFileStallsGet` | lib/entries_manager.js:76-88 | For an existing empty file, the code's `get` never settles. |
| `EntriesManager.Store.constructor` | lib/entries_manager.js:59 | The store starts over the given directory, digest function and directory contents. |
| `EntriesManager.Store.Set` | lib/entries_manager.js:70-74 | Only the key's file changes, and it is replaced by the encoded record. `get` then returns the value. |
| `EntriesManager.Store.Get` | lib/entries_manager.js:76-88 | `null` when the key's file does not exist. Otherwise the value-only decode of it. |
| `EntriesManager.Store.Del` | lib/entries_manager.js:90-98 | The key's file is removed, and deleting an absent key changes nothing. `get` then returns `null`. |

## Findings

| source | as written | input that shows it | evidently intended | confidence | as-written member | corrected member |
|---|---|---|---|---|---|---|
| lib/persistence.js:86-98 | `decodeFromStorage` runs inside a `.then` callback with no rejection handler, so if it throws the deferred is neither resolved nor rejected | an existing empty file at the key's path (JSON.parse of an empty header throws) | `get` rejects with a corrupt-record error (`Read`, used by `Store.Get`) | medium; not executed | `Persistence.EmptyFileStallsGet` | `Persistence.EmptyFileIsCorrupt` |
| lib/entries_manager.js:76-88 | the same unhandled throw inside `.then` leaves the promise of `get` pending | an existing empty file at the key's path | `get` rejects with a corrupt-record error (`Read`, used by `Store.Get`) | medium; not executed | `EntriesManager.EmptyFileStallsGet` | `EntriesManager.ReadAgrees` |

## Left out

- `each` and `concurrentReader` (lib/persistence.js:110-136): the concurrent reader is not part of this model. Its point is tracking completion across concurrent reads, which this sequential model cannot express.
- SHA-1 (`crypto.createHash`): not modelled. Each store takes a `sha1` function parameter returning 40 lower-case hex characters, and every result holds for any such function.
- JSON.stringify of non-Buffer values: library code. A non-Buffer value is represented by its JSON text (`Value.Json`). Values with no JSON text, such as `undefined`, are not modelled.
- JSON.parse of a `json` payload: library code. Decoding stops at the payload bytes (`JsonSource`). The reviver walk (`JsValues.Revive`) is modelled on parsed values but is not connected to a parser. A payload that JSON.parse rejects, which would also leave `get` pending, is not detected.
- JSON.parse of the header: only the layout JSON.stringify writes is accepted. White space, another member order, extra members, or non-string `type` and `key` are treated as corrupt, although JSON.parse would accept them.
- `\u` escapes that name surrogates in a header: refused, because Dafny strings hold Unicode scalar values.
- `buf.toString()` on malformed UTF-8: treated as a corrupt header. Node would substitute U+FFFD.
- Lone surrogates in keys: not representable. `new Buffer` would write them as EF BF BD.
- JsValues.ToJsonTimestampMatches: it proves only that the text `Date#toJSON` writes matches the pattern. That a stored Date is read back as a Date is not proved end to end, because the `json` payload parser is not part of this model.
- Dates outside the years 0 to 9999: `Date#toJSON` writes them in expanded-year form, such as `+275760-09-13T00:00:00.000Z`. The pattern's `^(\d{4})-` refuses that form, so such a Date is read back as a string. An Invalid Date is written as `null`. The model does not cover this round trip.
- `new Date(value)`: `JsDate(source)` records the string the Date was built from. Its time value is not modelled.
- `JsValues.Revive` passes `""` as the name of array elements instead of their index, because `dateParser` ignores the name.
- fs-jetpack I/O (`writeAsync`, `readAsync`, `removeAsync`) and path resolution: replaced by a `files` map from a (directory, shard, file) path to the file's bytes.
- Safe write: a single map update, so no partial record is ever visible.
- I/O failures such as permission errors or a full disk: not modelled.
- Q promises and asynchronous sequencing: every operation completes in one step. Concurrent `set` calls to one key are modelled only as successive map updates.
- Key validation: the stores take any string key and do not re-validate, as in the source.
