/** The on-disk layout of one stored entry, shared by lib/persistence.js and
    lib/entries_manager.js: the UTF-8 JSON header `{"type":…,"key":…}`, one
    line feed (byte 10), then the payload. `encodeForStorage` and the
    header/payload split of `decodeFromStorage` are the same in both files. */
module RecordFormat {
  import opened Wrappers
  import Utf8
  import JsonHeader

  type byte = Utf8.byte

  /** `newLineCode`: the byte that ends the header. */
  const NewLine: byte := 10

  const BinaryType := "binary"
  const JsonType := "json"

  /** A value handed to `set`. A Buffer is stored as it is; any other value
      is represented by the text JSON.stringify gives for it. */
  datatype Value = Binary(bytes: seq<byte>) | Json(text: string)

  /** What decoding yields for the payload: the bytes themselves for a
      `binary` record, and for any other type the payload bytes that
      JSON.parse then reads with the date reviver. */
  datatype Decoded = BinaryData(bytes: seq<byte>) | JsonSource(text: seq<byte>)

  /** A header that JSON.parse cannot read makes decodeFromStorage throw. */
  datatype Error = CorruptRecord

  datatype Result<T> = Ok(value: T) | Err(error: Error)

  /** How a promise returned by `get` ends: resolved with a value, or never
      settled at all. */
  datatype Settlement<T> = Resolved(value: T) | NeverSettles

  /** The header `type` encodeForStorage writes for a value. */
  function TypeOf(v: Value): string
  {
    if v.Binary? then BinaryType else JsonType
  }

  /** The payload bytes encodeForStorage writes for a value. */
  function PayloadOf(v: Value): seq<byte>
  {
    match v
    case Binary(bytes) => bytes
    case Json(text) => Utf8.Encode(text)
  }

  /** The header line, as bytes, without its line feed. */
  function HeaderBytes(kind: string, key: string): seq<byte>
  {
    Utf8.Encode(JsonHeader.Stringify(JsonHeader.Header(kind, key)))
  }

  /** encodeForStorage(key, value). */
  function Encode(key: string, v: Value): seq<byte>
  {
    HeaderBytes(TypeOf(v), key) + [NewLine] + PayloadOf(v)
  }

  /** Where the forward scan of decodeFromStorage stops: the index of the
      first line feed, or the length of the buffer when there is none. */
  function NewlineIndex(buf: seq<byte>): (i: nat)
    ensures i <= |buf|
    ensures forall j | 0 <= j < i :: buf[j] != NewLine
    ensures i < |buf| ==> buf[i] == NewLine
  {
    if buf == [] || buf[0] == NewLine then 0 else 1 + NewlineIndex(buf[1..])
  }

  /** `buf.slice(0, i)`: the header bytes. */
  function HeaderPart(buf: seq<byte>): seq<byte>
  {
    buf[..NewlineIndex(buf)]
  }

  /** `buf.slice(i + 1)`: the payload bytes; empty when no line feed was
      found, since slicing past the end gives an empty Buffer. */
  function PayloadPart(buf: seq<byte>): seq<byte>
  {
    var i := NewlineIndex(buf);
    if i < |buf| then buf[i + 1..] else []
  }

  /** `JSON.parse(fileHeaderBuf.toString())`; None where it would throw. */
  function ParseHeader(bytes: seq<byte>): Option<JsonHeader.Header>
  {
    match Utf8.Decode(bytes)
    case None => None
    case Some(text) => JsonHeader.Parse(text)
  }

  /** The dispatch on `fileHeader.type`: only `binary` keeps the bytes as
      they are; any other type hands the same bytes to JSON.parse. */
  function Interpret(kind: string, payload: seq<byte>): (d: Decoded)
    ensures d.BinaryData? <==> kind == BinaryType
    ensures d.BinaryData? ==> d.bytes == payload
    ensures d.JsonSource? ==> d.text == payload
  {
    if kind == BinaryType then BinaryData(payload) else JsonSource(payload)
  }

  /** What decoding gives back for a value that was encoded. */
  function Expected(v: Value): Decoded
  {
    match v
    case Binary(bytes) => BinaryData(bytes)
    case Json(text) => JsonSource(Utf8.Encode(text))
  }

  /** The scan stops at i exactly when i satisfies the three facts the scan
      establishes; used to connect a loop to NewlineIndex. */
  lemma NewlineIndexUnique(buf: seq<byte>, i: nat)
    requires i <= |buf|
    requires forall j | 0 <= j < i :: buf[j] != NewLine
    requires i < |buf| ==> buf[i] == NewLine
    ensures i == NewlineIndex(buf)
  {
  }

  /** With no line feed in the buffer the whole buffer is the header and the
      payload is empty. */
  lemma NoNewline(buf: seq<byte>)
    requires NewLine !in buf
    ensures NewlineIndex(buf) == |buf|
    ensures HeaderPart(buf) == buf && PayloadPart(buf) == []
  {
  }

  /** The header line holds no line feed, for every type and key. */
  lemma HeaderNewlineFree(kind: string, key: string)
    ensures NewLine !in HeaderBytes(kind, key)
  {
    JsonHeader.StringifyNewlineFree(JsonHeader.Header(kind, key));
    Utf8.NewlineFree(JsonHeader.Stringify(JsonHeader.Header(kind, key)));
  }

  /** An encoded record is the header bytes, one line feed and the payload:
      the first line feed is the one encodeForStorage wrote, so the split of
      decodeFromStorage gives back exactly the header and the payload, and
      the header reads back as the type and the key that were written. */
  lemma EncodeLayout(key: string, v: Value)
    ensures NewlineIndex(Encode(key, v)) == |HeaderBytes(TypeOf(v), key)|
    ensures HeaderPart(Encode(key, v)) == HeaderBytes(TypeOf(v), key)
    ensures PayloadPart(Encode(key, v)) == PayloadOf(v)
    ensures ParseHeader(HeaderPart(Encode(key, v))) == Some(JsonHeader.Header(TypeOf(v), key))
  {
    var h := HeaderBytes(TypeOf(v), key);
    var buf := Encode(key, v);
    HeaderNewlineFree(TypeOf(v), key);
    forall j | 0 <= j < |h| ensures buf[j] != NewLine {
      assert buf[j] == h[j];
      assert h[j] in h;
    }
    assert buf[|h|] == NewLine;
    NewlineIndexUnique(buf, |h|);
    assert buf[..|h|] == h;
    assert buf[|h| + 1..] == PayloadOf(v);
    Utf8.DecodeEncode(JsonHeader.Stringify(JsonHeader.Header(TypeOf(v), key)));
    JsonHeader.ParseStringify(JsonHeader.Header(TypeOf(v), key));
  }

  /** A Buffer is tagged `binary` and its bytes are the payload unchanged;
      every other value is tagged `json` and its payload is its JSON text. */
  lemma EncodeTagging(key: string, v: Value)
    ensures Interpret(TypeOf(v), PayloadPart(Encode(key, v))) == Expected(v)
    ensures v.Binary? ==> PayloadPart(Encode(key, v)) == v.bytes
    ensures v.Json? ==> Utf8.Decode(PayloadPart(Encode(key, v))) == Some(v.text)
  {
    EncodeLayout(key, v);
    if v.Json? {
      Utf8.DecodeEncode(v.text);
    }
  }
}
