/** lib/entries_manager.js: the older store. Its encodeForStorage, isValidKey,
    transformKeyToFilePath and dateParser are the same code as in
    lib/persistence.js (RecordFormat.Encode, JsValues.IsValidKey,
    Sharding.TransformKeyToFilePath, JsValues.DateParser); its
    decodeFromStorage returns the value alone, without the key. */
module EntriesManager {
  import opened Wrappers
  import opened RecordFormat
  import opened Sharding
  import Persistence

  /** decodeFromStorage(buf): the payload bytes for a `binary` record, the
      JSON source for any other; the header's key is read but not returned. */
  function DecodeValue(buf: seq<byte>): Result<Decoded>
  {
    match ParseHeader(HeaderPart(buf))
    case None => Err(CorruptRecord)
    case Some(header) => Ok(Interpret(header.kind, PayloadPart(buf)))
  }

  /** decodeFromStorage as the source runs it: the same forward scan for the
      first line feed, then a return from the `binary` branch. */
  method DecodeFromStorage(buf: seq<byte>) returns (r: Result<Decoded>)
    ensures r == DecodeValue(buf)
  {
    var i := 0;
    while i < |buf|
      invariant i <= |buf|
      invariant forall j | 0 <= j < i :: buf[j] != NewLine
    {
      if buf[i] == NewLine {
        break;
      }
      i := i + 1;
    }
    NewlineIndexUnique(buf, i);
    var headerBuf := buf[..i];
    var dataBuf := if i < |buf| then buf[i + 1..] else [];
    var header := ParseHeader(headerBuf);
    if header.None? {
      return Err(CorruptRecord);
    }
    if header.value.kind == BinaryType {
      return Ok(BinaryData(dataBuf));
    }
    r := Ok(JsonSource(dataBuf));
  }

  /** Decoding an encoded record gives back the value alone: for a Buffer
      exactly the bytes after the first line feed, with no key around them. */
  lemma DecodeValueEncode(key: string, v: Value)
    ensures DecodeValue(Encode(key, v)) == Ok(Expected(v))
    ensures v.Binary? ==> DecodeValue(Encode(key, v)) == Ok(BinaryData(v.bytes))
  {
    EncodeLayout(key, v);
    EncodeTagging(key, v);
  }

  /** The two decoders agree: this one returns what the other's entry holds
      under `value`, and both fail on the same buffers. */
  lemma DecodeValueAgrees(buf: seq<byte>)
    ensures DecodeValue(buf).Ok? <==> Persistence.Decode(buf).Ok?
    ensures DecodeValue(buf).Ok? ==> DecodeValue(buf).value == Persistence.Decode(buf).value.value
  {
  }

  /** `get` with the error surfaced: absent, the decoded value, or
      CorruptRecord. */
  function Read(files: map<FilePath, seq<byte>>, path: FilePath): Result<Option<Decoded>>
  {
    if path !in files then Ok(None)
    else match DecodeValue(files[path])
      case Err(e) => Err(e)
      case Ok(value) => Ok(Some(value))
  }

  /** `get` as the source has it: a throw of decodeFromStorage inside the
      `.then` callback leaves the deferred unsettled. */
  function GetAsWritten(files: map<FilePath, seq<byte>>, path: FilePath): Settlement<Option<Decoded>>
  {
    if path !in files then Resolved(None)
    else match DecodeValue(files[path])
      case Err(_) => NeverSettles
      case Ok(value) => Resolved(Some(value))
  }

  /** An empty file leaves the promise of this `get` pending for ever. */
  lemma EmptyFileStallsGet(files: map<FilePath, seq<byte>>, path: FilePath)
    requires path in files && files[path] == []
    ensures GetAsWritten(files, path) == NeverSettles
  {
    assert HeaderPart([]) == [];
  }

  /** The corrected `get` settles on every file, and is the `get` of
      lib/persistence.js: both stores answer alike. */
  lemma ReadAgrees(files: map<FilePath, seq<byte>>, path: FilePath)
    ensures Read(files, path) == Persistence.Read(files, path)
    ensures path in files && files[path] == [] ==> Read(files, path) == Err(CorruptRecord)
  {
    if path in files {
      DecodeValueAgrees(files[path]);
    }
    assert HeaderPart([]) == [];
  }

  /** The store created by `create(storageDir)`; `files` maps the resolved
      path of each file to its bytes. */
  class Store {
    const storageDir: string
    const sha1: string -> HexDigest
    var files: map<FilePath, seq<byte>>

    constructor (storageDir: string, sha1: string -> HexDigest, files: map<FilePath, seq<byte>>)
      ensures this.storageDir == storageDir && this.sha1 == sha1 && this.files == files
    {
      this.storageDir := storageDir;
      this.sha1 := sha1;
      this.files := files;
    }

    /** transformKeyToFilePath: `pathUtil.resolve(storageDir, dir, file)`. */
    function PathOf(key: string): FilePath
    {
      TransformKeyToFilePath(storageDir, sha1, key)
    }

    /** set(key, value): the key's file is replaced by the encoded record,
        nothing else changes, and `get` now returns the value. */
    method Set(key: string, value: Value)
      modifies this
      ensures files == old(files)[PathOf(key) := Encode(key, value)]
      ensures Read(files, PathOf(key)) == Ok(Some(Expected(value)))
    {
      var filePath := PathOf(key);
      var buf := Encode(key, value);
      files := files[filePath := buf];
      DecodeValueEncode(key, value);
    }

    /** get(key): null when there is no file, otherwise the decoded value. */
    method Get(key: string) returns (r: Result<Option<Decoded>>)
      ensures r == Read(files, PathOf(key))
      ensures PathOf(key) !in files ==> r == Ok(None)
    {
      var filePath := PathOf(key);
      if filePath !in files {
        return Ok(None);
      }
      var decoded := DecodeFromStorage(files[filePath]);
      match decoded
      case Err(e) =>
        r := Err(e);
      case Ok(value) =>
        r := Ok(Some(value));
    }

    /** del(key): the file is removed if it was there, and `get` then
        returns null; removing a missing file is not an error. */
    method Del(key: string)
      modifies this
      ensures files == old(files) - {PathOf(key)}
      ensures PathOf(key) !in old(files) ==> files == old(files)
      ensures Read(files, PathOf(key)) == Ok(None)
    {
      var filePath := PathOf(key);
      files := files - {filePath};
    }
  }
}
