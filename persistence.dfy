/** lib/persistence.js: the store whose decoder gives back the whole entry,
    key and value, so that iteration can report keys. */
module Persistence {
  import opened Wrappers
  import opened RecordFormat
  import opened Sharding

  /** `{key: fileHeader.key, value: …}`. */
  datatype Entry = Entry(key: string, value: Decoded)

  /** decodeFromStorage(buf): the key comes from the header, the value from
      the payload as the header's `type` says. */
  function Decode(buf: seq<byte>): Result<Entry>
  {
    match ParseHeader(HeaderPart(buf))
    case None => Err(CorruptRecord)
    case Some(header) => Ok(Entry(header.key, Interpret(header.kind, PayloadPart(buf))))
  }

  /** decodeFromStorage as the source runs it: scan forward to the first line
      feed, split there, read the header and build the entry. */
  method DecodeFromStorage(buf: seq<byte>) returns (r: Result<Entry>)
    ensures r == Decode(buf)
  {
    var i := 0;
    while i < |buf|
      invariant i <= |buf|
      invariant forall j | 0 <= j < i :: buf[j] != NewLine
    {
      if buf[i] == NewLine {
        break;
      }
      i := i + 1;
    }
    NewlineIndexUnique(buf, i);
    var headerBuf := buf[..i];
    var dataBuf := if i < |buf| then buf[i + 1..] else [];
    var header := ParseHeader(headerBuf);
    if header.None? {
      return Err(CorruptRecord);
    }
    var entry := Entry(header.value.key, BinaryData([]));
    if header.value.kind == BinaryType {
      entry := entry.(value := BinaryData(dataBuf));
    } else {
      entry := entry.(value := JsonSource(dataBuf));
    }
    r := Ok(entry);
  }

  /** Decoding an encoded record gives back the key written in its header and
      the value: a Buffer's bytes unchanged, another value's JSON text. */
  lemma DecodeEncode(key: string, v: Value)
    ensures Decode(Encode(key, v)) == Ok(Entry(key, Expected(v)))
  {
    EncodeLayout(key, v);
    EncodeTagging(key, v);
  }

  /** A buffer with no line feed is all header: whatever it decodes to has an
      empty payload. */
  lemma DecodeWithoutNewline(buf: seq<byte>)
    requires NewLine !in buf
    ensures Decode(buf).Ok? ==> Decode(buf).value.value in {BinaryData([]), JsonSource([])}
  {
    NoNewline(buf);
  }

  /** The corrected `get`: absent when no file is at the path, the
      decoded value when one is, CorruptRecord when its header is unreadable. */
  function Read(files: map<FilePath, seq<byte>>, path: FilePath): Result<Option<Decoded>>
  {
    if path !in files then Ok(None)
    else match Decode(files[path])
      case Err(e) => Err(e)
      case Ok(entry) => Ok(Some(entry.value))
  }

  /** `get` as the source has it: decodeFromStorage runs inside a `.then`
      callback with no rejection handler, so when it throws the deferred is
      never resolved nor rejected. */
  function GetAsWritten(files: map<FilePath, seq<byte>>, path: FilePath): Settlement<Option<Decoded>>
  {
    if path !in files then Resolved(None)
    else match Decode(files[path])
      case Err(_) => NeverSettles
      case Ok(entry) => Resolved(Some(entry.value))
  }

  /** An empty file, which JSON.parse cannot read a header from, leaves the
      promise of `get` pending for ever. */
  lemma EmptyFileStallsGet(files: map<FilePath, seq<byte>>, path: FilePath)
    requires path in files && files[path] == []
    ensures GetAsWritten(files, path) == NeverSettles
  {
    assert HeaderPart([]) == [];
  }

  /** The corrected `get` reports that file as CorruptRecord. */
  lemma EmptyFileIsCorrupt(files: map<FilePath, seq<byte>>, path: FilePath)
    requires path in files && files[path] == []
    ensures Read(files, path) == Err(CorruptRecord)
  {
    assert HeaderPart([]) == [];
  }

  /** The source and the corrected `get` agree on every readable file and
      on absent ones; they differ exactly where the record is corrupt. */
  lemma GetAsWrittenAgrees(files: map<FilePath, seq<byte>>, path: FilePath)
    ensures Read(files, path).Ok? ==> GetAsWritten(files, path) == Resolved(Read(files, path).value)
    ensures Read(files, path).Err? <==> GetAsWritten(files, path) == NeverSettles
  {
  }

  /** A file holding an encoded record reads as that record's value, whatever
      key's path it sits at: `get` takes the value and does not compare the
      key in the header with the key asked for. */
  lemma ReadStored(files: map<FilePath, seq<byte>>, path: FilePath, key: string, v: Value)
    requires path in files && files[path] == Encode(key, v)
    ensures Read(files, path) == Ok(Some(Expected(v)))
  {
    DecodeEncode(key, v);
  }

  /** Of two writes to one path, the later one is what `get` returns. */
  lemma LastWriteWins(files: map<FilePath, seq<byte>>, path: FilePath, k1: string, v1: Value, k2: string, v2: Value)
    ensures Read(files[path := Encode(k1, v1)][path := Encode(k2, v2)], path) == Ok(Some(Expected(v2)))
  {
    ReadStored(files[path := Encode(k1, v1)][path := Encode(k2, v2)], path, k2, v2);
  }

  /** Writing or removing one path does not change what `get` returns for
      another. */
  lemma OtherPathsUnaffected(files: map<FilePath, seq<byte>>, path: FilePath, other: FilePath, buf: seq<byte>)
    requires other != path
    ensures Read(files[path := buf], other) == Read(files, other)
    ensures Read(files - {path}, other) == Read(files, other)
  {
  }

  /** Removing a path twice is removing it once, and removing a missing path
      changes nothing. */
  lemma RemoveIdempotent(files: map<FilePath, seq<byte>>, path: FilePath)
    ensures (files - {path}) - {path} == files - {path}
    ensures path !in files ==> files - {path} == files
    ensures Read(files - {path}, path) == Ok(None)
  {
  }

  /** The store created by `create(storageDir)`: `files` is the content of
      the storage directory, file path to file bytes. */
  class Store {
    const storageDir: string
    const sha1: string -> HexDigest
    var files: map<FilePath, seq<byte>>

    constructor (storageDir: string, sha1: string -> HexDigest, files: map<FilePath, seq<byte>>)
      ensures this.storageDir == storageDir && this.sha1 == sha1 && this.files == files
    {
      this.storageDir := storageDir;
      this.sha1 := sha1;
      this.files := files;
    }

    /** transformKeyToFilePath, bound to this store's directory. */
    function PathOf(key: string): FilePath
    {
      TransformKeyToFilePath(storageDir, sha1, key)
    }

    /** set(key, value): the key's file is replaced wholesale by the encoded
        record, no other file changes, and `get` now returns the value. */
    method Set(key: string, value: Value)
      modifies this
      ensures files == old(files)[PathOf(key) := Encode(key, value)]
      ensures Read(files, PathOf(key)) == Ok(Some(Expected(value)))
    {
      var filePath := PathOf(key);
      var buf := Encode(key, value);
      files := files[filePath := buf];
      ReadStored(files, filePath, key, value);
    }

    /** get(key): null when the key's file does not exist, otherwise the
        value decoded from it. */
    method Get(key: string) returns (r: Result<Option<Decoded>>)
      ensures r == Read(files, PathOf(key))
      ensures PathOf(key) !in files ==> r == Ok(None)
    {
      var filePath := PathOf(key);
      if filePath !in files {
        return Ok(None);
      }
      var decoded := DecodeFromStorage(files[filePath]);
      match decoded
      case Err(e) =>
        r := Err(e);
      case Ok(entry) =>
        r := Ok(Some(entry.value));
    }

    /** del(key): the key's file is gone, absent or not before, and `get`
        now returns null. */
    method Del(key: string)
      modifies this
      ensures files == old(files) - {PathOf(key)}
      ensures PathOf(key) !in old(files) ==> files == old(files)
      ensures Read(files, PathOf(key)) == Ok(None)
    {
      var filePath := PathOf(key);
      files := files - {filePath};
    }
  }
}
