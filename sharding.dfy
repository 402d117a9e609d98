/** transformKeyToFilePath: a key's SHA-1 hex digest split into a two-character
    shard directory and a 38-character file name under the storage directory. */
module Sharding {

  predicate IsLowerHex(c: char) { '0' <= c <= '9' || 'a' <= c <= 'f' }

  /** What `sha.digest('hex')` returns: 40 lower-case hex characters. */
  type HexDigest = s: string | |s| == 40 && forall i | 0 <= i < |s| :: IsLowerHex(s[i])
    witness "0000000000000000000000000000000000000000"

  /** `storageDir.path(dir, file)` / `pathUtil.resolve(storageDir, dir, file)`. */
  datatype FilePath = FilePath(root: string, dir: string, file: string)

  /** The path of a key's file. SHA-1 itself is not part of this model: it is
      the parameter `sha1`, and everything here holds for any such function. */
  function TransformKeyToFilePath(root: string, sha1: string -> HexDigest, key: string): (p: FilePath)
    ensures p.root == root
    ensures |p.dir| == 2 && |p.file| == 38
    ensures p.dir + p.file == sha1(key)
    ensures forall i | 0 <= i < |p.dir| :: IsLowerHex(p.dir[i])
    ensures forall i | 0 <= i < |p.file| :: IsLowerHex(p.file[i])
  {
    var hex := sha1(key);
    FilePath(root, hex[..2], hex[2..])
  }

  /** Two keys share a file exactly when their digests agree: the split loses
      nothing, so paths differ for distinct keys unless SHA-1 collides. */
  lemma SamePathIffSameDigest(root: string, sha1: string -> HexDigest, k1: string, k2: string)
    ensures TransformKeyToFilePath(root, sha1, k1) == TransformKeyToFilePath(root, sha1, k2)
        <==> sha1(k1) == sha1(k2)
  {
    var p1 := TransformKeyToFilePath(root, sha1, k1);
    var p2 := TransformKeyToFilePath(root, sha1, k2);
    if sha1(k1) == sha1(k2) {
      assert p1.dir == sha1(k1)[..2] == p2.dir;
      assert p1.file == sha1(k1)[2..] == p2.file;
    }
  }
}
