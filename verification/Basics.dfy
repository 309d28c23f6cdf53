/**
 The vocabulary every other module shares: paths, file bodies, content hashes
 and the bag of bodies a map of files holds.
 */
module Basics {

  datatype Option<+T> = None | Some(value: T)

  type Path = string

  type Octet = x: int | 0 <= x < 256

  type Body = seq<Octet>

  // SHA-256 as an ideal hash: a digest determines the body it was taken from.
  // NoDigest is the empty string of directories and tombstones.
  datatype Digest = NoDigest | Sha256(of: Body)

  // A regular file on a disk: its bytes and its modification time.
  datatype File = File(body: Body, mtime: int)

  function LowerChar(c: char): char {
    if 'A' <= c <= 'Z' then (c as int + 32) as char else c
  }

  // The key under which two paths meet on a case-insensitive volume.
  function Fold(p: Path): Path {
    seq(|p|, i requires 0 <= i < |p| => LowerChar(p[i]))
  }

  function Holders<K>(files: map<K, File>, b: Body): set<K> {
    set k | k in files && files[k].body == b
  }

  // How often a map of files holds a body.
  function Copies<K>(files: map<K, File>, b: Body): nat {
    |Holders(files, b)|
  }

  function Zeros(n: nat): (z: Body)
    ensures |z| == n
  {
    seq(n, _ => 0)
  }

  function One(condition: bool): nat {
    if condition then 1 else 0
  }

  function Min(a: int, b: int): int { if a <= b then a else b }

  function Max(a: int, b: int): int { if a <= b then b else a }

  function AsSet<T(==)>(items: seq<T>): set<T> {
    set x | x in items
  }

  lemma SubsetIsSmaller<T>(a: set<T>, b: set<T>)
    requires a <= b
    ensures |a| <= |b|
  {
    assert b == a + (b - a);
  }

  lemma Regroup<T>(a: seq<T>, b: seq<T>, c: seq<T>)
    ensures a + (b + c) == a + b + c
  {}

  lemma CopiesWith<K>(files: map<K, File>, k: K, file: File, b: Body)
    ensures Copies(files[k := file], b) + One(k in files && files[k].body == b)
      == Copies(files, b) + One(file.body == b)
  {
    CopiesWithout(files, k, b);
    CopiesWithout(files[k := file], k, b);
    assert files[k := file] - {k} == files - {k};
  }

  lemma CopiesWithout<K>(files: map<K, File>, k: K, b: Body)
    ensures Copies(files - {k}, b) + One(k in files && files[k].body == b) == Copies(files, b)
  {
    if k in files && files[k].body == b {
      assert Holders(files, b) == Holders(files - {k}, b) + {k};
    } else {
      assert Holders(files, b) == Holders(files - {k}, b);
    }
  }
}
