/**
 The encrypted file format: a 24-byte header and AES-GCM chunks of 64 KiB, each bound
 to its file, its place and whether it is the last. AES-GCM is the authenticated cipher
 of sections 2.1 and 2.2 of RFC 5116; the key derivation is any function of the salt.
 */
module Crypt {
  import opened Basics

  const CHUNK_SIZE := 65536
  const TAG_SIZE := 16
  const SEALED_SIZE := 65552
  const SALT_SIZE := 16
  const HEADER_SIZE := 24
  const MAX_INT64 := 0x7fff_ffff_ffff_ffff

  // "HSYNCE" and the version.
  const MARK: Body := [72, 83, 89, 78, 67, 69, 1]

  // seal and open take a key, a nonce, the text and the additional data.
  datatype Cipher = Cipher(
    derive: Body -> Body,
    seal: (Body, Body, Body, Body) -> Body,
    open: (Body, Body, Body, Body) -> Option<Body>)

  ghost predicate Seals(c: Cipher, key: Body, n: Body, text: Body, aad: Body) {
    var sealed := c.seal(key, n, text, aad);
    |sealed| == |text| + TAG_SIZE && c.open(key, n, sealed, aad) == Some(text)
  }

  ghost predicate OpensOnlySealed(c: Cipher, key: Body, n: Body, sealed: Body, aad: Body) {
    var text := c.open(key, n, sealed, aad);
    text.Some? ==> sealed == c.seal(key, n, text.value, aad)
  }

  // What AES-GCM gives every caller: sealing adds a tag and opening undoes it, and
  // nothing else opens.
  ghost predicate IsAead(c: Cipher) {
    && (forall key, n, text, aad {:trigger Seals(c, key, n, text, aad)} :: Seals(c, key, n, text, aad))
    && (forall key, n, sealed, aad {:trigger OpensOnlySealed(c, key, n, sealed, aad)} :: OpensOnlySealed(c, key, n, sealed, aad))
  }

  // ── Positions as bytes ─────────────────────────────────────────────────────

  function BigEndian(x: nat, width: nat): (b: Body)
    ensures |b| == width
  {
    if width == 0 then [] else BigEndian(x / 256, width - 1) + [x % 256]
  }

  function FromBigEndian(b: Body): nat {
    if b == [] then 0 else 256 * FromBigEndian(b[..|b| - 1]) + b[|b| - 1]
  }

  function Power256(width: nat): (p: nat)
    ensures p > 0
  {
    if width == 0 then 1 else 256 * Power256(width - 1)
  }

  lemma {:induction false} BigEndianRoundTrip(x: nat, width: nat)
    requires x < Power256(width)
    ensures FromBigEndian(BigEndian(x, width)) == x
  {
    if width > 0 {
      BigEndianRoundTrip(x / 256, width - 1);
      assert BigEndian(x, width)[..width - 1] == BigEndian(x / 256, width - 1);
    }
  }

  function Nonce(index: nat): (n: Body)
    ensures |n| == 12
  {
    [0, 0, 0, 0] + BigEndian(index, 8)
  }

  // The most significant byte comes first: bytes compare as the numbers do.
  lemma {:induction false} BigEndianOrder(x: nat, y: nat, width: nat) returns (k: nat)
    requires x < y < Power256(width)
    ensures k < width && BigEndian(x, width)[..k] == BigEndian(y, width)[..k]
    ensures BigEndian(x, width)[k] < BigEndian(y, width)[k]
  {
    if x / 256 == y / 256 {
      k := width - 1;
      assert BigEndian(x, width)[..k] == BigEndian(x / 256, k) == BigEndian(y, width)[..k];
    } else {
      k := BigEndianOrder(x / 256, y / 256, width - 1);
      var a, b := BigEndian(x / 256, width - 1), BigEndian(y / 256, width - 1);
      assert BigEndian(x, width)[..k] == a[..k] && BigEndian(y, width)[..k] == b[..k];
    }
  }

  function Additional(header: Body, index: nat, final: bool): Body {
    header + BigEndian(index, 8) + [if final then 1 else 0]
  }

  lemma Int64Fits(x: nat)
    requires x <= MAX_INT64
    ensures x < Power256(8)
  {
    assert Power256(4) == 0x1_0000_0000;
    assert Power256(6) == 0x1_0000_0000_0000;
  }

  // Byte by byte: the header, the place in eight bytes, and a one exactly at the end.
  lemma AdditionalReadsBack(header: Body, index: nat, final: bool)
    requires index <= MAX_INT64
    ensures var aad := Additional(header, index, final);
      && |aad| == |header| + 9 && aad[..|header|] == header
      && FromBigEndian(aad[|header|..|header| + 8]) == index
      && aad[|header| + 8] == One(final)
  {
    Int64Fits(index);
    BigEndianRoundTrip(index, 8);
    assert Additional(header, index, final)[|header|..|header| + 8] == BigEndian(index, 8);
  }

  // The additional data names exactly one header, place and flag.
  lemma AdditionalIsInjective(h: Body, i: nat, f: bool, h': Body, i': nat, f': bool)
    requires |h| == |h'| && i <= MAX_INT64 && i' <= MAX_INT64
    requires Additional(h, i, f) == Additional(h', i', f')
    ensures h == h' && i == i' && f == f'
  {
    var a, a' := Additional(h, i, f), Additional(h', i', f');
    assert h == a[..|h|] == a'[..|h|] == h';
    assert BigEndian(i, 8) == a[|h|..|h| + 8] == a'[|h|..|h| + 8] == BigEndian(i', 8);
    assert a[|h| + 8] == a'[|h| + 8];
    Int64Fits(i);
    Int64Fits(i');
    BigEndianRoundTrip(i, 8);
    BigEndianRoundTrip(i', 8);
  }

  // ── The format ─────────────────────────────────────────────────────────────

  function Header(salt: Body): (h: Body)
    ensures |h| == |salt| + 8
  {
    MARK + [0] + salt
  }

  // "HSYNCE", version 1, a byte kept for later, and the salt.
  lemma HeaderReadsBack(salt: Body)
    requires |salt| == SALT_SIZE
    ensures var header := Header(salt);
      |header| == 24 && header[..6] == [72, 83, 89, 78, 67, 69] && header[6] == 1 && header[7] == 0 && header[8..] == salt
  {}

  function Chunks(size: nat): nat {
    size / CHUNK_SIZE + 1
  }

  function PlainChunk(text: Body, i: nat): (chunk: Body)
    requires i < Chunks(|text|)
    ensures |chunk| == if i < |text| / CHUNK_SIZE then CHUNK_SIZE else |text| % CHUNK_SIZE
  {
    if i < |text| / CHUNK_SIZE then text[i * CHUNK_SIZE..(i + 1) * CHUNK_SIZE] else text[i * CHUNK_SIZE..]
  }

  function SealedChunk(c: Cipher, salt: Body, text: Body, i: nat): Body
    requires i < Chunks(|text|)
  {
    c.seal(c.derive(salt), Nonce(i), PlainChunk(text, i), Additional(Header(salt), i, i == Chunks(|text|) - 1))
  }

  lemma SealedChunkLength(c: Cipher, salt: Body, text: Body, i: nat)
    requires IsAead(c) && i < Chunks(|text|)
    ensures |SealedChunk(c, salt, text, i)| == |PlainChunk(text, i)| + TAG_SIZE
  {
    assert Seals(c, c.derive(salt), Nonce(i), PlainChunk(text, i), Additional(Header(salt), i, i == Chunks(|text|) - 1));
  }

  function SealedChunks(c: Cipher, salt: Body, text: Body, count: nat): Body
    requires count <= Chunks(|text|)
  {
    if count == 0 then [] else SealedChunks(c, salt, text, count - 1) + SealedChunk(c, salt, text, count - 1)
  }

  function Encrypted(c: Cipher, salt: Body, text: Body): Body {
    Header(salt) + SealedChunks(c, salt, text, Chunks(|text|))
  }

  lemma PendingIsAChunk(text: Body, index: nat, end: nat)
    requires index * CHUNK_SIZE <= end <= |text|
    requires end == (index + 1) * CHUNK_SIZE || (end == |text| && end < (index + 1) * CHUNK_SIZE)
    ensures index < Chunks(|text|) && text[index * CHUNK_SIZE..end] == PlainChunk(text, index)
    ensures end == (index + 1) * CHUNK_SIZE ==> index + 1 < Chunks(|text|)
    ensures end < (index + 1) * CHUNK_SIZE ==> index + 1 == Chunks(|text|)
  {}

  // What the loop has done: `index` chunks are sealed, the text read since is pending.
  ghost predicate Ahead(c: Cipher, salt: Body, src: Body, dst: Body, index: nat, read: nat, pending: Body, pendingLen: int) {
    && index * CHUNK_SIZE <= read <= |src|
    && index < Chunks(|src|) && dst == Header(salt) + SealedChunks(c, salt, src, index)
    && (if pendingLen < 0 then read == index * CHUNK_SIZE
        else pendingLen == |pending| && pending == src[index * CHUNK_SIZE..read])
  }

  // ── Keys and nonces ────────────────────────────────────────────────────────

  // One call of the cipher's seal: what AES-GCM may never be given twice.
  datatype Use = Use(key: Body, nonce: Body)

  // The i-th call of a run: under its own key, with a nonce that reads back as i.
  ghost predicate IsUse(c: Cipher, salt: Body, use: Use, i: nat) {
    && use.key == c.derive(salt) && |use.nonce| == 12 && use.nonce[..4] == Zeros(4)
    && (i <= MAX_INT64 ==> FromBigEndian(use.nonce[4..]) == i)
  }

  ghost predicate UsesOf(c: Cipher, salt: Body, used: seq<Use>, count: nat) {
    |used| == count && forall i :: 0 <= i < count ==> IsUse(c, salt, used[i], i)
  }

  lemma NonceReadsBack(index: nat)
    requires index <= MAX_INT64
    ensures FromBigEndian(Nonce(index)[4..]) == index
  {
    Int64Fits(index);
    BigEndianRoundTrip(index, 8);
    assert Nonce(index)[4..] == BigEndian(index, 8);
  }

  ghost predicate NoneTwice(used: seq<Use>) {
    forall i, j :: 0 <= i < j < |used| ==> used[i] != used[j]
  }

  lemma UsesDiffer(c: Cipher, salt: Body, used: seq<Use>, count: nat)
    requires UsesOf(c, salt, used, count)
    ensures count <= MAX_INT64 ==> NoneTwice(used)
  {
    forall i, j | count <= MAX_INT64 && 0 <= i < j < |used| ensures used[i] != used[j] {
      assert IsUse(c, salt, used[i], i) && IsUse(c, salt, used[j], j);
    }
  }

  lemma OneMoreUse(c: Cipher, salt: Body, used: seq<Use>, index: nat)
    requires UsesOf(c, salt, used, index)
    ensures UsesOf(c, salt, used + [Use(c.derive(salt), Nonce(index))], index + 1)
  {
    assert Nonce(index)[..4] == Zeros(4);
    if index <= MAX_INT64 {
      NonceReadsBack(index);
    }
  }

  // Seals, and notes under what.
  method Seal(c: Cipher, key: Body, nonce: Body, text: Body, aad: Body, ghost used: seq<Use>)
    returns (sealed: Body, ghost more: seq<Use>)
    ensures sealed == c.seal(key, nonce, text, aad) && more == used + [Use(key, nonce)]
  {
    sealed, more := c.seal(key, nonce, text, aad), used + [Use(key, nonce)];
  }

  // The loop reads a chunk ahead, because a chunk cannot be sealed before it is known
  // whether anything follows it. It ends by sealing what is left, even when that is
  // nothing, so the final chunk is never a full one.
  method Encrypt(c: Cipher, salt: Body, src: Body) returns (dst: Body, written: nat, ghost used: seq<Use>)
    ensures dst == Encrypted(c, salt, src) && written == |src|
    ensures UsesOf(c, salt, used, Chunks(|src|)) && (Chunks(|src|) <= MAX_INT64 ==> NoneTwice(used))
  {
    var header := Header(salt);
    dst, written, used := header, 0, [];
    var read: nat, index: nat := 0, 0;
    var pending: Body, pendingLen: int := [], -1;
    var atEnd := false;
    while !atEnd
      invariant written == index * CHUNK_SIZE && UsesOf(c, salt, used, index)
      invariant Ahead(c, salt, src, dst, index, read, pending, pendingLen)
      invariant if atEnd then read == |src| && pendingLen < CHUNK_SIZE else pendingLen == CHUNK_SIZE || (pendingLen < 0 && read == 0)
      decreases !atEnd, |src| - read
    {
      var n := if |src| - read < CHUNK_SIZE then |src| - read else CHUNK_SIZE;
      atEnd := n < CHUNK_SIZE;
      if pendingLen >= 0 {
        dst, used := WriteChunk(c, salt, src, dst, index, read, pending, false, used);
        written := written + pendingLen;
        index := index + 1;
        pendingLen := -1;
      }
      if n > 0 {
        pending := src[read..read + n];
        pendingLen := n;
      }
      read := read + n;
    }
    if pendingLen < 0 {
      pending, pendingLen := [], 0;
    }
    dst, used := WriteChunk(c, salt, src, dst, index, read, pending, true, used);
    written := written + pendingLen;
    UsesDiffer(c, salt, used, Chunks(|src|));
  }

  method WriteChunk(c: Cipher, salt: Body, ghost src: Body, dst: Body, index: nat, ghost read: nat, pending: Body, final: bool, ghost used: seq<Use>)
    returns (longer: Body, ghost more: seq<Use>)
    requires Ahead(c, salt, src, dst, index, read, pending, |pending|) && UsesOf(c, salt, used, index)
    requires if final then read == |src| && |pending| < CHUNK_SIZE else |pending| == CHUNK_SIZE
    ensures longer == Header(salt) + SealedChunks(c, salt, src, index + 1)
    ensures if final then longer == Encrypted(c, salt, src) else Ahead(c, salt, src, longer, index + 1, read, [], -1)
    ensures UsesOf(c, salt, more, index + 1) && (final ==> index + 1 == Chunks(|src|))
  {
    PendingIsAChunk(src, index, read);
    var sealed;
    sealed, more := Seal(c, c.derive(salt), Nonce(index), pending, Additional(Header(salt), index, final), used);
    longer := dst + sealed;
    assert sealed == SealedChunk(c, salt, src, index);
    OneMoreUse(c, salt, used, index);
  }

  // ── The size, worked out from the file's ───────────────────────────────────

  datatype Size = Size(text: nat, chunks: nat) | NoSize

  function PlainSize(fileSize: nat): Size {
    var body := fileSize - HEADER_SIZE;
    if body < TAG_SIZE then NoSize
    else
      var full, rem := body / SEALED_SIZE, body % SEALED_SIZE;
      if rem == 0 then Size(full * CHUNK_SIZE, full)
      else if rem < TAG_SIZE then NoSize
      else Size(full * CHUNK_SIZE + rem - TAG_SIZE, full + 1)
  }

  // Whatever it answers, header, text and one tag a chunk add up to the file.
  lemma SizesAddUp(fileSize: nat)
    ensures var s := PlainSize(fileSize);
      s.Size? ==>
        && fileSize == HEADER_SIZE + s.text + TAG_SIZE * s.chunks && 0 < s.chunks
        && (s.chunks - 1) * CHUNK_SIZE <= s.text <= s.chunks * CHUNK_SIZE
  {}

  lemma {:induction false} FullChunksLength(c: Cipher, salt: Body, text: Body, count: nat)
    requires IsAead(c) && count <= |text| / CHUNK_SIZE
    ensures |SealedChunks(c, salt, text, count)| == count * SEALED_SIZE
  {
    if count > 0 {
      FullChunksLength(c, salt, text, count - 1);
      SealedChunkLength(c, salt, text, count - 1);
    }
  }

  lemma EncryptedLength(c: Cipher, salt: Body, text: Body)
    requires IsAead(c) && |salt| == SALT_SIZE
    ensures |Encrypted(c, salt, text)| == HEADER_SIZE + |text| / CHUNK_SIZE * SEALED_SIZE + |text| % CHUNK_SIZE + TAG_SIZE
  {
    FullChunksLength(c, salt, text, |text| / CHUNK_SIZE);
    SealedChunkLength(c, salt, text, |text| / CHUNK_SIZE);
  }

  // The length of what Encrypt wrote gives back the length and the number of chunks of
  // what it read.
  lemma SizeRoundTrip(c: Cipher, salt: Body, text: Body)
    requires IsAead(c) && |salt| == SALT_SIZE
    ensures PlainSize(|Encrypted(c, salt, text)|) == Size(|text|, |text| / CHUNK_SIZE + 1)
  {
    EncryptedLength(c, salt, text);
    var full, last := |text| / CHUNK_SIZE, |text| % CHUNK_SIZE + TAG_SIZE;
    assert (full * SEALED_SIZE + last) / SEALED_SIZE == full && (full * SEALED_SIZE + last) % SEALED_SIZE == last;
  }

  // ── A stored file, chunk by chunk ──────────────────────────────────────────

  predicate IsEncrypted(file: Body) {
    |file| >= HEADER_SIZE && file[..|MARK|] == MARK
  }

  function SaltOf(file: Body): Body
    requires |file| >= HEADER_SIZE
  {
    file[HEADER_SIZE - SALT_SIZE..HEADER_SIZE]
  }

  predicate IsLast(file: Body, i: nat) {
    PlainSize(|file|).Size? && i == PlainSize(|file|).chunks - 1
  }

  // What a load of one chunk gives: nothing if it does not authenticate as the chunk
  // of this file, at this place, and last exactly if it is.
  function Opened(c: Cipher, file: Body, i: nat): Option<Body>
    requires |file| >= HEADER_SIZE
  {
    var chunks := PlainSize(|file|);
    if chunks.NoSize? || i >= chunks.chunks then None
    else
      SizesAddUp(|file|);
      var at := HEADER_SIZE + i * SEALED_SIZE;
      var want := if i == chunks.chunks - 1 then |file| - at else SEALED_SIZE;
      c.open(c.derive(SaltOf(file)), Nonce(i), file[at..at + want],
             Additional(file[..HEADER_SIZE], i, i == chunks.chunks - 1))
  }

  // Where a chunk is in the file, and how long.
  function ChunkStart(i: nat): nat {
    HEADER_SIZE + i * SEALED_SIZE
  }

  lemma SliceOfFirst(a: Body, b: Body, i: nat, j: nat)
    requires i <= j <= |a|
    ensures (a + b)[i..j] == a[i..j]
  {}

  lemma SliceOfSecond(a: Body, b: Body, i: nat, j: nat)
    requires i <= j <= |b|
    ensures (a + b)[|a| + i..|a| + j] == b[i..j]
  {}

  // Chunk i is at its place in what the first `count` chunks make.
  predicate IsThere(c: Cipher, salt: Body, text: Body, count: nat, i: nat)
    requires i < count <= Chunks(|text|)
  {
    var all, chunk := SealedChunks(c, salt, text, count), SealedChunk(c, salt, text, i);
    i * SEALED_SIZE + |chunk| <= |all| && all[i * SEALED_SIZE..i * SEALED_SIZE + |chunk|] == chunk
  }

  lemma LastIsThere(c: Cipher, salt: Body, text: Body, i: nat)
    requires IsAead(c) && i < Chunks(|text|)
    ensures IsThere(c, salt, text, i + 1, i)
  {
    FullChunksLength(c, salt, text, i);
    SliceOfSecond(SealedChunks(c, salt, text, i), SealedChunk(c, salt, text, i), 0, |SealedChunk(c, salt, text, i)|);
  }

  lemma {:induction false} SealedChunkIsThere(c: Cipher, salt: Body, text: Body, count: nat, i: nat)
    requires IsAead(c) && i < count <= Chunks(|text|)
    ensures IsThere(c, salt, text, count, i)
  {
    if i == count - 1 {
      LastIsThere(c, salt, text, i);
    } else {
      SealedChunkIsThere(c, salt, text, count - 1, i);
      SliceOfFirst(SealedChunks(c, salt, text, count - 1), SealedChunk(c, salt, text, count - 1),
                   i * SEALED_SIZE, i * SEALED_SIZE + |SealedChunk(c, salt, text, i)|);
    }
  }

  lemma SealedChunkIsInTheFile(c: Cipher, salt: Body, text: Body, i: nat)
    requires IsAead(c) && |salt| == SALT_SIZE && i < Chunks(|text|)
    ensures var file, end := Encrypted(c, salt, text), ChunkStart(i) + |PlainChunk(text, i)| + TAG_SIZE;
      && end <= |file| && (i == Chunks(|text|) - 1 ==> end == |file|)
      && file[ChunkStart(i)..end] == SealedChunk(c, salt, text, i)
  {
    SealedChunkLength(c, salt, text, i);
    EncryptedLength(c, salt, text);
    SealedChunkIsThere(c, salt, text, Chunks(|text|), i);
    var start := i * SEALED_SIZE;
    SliceOfSecond(Header(salt), SealedChunks(c, salt, text, Chunks(|text|)), start, start + |SealedChunk(c, salt, text, i)|);
  }

  lemma EncryptedHeader(c: Cipher, salt: Body, text: Body)
    requires |salt| == SALT_SIZE
    ensures var file := Encrypted(c, salt, text);
      IsEncrypted(file) && file[..HEADER_SIZE] == Header(salt) && SaltOf(file) == salt
  {
    var file := Encrypted(c, salt, text);
    assert file[..HEADER_SIZE] == Header(salt);
    assert file[..|MARK|] == MARK;
  }

  // Every chunk of what Encrypt wrote opens, to the piece of text it was made from.
  lemma EveryChunkOpens(c: Cipher, salt: Body, text: Body, i: nat)
    requires IsAead(c) && |salt| == SALT_SIZE && i < Chunks(|text|)
    ensures IsEncrypted(Encrypted(c, salt, text))
    ensures Opened(c, Encrypted(c, salt, text), i) == Some(PlainChunk(text, i))
  {
    EncryptedHeader(c, salt, text);
    SizeRoundTrip(c, salt, text);
    SealedChunkIsInTheFile(c, salt, text, i);
    assert Seals(c, c.derive(salt), Nonce(i), PlainChunk(text, i), Additional(Header(salt), i, i == Chunks(|text|) - 1));
  }
}
