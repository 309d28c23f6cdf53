/**
 What an encrypted file that reads to its end can be: with an ideal cipher and salts
 that never repeat, one output of Encrypt, and no part of one.
 */
module Authenticity {
  import opened Basics
  import opened Crypt

  // One run of Encrypt: the salt it drew and the text it was given.
  datatype Sealing = Sealing(salt: Body, text: Body)

  // The runs that were ever made: no salt was drawn twice, and no file is longer
  // than a file can be.
  ghost predicate Genuine(c: Cipher, runs: set<Sealing>) {
    && (forall r :: r in runs ==> |r.salt| == SALT_SIZE && |Encrypted(c, r.salt, r.text)| <= MAX_INT64)
    && (forall r, r' :: r in runs && r' in runs && r.salt == r'.salt ==> r == r')
  }

  // The key derivation tells salts apart.
  ghost predicate TellsSaltsApart(c: Cipher) {
    forall salt, salt' :: |salt| == SALT_SIZE && |salt'| == SALT_SIZE && c.derive(salt) == c.derive(salt') ==> salt == salt'
  }

  // Over all runs ever made, no key is used with the same nonce twice.
  lemma NoNonceTwice(c: Cipher, runs: set<Sealing>, used: map<Sealing, seq<Use>>)
    requires IsAead(c) && Genuine(c, runs) && TellsSaltsApart(c)
    requires used.Keys == runs && forall r :: r in runs ==> UsesOf(c, r.salt, used[r], Chunks(|r.text|))
    ensures forall r, r', i, j :: r in runs && r' in runs && 0 <= i < |used[r]| && 0 <= j < |used[r']| && (r, i) != (r', j) ==>
      used[r][i] != used[r'][j]
  {
    forall r, r', i, j | r in runs && r' in runs && 0 <= i < |used[r]| && 0 <= j < |used[r']| && (r, i) != (r', j)
      ensures used[r][i] != used[r'][j]
    {
      EncryptedLength(c, r.salt, r.text);
      EncryptedLength(c, r'.salt, r'.text);
      assert IsUse(c, r.salt, used[r][i], i) && IsUse(c, r'.salt, used[r'][j], j);
    }
  }

  // Chunk j of a run was sealed under the key, nonce and additional data that chunk i
  // of a file is opened under, and from this text.
  predicate SealedAs(c: Cipher, r: Sealing, j: nat, file: Body, i: nat, text: Body)
    requires |file| >= HEADER_SIZE
  {
    && j < Chunks(|r.text|)
    && c.derive(SaltOf(file)) == c.derive(r.salt) && Nonce(i) == Nonce(j) && text == PlainChunk(r.text, j)
    && Additional(file[..HEADER_SIZE], i, IsLast(file, i)) == Additional(Header(r.salt), j, j == Chunks(|r.text|) - 1)
  }

  ghost predicate WasSealed(c: Cipher, runs: set<Sealing>, file: Body, i: nat, text: Body)
    requires |file| >= HEADER_SIZE
  {
    exists r, j: nat :: r in runs && SealedAs(c, r, j, file, i, text)
  }

  // The ideal cipher, about one file: what opens in it was sealed by some run.
  ghost predicate UnforgedAt(c: Cipher, runs: set<Sealing>, file: Body, i: nat)
    requires |file| >= HEADER_SIZE
  {
    Opened(c, file, i).Some? ==> WasSealed(c, runs, file, i, Opened(c, file, i).value)
  }

  ghost predicate Unforged(c: Cipher, runs: set<Sealing>, file: Body)
    requires |file| >= HEADER_SIZE
  {
    forall i: nat {:trigger UnforgedAt(c, runs, file, i)} :: UnforgedAt(c, runs, file, i)
  }

  // Open hands a file over when its last chunk authenticates; reading it to the end
  // needs every chunk to.
  predicate Accepts(c: Cipher, file: Body) {
    IsEncrypted(file) && PlainSize(|file|).Size? && Opened(c, file, PlainSize(|file|).chunks - 1).Some?
  }

  ghost predicate ReadsToTheEnd(c: Cipher, file: Body) {
    Accepts(c, file) && forall i: nat :: i < PlainSize(|file|).chunks ==> Opened(c, file, i).Some?
  }

  // A chunk that opens is the chunk at the same place of the run with the same salt,
  // and last in both or in neither.
  lemma OpenedIsOfTheRun(c: Cipher, runs: set<Sealing>, file: Body, i: nat) returns (r: Sealing)
    requires IsAead(c) && Genuine(c, runs) && |file| <= MAX_INT64
    requires |file| >= HEADER_SIZE && Unforged(c, runs, file) && Opened(c, file, i).Some?
    ensures r in runs && Header(r.salt) == file[..HEADER_SIZE] && i < Chunks(|r.text|)
    ensures i == Chunks(|r.text|) - 1 <==> IsLast(file, i)
    ensures Opened(c, file, i) == Some(PlainChunk(r.text, i))
  {
    assert UnforgedAt(c, runs, file, i);
    var j: nat;
    r, j :| r in runs && SealedAs(c, r, j, file, i, Opened(c, file, i).value);
    SizesAddUp(|file|);
    EncryptedLength(c, r.salt, r.text);
    AdditionalIsInjective(file[..HEADER_SIZE], i, IsLast(file, i), Header(r.salt), j, j == Chunks(|r.text|) - 1);
  }

  lemma SameSalt(r: Sealing, r': Sealing)
    requires |r.salt| == |r'.salt| && Header(r.salt) == Header(r'.salt)
    ensures r.salt == r'.salt
  {
    assert r.salt == Header(r.salt)[8..] && r'.salt == Header(r'.salt)[8..];
  }

  // So the accepted tail fixes the run, the number of chunks and the length.
  lemma TailFixesTheRun(c: Cipher, runs: set<Sealing>, file: Body) returns (r: Sealing)
    requires IsAead(c) && Genuine(c, runs) && |file| <= MAX_INT64
    requires Accepts(c, file) && Unforged(c, runs, file)
    ensures r in runs && Header(r.salt) == file[..HEADER_SIZE]
    ensures PlainSize(|file|).chunks == Chunks(|r.text|) && |file| == |Encrypted(c, r.salt, r.text)|
  {
    var last := PlainSize(|file|).chunks - 1;
    SizesAddUp(|file|);
    r := OpenedIsOfTheRun(c, runs, file, last);
    LastChunkLength(c, file);
    EncryptedLength(c, r.salt, r.text);
  }

  lemma LastChunkLength(c: Cipher, file: Body)
    requires IsAead(c) && Accepts(c, file)
    ensures var s := PlainSize(|file|);
      |file| == HEADER_SIZE + (s.chunks - 1) * SEALED_SIZE + |Opened(c, file, s.chunks - 1).value| + TAG_SIZE
  {
    SizesAddUp(|file|);
    SealedFormOf(c, file, PlainSize(|file|).chunks - 1);
  }

  // The bytes of a chunk that opens are the sealed form of what it opens to.
  lemma SealedFormOf(c: Cipher, file: Body, i: nat)
    requires IsAead(c) && |file| >= HEADER_SIZE && Opened(c, file, i).Some?
    ensures var s := PlainSize(|file|);
      && s.Size? && i < s.chunks
      && var want := if i == s.chunks - 1 then |file| - ChunkStart(i) else SEALED_SIZE;
      && want == |Opened(c, file, i).value| + TAG_SIZE && ChunkStart(i) + want <= |file|
      && file[ChunkStart(i)..ChunkStart(i) + want]
        == c.seal(c.derive(SaltOf(file)), Nonce(i), Opened(c, file, i).value,
                  Additional(file[..HEADER_SIZE], i, i == s.chunks - 1))
  {
    SizesAddUp(|file|);
    var want := if IsLast(file, i) then |file| - ChunkStart(i) else SEALED_SIZE;
    var aad := Additional(file[..HEADER_SIZE], i, IsLast(file, i));
    assert OpensOnlySealed(c, c.derive(SaltOf(file)), Nonce(i), file[ChunkStart(i)..ChunkStart(i) + want], aad);
    assert Seals(c, c.derive(SaltOf(file)), Nonce(i), Opened(c, file, i).value, aad);
  }

  lemma HeaderAndTail(c: Cipher, file: Body, r: Sealing, i: nat)
    requires IsAead(c) && |file| >= HEADER_SIZE && |r.salt| == SALT_SIZE && Header(r.salt) == file[..HEADER_SIZE]
    requires PlainSize(|file|).Size? && PlainSize(|file|).chunks == Chunks(|r.text|) && i < Chunks(|r.text|)
    requires |file| == |Encrypted(c, r.salt, r.text)|
    requires Opened(c, file, i) == Some(PlainChunk(r.text, i))
    ensures var want := |PlainChunk(r.text, i)| + TAG_SIZE;
      && ChunkStart(i) + want <= |file|
      && file[ChunkStart(i)..ChunkStart(i) + want] == SealedChunk(c, r.salt, r.text, i)
      && (i == Chunks(|r.text|) - 1 ==> ChunkStart(i) + want == |file|)
  {
    SealedFormOf(c, file, i);
    assert SaltOf(file) == Header(r.salt)[8..] == r.salt;
  }

  ghost predicate OpensAs(c: Cipher, file: Body, r: Sealing, i: nat) {
    |file| >= HEADER_SIZE && i < Chunks(|r.text|) && Opened(c, file, i) == Some(PlainChunk(r.text, i))
  }

  // The file has the header, the length and so far the chunks of a run.
  ghost predicate LooksLike(c: Cipher, file: Body, r: Sealing, count: nat) {
    && |r.salt| == SALT_SIZE && |file| == |Encrypted(c, r.salt, r.text)| >= HEADER_SIZE
    && Header(r.salt) == file[..HEADER_SIZE]
    && PlainSize(|file|).Size? && PlainSize(|file|).chunks == Chunks(|r.text|)
    && count <= Chunks(|r.text|) && forall i: nat {:trigger OpensAs(c, file, r, i)} :: i < count ==> OpensAs(c, file, r, i)
  }

  lemma TwoSlices(file: Body, at: nat, a: Body, b: Body)
    requires at + |a| + |b| <= |file|
    requires file[at..at + |a|] == a && file[at + |a|..at + |a| + |b|] == b
    ensures file[at..at + |a + b|] == a + b
  {
    assert file[at..at + |a + b|] == file[at..at + |a|] + file[at + |a|..at + |a| + |b|];
  }

  // The bytes of chunk i of a run are where they belong.
  ghost predicate HasChunk(c: Cipher, file: Body, r: Sealing, i: nat) {
    && i < Chunks(|r.text|)
    && var end := ChunkStart(i) + |SealedChunk(c, r.salt, r.text, i)|;
    && end <= |file| && file[ChunkStart(i)..end] == SealedChunk(c, r.salt, r.text, i)
  }

  lemma {:induction false} ChunksAreTheBytes(c: Cipher, file: Body, r: Sealing, count: nat)
    requires IsAead(c) && |file| >= HEADER_SIZE && count <= Chunks(|r.text|)
    requires forall i: nat {:trigger HasChunk(c, file, r, i)} :: i < count ==> HasChunk(c, file, r, i)
    ensures var sealed := SealedChunks(c, r.salt, r.text, count);
      HEADER_SIZE + |sealed| <= |file| && file[HEADER_SIZE..HEADER_SIZE + |sealed|] == sealed
  {
    if count > 0 {
      ChunksAreTheBytes(c, file, r, count - 1);
      FullChunksLength(c, r.salt, r.text, count - 1);
      assert HasChunk(c, file, r, count - 1);
      TwoSlices(file, HEADER_SIZE, SealedChunks(c, r.salt, r.text, count - 1), SealedChunk(c, r.salt, r.text, count - 1));
    }
  }

  lemma ThenItIsTheBytes(c: Cipher, file: Body, r: Sealing)
    requires IsAead(c) && LooksLike(c, file, r, Chunks(|r.text|))
    ensures file == Encrypted(c, r.salt, r.text)
  {
    forall i: nat | i < Chunks(|r.text|) ensures HasChunk(c, file, r, i) {
      assert OpensAs(c, file, r, i);
      HeaderAndTail(c, file, r, i);
      SealedChunkLength(c, r.salt, r.text, i);
    }
    ChunksAreTheBytes(c, file, r, Chunks(|r.text|));
    var sealed := SealedChunks(c, r.salt, r.text, Chunks(|r.text|));
    assert file == file[..HEADER_SIZE] + file[HEADER_SIZE..HEADER_SIZE + |sealed|];
  }

  lemma OpensAsTheRun(c: Cipher, runs: set<Sealing>, file: Body, r: Sealing, i: nat)
    requires IsAead(c) && Genuine(c, runs) && |file| <= MAX_INT64
    requires |file| >= HEADER_SIZE && Unforged(c, runs, file) && Opened(c, file, i).Some?
    requires r in runs && Header(r.salt) == file[..HEADER_SIZE]
    ensures OpensAs(c, file, r, i)
  {
    var r' := OpenedIsOfTheRun(c, runs, file, i);
    SameSalt(r, r');
  }

  lemma WhatReadsWasWritten(c: Cipher, runs: set<Sealing>, file: Body) returns (r: Sealing)
    requires IsAead(c) && Genuine(c, runs) && |file| <= MAX_INT64
    requires |file| >= HEADER_SIZE && Unforged(c, runs, file) && ReadsToTheEnd(c, file)
    ensures r in runs && file == Encrypted(c, r.salt, r.text)
  {
    r := TailFixesTheRun(c, runs, file);
    forall i: nat | i < Chunks(|r.text|) ensures OpensAs(c, file, r, i) {
      OpensAsTheRun(c, runs, file, r, i);
    }
    ThenItIsTheBytes(c, file, r);
  }

  lemma WhatWasWrittenReads(c: Cipher, salt: Body, text: Body)
    requires IsAead(c) && |salt| == SALT_SIZE
    ensures ReadsToTheEnd(c, Encrypted(c, salt, text))
  {
    SizeRoundTrip(c, salt, text);
    forall i: nat | i < Chunks(|text|) ensures Opened(c, Encrypted(c, salt, text), i).Some? {
      EveryChunkOpens(c, salt, text, i);
    }
    EveryChunkOpens(c, salt, text, Chunks(|text|) - 1);
  }

  // Whole-file authenticity. A file that reads to its end is, byte for byte, what one
  // run of Encrypt wrote; and what a run wrote does read to its end.
  lemma WholeFileIsAuthentic(c: Cipher, runs: set<Sealing>, file: Body)
    requires IsAead(c) && Genuine(c, runs) && |file| <= MAX_INT64
    requires |file| >= HEADER_SIZE && Unforged(c, runs, file)
    ensures ReadsToTheEnd(c, file) <==> exists r :: r in runs && file == Encrypted(c, r.salt, r.text)
  {
    if ReadsToTheEnd(c, file) {
      var r := WhatReadsWasWritten(c, runs, file);
    }
    if r :| r in runs && file == Encrypted(c, r.salt, r.text) {
      WhatWasWrittenReads(c, r.salt, r.text);
    }
  }

  // A file of ours cut short is refused when it is opened, before anything is read from
  // it: wherever the cut, even between two chunks. Shorter than a header, it is not
  // taken for one of ours at all and is served as it is.
  lemma TruncationIsRefused(c: Cipher, runs: set<Sealing>, r: Sealing, length: nat)
    requires IsAead(c) && Genuine(c, runs) && r in runs && length < |Encrypted(c, r.salt, r.text)|
    requires length >= HEADER_SIZE ==> Unforged(c, runs, Encrypted(c, r.salt, r.text)[..length])
    ensures !Accepts(c, Encrypted(c, r.salt, r.text)[..length])
    ensures IsEncrypted(Encrypted(c, r.salt, r.text)[..length]) <==> HEADER_SIZE <= length
  {
    var file := Encrypted(c, r.salt, r.text);
    var cut := file[..length];
    EveryChunkOpens(c, r.salt, r.text, 0);
    if HEADER_SIZE <= length {
      assert cut[..|MARK|] == file[..|MARK|];
      assert cut[..HEADER_SIZE] == Header(r.salt);
      if Accepts(c, cut) {
        var r' := TailFixesTheRun(c, runs, cut);
        SameSalt(r, r');
      }
    }
  }
}
