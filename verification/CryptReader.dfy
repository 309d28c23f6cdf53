/**
 Reading a stored file: the seekable reader that decrypts one chunk at a time and keeps
 it, against the same calls on the plaintext.
 */
module CryptReader {
  import opened Basics
  import opened Crypt
  import opened Authenticity

  datatype Outcome = Data(bytes: Body) | EndOfFile | Damaged

  // What is left, from an offset on, of the chunk it is in.
  function Tail(c: Cipher, file: Body, offset: nat): Option<Body>
    requires |file| >= HEADER_SIZE
  {
    match Opened(c, file, offset / CHUNK_SIZE)
    case None => None
    case Some(text) => Some(if offset % CHUNK_SIZE <= |text| then text[offset % CHUNK_SIZE..] else [])
  }

  // What a read of up to `room` bytes at an offset should give, going by the file
  // alone.
  function Peek(c: Cipher, file: Body, offset: nat, room: nat): Outcome
    requires |file| >= HEADER_SIZE && PlainSize(|file|).Size?
  {
    if offset >= PlainSize(|file|).text then EndOfFile
    else match Tail(c, file, offset)
      case None => Damaged
      case Some(rest) => Data(rest[..Min(room, |rest|)])
  }

  // The same on the plaintext.
  function PeekText(text: Body, offset: nat, room: nat): Outcome {
    if offset >= |text| then EndOfFile
    else Data(text[offset..offset + Min(room, Min(CHUNK_SIZE - offset % CHUNK_SIZE, |text| - offset))])
  }

  // What a read takes out of a buffer.
  function Slice(buf: Body, within: nat, room: nat): Outcome {
    if within > |buf| then Damaged else Data(buf[within..][..Min(room, |buf| - within)])
  }

  // What a reader that keeps a chunk under a name answers: out of the buffer for the
  // chunk so named, by the file for every other.
  function Told(c: Cipher, file: Body, loaded: int, buf: Body, offset: nat, room: nat): Outcome
    requires |file| >= HEADER_SIZE && PlainSize(|file|).Size?
  {
    if offset < PlainSize(|file|).text && offset / CHUNK_SIZE == loaded then Slice(buf, offset % CHUNK_SIZE, room)
    else Peek(c, file, offset, room)
  }

  // The buffer is the chunk that `loaded` names.
  predicate Kept(c: Cipher, file: Body, loaded: int, buf: Body)
    requires |file| >= HEADER_SIZE
  {
    loaded >= 0 ==> Opened(c, file, loaded) == Some(buf)
  }

  function Wrap64(x: int): int {
    (x + 0x8000_0000_0000_0000) % 0x1_0000_0000_0000_0000 - 0x8000_0000_0000_0000
  }

  // Where a seek lands; nothing for an unknown origin or a negative position.
  function SeekTarget(size: nat, offset: nat, delta: int, whence: int): Option<nat> {
    var target := match whence
      case 0 => delta
      case 1 => Wrap64(offset + delta)
      case 2 => Wrap64(size + delta)
      case _ => -1;
    if target < 0 then None else Some(target)
  }

  lemma ChunkTextLength(c: Cipher, file: Body, i: nat)
    requires IsAead(c) && |file| >= HEADER_SIZE && Opened(c, file, i).Some?
    ensures var s := PlainSize(|file|);
      && s.Size? && i < s.chunks
      && |Opened(c, file, i).value| == if i == s.chunks - 1 then s.text - i * CHUNK_SIZE else CHUNK_SIZE
  {
    SizesAddUp(|file|);
    SealedFormOf(c, file, i);
  }

  lemma OffsetIsInAChunk(fileSize: nat, offset: nat)
    ensures var s := PlainSize(fileSize);
      s.Size? && offset < s.text ==>
        && offset / CHUNK_SIZE < s.chunks
        && offset % CHUNK_SIZE < (if offset / CHUNK_SIZE == s.chunks - 1 then s.text - offset / CHUNK_SIZE * CHUNK_SIZE else CHUNK_SIZE)
  {
    SizesAddUp(fileSize);
  }

  // A true buffer answers by the file.
  lemma KeptTellsTheFile(c: Cipher, file: Body, loaded: int, buf: Body, offset: nat, room: nat)
    requires IsAead(c) && |file| >= HEADER_SIZE && PlainSize(|file|).Size? && Kept(c, file, loaded, buf)
    ensures Told(c, file, loaded, buf, offset, room) == Peek(c, file, offset, room)
  {
    if offset < PlainSize(|file|).text && offset / CHUNK_SIZE == loaded {
      ChunkTextLength(c, file, loaded);
      OffsetIsInAChunk(|file|, offset);
    }
  }

  // A buffer that answers by the file from the start of its chunk on is that chunk.
  lemma ToldFromTheStart(c: Cipher, file: Body, loaded: nat, buf: Body, room: nat)
    requires |file| >= HEADER_SIZE && PlainSize(|file|).Size? && loaded * CHUNK_SIZE < PlainSize(|file|).text
    requires room >= |buf| && (Opened(c, file, loaded).Some? ==> room >= |Opened(c, file, loaded).value|)
    requires Told(c, file, loaded, buf, loaded * CHUNK_SIZE, room) == Peek(c, file, loaded * CHUNK_SIZE, room)
    ensures Opened(c, file, loaded) == Some(buf)
  {
    var offset := loaded * CHUNK_SIZE;
    assert offset / CHUNK_SIZE == loaded && offset % CHUNK_SIZE == 0;
    assert buf[0..][..|buf|] == buf;
    if Opened(c, file, loaded).Some? {
      var text := Opened(c, file, loaded).value;
      assert text[0..][..|text|] == text;
    }
  }

  // Every read answers by the file if and only if the buffer is the chunk it is kept
  // under, or no offset lies in that chunk.
  lemma EveryAnswerIsRight(c: Cipher, file: Body, loaded: int, buf: Body)
    requires IsAead(c) && |file| >= HEADER_SIZE && PlainSize(|file|).Size?
    ensures (forall offset: nat, room: nat :: Told(c, file, loaded, buf, offset, room) == Peek(c, file, offset, room))
      <==> Kept(c, file, loaded, buf) || PlainSize(|file|).text <= loaded * CHUNK_SIZE
  {
    if Kept(c, file, loaded, buf) {
      forall offset: nat, room: nat ensures Told(c, file, loaded, buf, offset, room) == Peek(c, file, offset, room) {
        KeptTellsTheFile(c, file, loaded, buf, offset, room);
      }
    } else if loaded * CHUNK_SIZE < PlainSize(|file|).text {
      var chunk := Opened(c, file, loaded);
      var room := Max(|buf|, if chunk.Some? then |chunk.value| else 0);
      if Told(c, file, loaded, buf, loaded * CHUNK_SIZE, room) == Peek(c, file, loaded * CHUNK_SIZE, room) {
        ToldFromTheStart(c, file, loaded, buf, room);
      }
    }
  }

  lemma SliceOfSlice(text: Body, start: nat, length: nat, within: nat, n: nat)
    requires start + length <= |text| && within + n <= length
    ensures text[start..start + length][within..][..n] == text[start + within..start + within + n]
  {}

  lemma SliceOfChunk(text: Body, offset: nat, n: nat)
    requires offset < |text|
    requires n <= |PlainChunk(text, offset / CHUNK_SIZE)| - offset % CHUNK_SIZE
    ensures offset + n <= |text| && PlainChunk(text, offset / CHUNK_SIZE)[offset % CHUNK_SIZE..][..n] == text[offset..offset + n]
  {
    var i, within := offset / CHUNK_SIZE, offset % CHUNK_SIZE;
    var chunk := PlainChunk(text, i);
    assert offset == i * CHUNK_SIZE + within;
    assert i * CHUNK_SIZE + |chunk| <= |text| && chunk == text[i * CHUNK_SIZE..i * CHUNK_SIZE + |chunk|];
    SliceOfSlice(text, i * CHUNK_SIZE, |chunk|, within, n);
  }

  // On a file that Encrypt wrote, the one is the other.
  lemma PeekIsPeekText(c: Cipher, salt: Body, text: Body, offset: nat, room: nat)
    requires IsAead(c) && |salt| == SALT_SIZE
    ensures var file := Encrypted(c, salt, text);
      && |file| >= HEADER_SIZE && PlainSize(|file|).Size?
      && Peek(c, file, offset, room) == PeekText(text, offset, room)
  {
    SizeRoundTrip(c, salt, text);
    EncryptedHeader(c, salt, text);
    if offset < |text| {
      EveryChunkOpens(c, salt, text, offset / CHUNK_SIZE);
      SliceOfChunk(text, offset, Min(room, |PlainChunk(text, offset / CHUNK_SIZE)| - offset % CHUNK_SIZE));
    }
  }

  function Then(front: Body, rest: Option<Body>): Option<Body> {
    match rest case None => None case Some(more) => Some(front + more)
  }

  lemma ThenInTwo(a: Body, b: Body, rest: Option<Body>)
    ensures Then(a, Then(b, rest)) == Then(a + b, rest) && Then([], rest) == rest
  {
    if rest.Some? {
      assert a + (b + rest.value) == a + b + rest.value && [] + rest.value == rest.value;
    }
  }

  // Everything from an offset on, or nothing if a chunk on the way is damaged.
  function Rest(c: Cipher, file: Body, offset: nat): Option<Body>
    requires |file| >= HEADER_SIZE && PlainSize(|file|).Size?
    decreases PlainSize(|file|).text - offset
  {
    if offset >= PlainSize(|file|).text then Some([])
    else match Tail(c, file, offset)
      case None => None
      case Some(rest) => Then(rest, Rest(c, file, (offset / CHUNK_SIZE + 1) * CHUNK_SIZE))
  }

  lemma TailLength(c: Cipher, file: Body, offset: nat)
    requires IsAead(c) && |file| >= HEADER_SIZE && PlainSize(|file|).Size? && offset < PlainSize(|file|).text
    requires Tail(c, file, offset).Some?
    ensures var n, next, size := |Tail(c, file, offset).value|, (offset / CHUNK_SIZE + 1) * CHUNK_SIZE, PlainSize(|file|).text;
      && 0 < n && offset + n <= size && (offset + n == next || (offset + n == size && size <= next))
      && n <= CHUNK_SIZE - offset % CHUNK_SIZE
  {
    ChunkTextLength(c, file, offset / CHUNK_SIZE);
    OffsetIsInAChunk(|file|, offset);
    SizesAddUp(|file|);
  }

  lemma TailOfTail(c: Cipher, file: Body, offset: nat, n: nat)
    requires |file| >= HEADER_SIZE && Tail(c, file, offset).Some? && n < |Tail(c, file, offset).value|
    requires |Tail(c, file, offset).value| <= CHUNK_SIZE - offset % CHUNK_SIZE
    ensures (offset + n) / CHUNK_SIZE == offset / CHUNK_SIZE
    ensures Tail(c, file, offset + n) == Some(Tail(c, file, offset).value[n..])
  {
    assert (offset + n) / CHUNK_SIZE == offset / CHUNK_SIZE && (offset + n) % CHUNK_SIZE == offset % CHUNK_SIZE + n;
  }

  // Taking some of the tail, or all of it, leaves the rest from there on.
  lemma PartOfTheTail(c: Cipher, file: Body, offset: nat, n: nat)
    requires |file| >= HEADER_SIZE && PlainSize(|file|).Size? && offset + n < PlainSize(|file|).text
    requires Tail(c, file, offset).Some? && n < |Tail(c, file, offset).value| <= CHUNK_SIZE - offset % CHUNK_SIZE
    ensures Rest(c, file, offset) == Then(Tail(c, file, offset).value[..n], Rest(c, file, offset + n))
  {
    var tail := Tail(c, file, offset).value;
    TailOfTail(c, file, offset, n);
    ThenInTwo(tail[..n], tail[n..], Rest(c, file, (offset / CHUNK_SIZE + 1) * CHUNK_SIZE));
    assert tail == tail[..n] + tail[n..];
  }

  lemma AllOfTheTail(c: Cipher, file: Body, offset: nat)
    requires |file| >= HEADER_SIZE && PlainSize(|file|).Size? && offset < PlainSize(|file|).text
    requires Tail(c, file, offset).Some?
    requires var n, next, size := |Tail(c, file, offset).value|, (offset / CHUNK_SIZE + 1) * CHUNK_SIZE, PlainSize(|file|).text;
      offset + n == next || (offset + n == size && size <= next)
    ensures Rest(c, file, offset) == Then(Tail(c, file, offset).value, Rest(c, file, offset + |Tail(c, file, offset).value|))
  {}

  lemma FrontOfTheRest(c: Cipher, file: Body, offset: nat, n: nat)
    requires IsAead(c) && |file| >= HEADER_SIZE && PlainSize(|file|).Size? && offset < PlainSize(|file|).text
    requires Tail(c, file, offset).Some? && n <= |Tail(c, file, offset).value|
    ensures offset + n <= PlainSize(|file|).text
    ensures Rest(c, file, offset) == Then(Tail(c, file, offset).value[..n], Rest(c, file, offset + n))
  {
    TailLength(c, file, offset);
    var tail := Tail(c, file, offset).value;
    if n < |tail| {
      PartOfTheTail(c, file, offset, n);
    } else {
      assert tail[..n] == tail;
      AllOfTheTail(c, file, offset);
    }
  }

  // How far a copy has come: what it has, and what is to follow.
  ghost predicate Copied(c: Cipher, file: Body, goal: Option<Body>, sum: Body, offset: nat)
    requires |file| >= HEADER_SIZE && PlainSize(|file|).Size?
  {
    goal == Then(sum, Rest(c, file, offset))
  }

  lemma CopiesData(c: Cipher, file: Body, goal: Option<Body>, sum: Body, offset: nat, n: nat)
    requires IsAead(c) && |file| >= HEADER_SIZE && PlainSize(|file|).Size? && offset < PlainSize(|file|).text
    requires Tail(c, file, offset).Some? && n <= |Tail(c, file, offset).value|
    requires Copied(c, file, goal, sum, offset)
    ensures offset + n <= PlainSize(|file|).text
    ensures Copied(c, file, goal, sum + Tail(c, file, offset).value[..n], offset + n)
  {
    FrontOfTheRest(c, file, offset, n);
    ThenInTwo(sum, Tail(c, file, offset).value[..n], Rest(c, file, offset + n));
  }

  // A read takes its bytes off the front of the rest, and some whenever there is room.
  lemma CopiesSome(c: Cipher, file: Body, goal: Option<Body>, sum: Body, offset: nat, room: nat)
    requires IsAead(c) && |file| >= HEADER_SIZE && PlainSize(|file|).Size? && 0 < room
    requires Copied(c, file, goal, sum, offset)
    requires offset < PlainSize(|file|).text && Tail(c, file, offset).Some?
    ensures var bytes := Peek(c, file, offset, room).bytes;
      && 0 < |bytes| && offset + |bytes| <= PlainSize(|file|).text
      && Copied(c, file, goal, sum + bytes, offset + |bytes|)
  {
    TailLength(c, file, offset);
    CopiesData(c, file, goal, sum, offset, Min(room, |Tail(c, file, offset).value|));
  }

  lemma CopiesOn(c: Cipher, file: Body, goal: Option<Body>, sum: Body, offset: nat, room: nat, out: Outcome)
    requires IsAead(c) && |file| >= HEADER_SIZE && PlainSize(|file|).Size? && 0 < room
    requires Copied(c, file, goal, sum, offset) && out == Peek(c, file, offset, room)
    ensures out.EndOfFile? ==> goal == Some(sum)
    ensures out.Damaged? ==> goal == None
    ensures out.Data? ==>
      && 0 < |out.bytes| && offset + |out.bytes| <= PlainSize(|file|).text
      && Copied(c, file, goal, sum + out.bytes, offset + |out.bytes|)
  {
    if out.EndOfFile? {
      assert sum + [] == sum;
    } else if out.Data? {
      CopiesSome(c, file, goal, sum, offset, room);
    }
  }

  lemma RestOfChunk(text: Body, offset: nat)
    requires offset < |text|
    ensures offset / CHUNK_SIZE < Chunks(|text|) && offset % CHUNK_SIZE <= |PlainChunk(text, offset / CHUNK_SIZE)|
    ensures PlainChunk(text, offset / CHUNK_SIZE)[offset % CHUNK_SIZE..]
      == text[offset..Min((offset / CHUNK_SIZE + 1) * CHUNK_SIZE, |text|)]
  {
    var chunk, within := PlainChunk(text, offset / CHUNK_SIZE), offset % CHUNK_SIZE;
    SliceOfChunk(text, offset, |chunk| - within);
    assert chunk[within..][..|chunk| - within] == chunk[within..];
  }

  lemma TailOfEncrypted(c: Cipher, salt: Body, text: Body, offset: nat)
    requires IsAead(c) && |salt| == SALT_SIZE && offset < |text|
    ensures var file, end := Encrypted(c, salt, text), Min((offset / CHUNK_SIZE + 1) * CHUNK_SIZE, |text|);
      |file| >= HEADER_SIZE && Tail(c, file, offset) == Some(text[offset..end])
  {
    EncryptedHeader(c, salt, text);
    RestOfChunk(text, offset);
    EveryChunkOpens(c, salt, text, offset / CHUNK_SIZE);
  }

  lemma TextInTwo(text: Body, offset: nat, next: nat)
    requires offset < |text| && offset <= next
    ensures text[offset..] == text[offset..Min(next, |text|)] + From(text, next)
  {}

  function From(text: Body, offset: nat): Body {
    if offset < |text| then text[offset..] else []
  }

  lemma {:induction false} RestIsTheText(c: Cipher, salt: Body, text: Body, offset: nat)
    requires IsAead(c) && |salt| == SALT_SIZE
    ensures var file := Encrypted(c, salt, text);
      && |file| >= HEADER_SIZE && PlainSize(|file|) == Size(|text|, Chunks(|text|))
      && Rest(c, file, offset) == Some(From(text, offset))
    decreases |text| - offset
  {
    SizeRoundTrip(c, salt, text);
    EncryptedHeader(c, salt, text);
    if offset < |text| {
      var next := (offset / CHUNK_SIZE + 1) * CHUNK_SIZE;
      TailOfEncrypted(c, salt, text, offset);
      RestIsTheText(c, salt, text, next);
      TextInTwo(text, offset, next);
    }
  }

  // What a reader remembers from call to call.
  datatype Memory = Memory(offset: nat, loaded: int, buf: Body)

  function AfterRead(c: Cipher, file: Body, wreck: (nat, Body) -> Body, mem: Memory, out: Outcome): Memory
    requires |file| >= HEADER_SIZE && PlainSize(|file|).Size?
  {
    var i := mem.offset / CHUNK_SIZE;
    var offset := mem.offset + if out.Data? then |out.bytes| else 0;
    if mem.offset >= PlainSize(|file|).text || i == mem.loaded then mem.(offset := offset)
    else match Opened(c, file, i)
      case None => Memory(offset, mem.loaded, wreck(i, mem.buf))
      case Some(text) => Memory(offset, i, text)
  }

  class Reader {
    const c: Cipher
    const file: Body
    const size: nat
    const chunks: nat
    // What a failed open leaves of the buffer it was given to decrypt into.
    const wreck: (nat, Body) -> Body

    var offset: nat
    var loaded: int
    var buf: Body

    ghost predicate Valid()
      reads this
    {
      && IsAead(c) && IsEncrypted(file) && PlainSize(|file|) == Size(size, chunks)
      && -1 <= loaded < chunks
    }

    ghost function Remembers(): Memory
      reads this
    {
      Memory(offset, loaded, buf)
    }

    // The cached chunk is the one `loaded` names.
    ghost predicate Intact()
      reads this
      requires Valid()
    {
      Kept(c, file, loaded, buf)
    }

    constructor (c: Cipher, file: Body, wreck: (nat, Body) -> Body)
      requires IsAead(c) && IsEncrypted(file) && PlainSize(|file|).Size?
      ensures Valid() && Intact() && offset == 0 && loaded == -1
      ensures this.c == c && this.file == file && this.wreck == wreck
    {
      this.c, this.file, this.wreck := c, file, wreck;
      size, chunks := PlainSize(|file|).text, PlainSize(|file|).chunks;
      offset, loaded, buf := 0, -1, [];
    }

    method Load(index: nat) returns (ok: bool)
      requires Valid()
      modifies this`loaded, this`buf
      ensures Valid() && ok == Opened(c, file, index).Some?
      ensures ok ==> loaded == index && buf == Opened(c, file, index).value
      ensures !ok ==> loaded == old(loaded) && buf == if index < chunks then wreck(index, old(buf)) else old(buf)
    {
      if index >= chunks {
        return false;
      }
      SizesAddUp(|file|);
      var at := HEADER_SIZE + index * SEALED_SIZE;
      var want := SEALED_SIZE;
      if index == chunks - 1 {
        want := |file| - at;
        assert TAG_SIZE <= want <= SEALED_SIZE;
      }
      match c.open(c.derive(SaltOf(file)), Nonce(index), file[at..at + want], Additional(file[..HEADER_SIZE], index, index == chunks - 1)) {
        case None =>
          buf := wreck(index, buf);
          return false;
        case Some(text) =>
          buf := text;
          loaded := index;
          return true;
      }
    }

    method TakeFromBuffer(room: nat) returns (out: Outcome)
      requires Valid() && offset < size && offset / CHUNK_SIZE == loaded
      modifies this`offset
      ensures Valid() && out == Slice(buf, old(offset) % CHUNK_SIZE, room)
      ensures offset == old(offset) + if out.Data? then |out.bytes| else 0
    {
      var within := offset - loaded * CHUNK_SIZE;
      if within > |buf| {
        return Damaged;
      }
      var rest := buf[within..];
      out := Data(rest[..Min(room, |rest|)]);
      offset := offset + |out.bytes|;
    }

    // It answers by the file unless the chunk is the one cached and the cache is not
    // that chunk; a load that fails is what parts the two, and the next that succeeds
    // mends it.
    method Read(room: nat) returns (out: Outcome)
      requires Valid()
      modifies this
      ensures Valid()
      ensures out == Told(c, file, old(loaded), old(buf), old(offset), room)
      ensures old(Intact()) ==> out == Peek(c, file, old(offset), room)
      ensures old(Intact()) && !out.Damaged? ==> Intact()
      ensures Remembers() == AfterRead(c, file, wreck, old(Remembers()), out)
      ensures offset == old(offset) + if out.Data? then |out.bytes| else 0
    {
      if Intact() {
        KeptTellsTheFile(c, file, loaded, buf, offset, room);
      }
      if offset >= size {
        return EndOfFile;
      }
      var index := offset / CHUNK_SIZE;
      OffsetIsInAChunk(|file|, offset);
      if index != loaded {
        var ok := Load(index);
        if !ok {
          return Damaged;
        }
        KeptTellsTheFile(c, file, loaded, buf, offset, room);
      }
      out := TakeFromBuffer(room);
    }

    method Seek(delta: int, whence: int) returns (target: Option<nat>)
      requires Valid()
      modifies this`offset
      ensures Valid() && target == SeekTarget(size, old(offset), delta, whence)
      ensures offset == if target == None then old(offset) else target.value
    {
      var t: int;
      if whence == 0 {
        t := delta;
      } else if whence == 1 {
        t := Wrap64(offset + delta);
      } else if whence == 2 {
        t := Wrap64(size + delta);
      } else {
        return None;
      }
      if t < 0 {
        return None;
      }
      offset := t;
      return Some(t);
    }

    // A read while the cache is sound.
    method ReadSoundly(room: nat) returns (out: Outcome)
      requires Valid() && Intact()
      modifies this
      ensures Valid() && out == Peek(c, file, old(offset), room) && (!out.Damaged? ==> Intact())
      ensures offset == old(offset) + if out.Data? then |out.bytes| else 0
    {
      out := Read(room);
    }

    method CopySome(room: nat, ghost sum: Body, ghost goal: Option<Body>) returns (out: Outcome)
      requires Valid() && Intact() && 0 < room && Copied(c, file, goal, sum, offset)
      modifies this
      ensures Valid()
      ensures out.EndOfFile? ==> goal == Some(sum)
      ensures out.Damaged? ==> goal == None
      ensures out.Data? ==> Intact() && old(offset) < offset <= size && Copied(c, file, goal, sum + out.bytes, offset)
    {
      ghost var before := offset;
      out := ReadSoundly(room);
      CopiesOn(c, file, goal, sum, before, room, out);
    }

    // A copy to the end, with a buffer of any size: it stops, with everything or at the
    // first damaged chunk.
    method ReadAll(room: nat) returns (all: Option<Body>)
      requires Valid() && Intact() && 0 < room
      modifies this
      ensures Valid() && all == Rest(c, file, old(offset))
    {
      var sum: Body := [];
      ghost var goal := Rest(c, file, offset);
      ThenInTwo([], [], goal);
      while true
        invariant Valid() && Intact() && Copied(c, file, goal, sum, offset)
        decreases size - offset
      {
        var out := CopySome(room, sum, goal);
        match out {
          case EndOfFile => return Some(sum);
          case Damaged => return None;
          case Data(bytes) => sum := sum + bytes;
        }
      }
    }
  }

  // ── Opening ────────────────────────────────────────────────────────────────

  datatype Opening = AsItIs(body: Body) | Decrypting(reader: Reader) | KeyMissing | Refused

  method Open(file: Body, key: Option<Cipher>, wreck: (nat, Body) -> Body) returns (opening: Opening)
    requires key.Some? ==> IsAead(key.value)
    ensures !IsEncrypted(file) ==> opening == AsItIs(file)
    ensures IsEncrypted(file) && key == None ==> opening == KeyMissing
    ensures IsEncrypted(file) && key.Some? ==> if Accepts(key.value, file) then opening.Decrypting? else opening == Refused
    ensures opening.Decrypting? ==>
      var r := opening.reader;
      && fresh(r) && r.Valid() && r.Intact() && r.offset == 0 && r.loaded == r.chunks - 1
      && key == Some(r.c) && r.file == file && r.wreck == wreck
  {
    if !IsEncrypted(file) {
      return AsItIs(file);
    }
    if key == None {
      return KeyMissing;
    }
    if PlainSize(|file|).NoSize? {
      return Refused;
    }
    SizesAddUp(|file|);
    var r := new Reader(key.value, file, wreck);
    var ok := r.Load(r.chunks - 1);
    return if ok then Decrypting(r) else Refused;
  }

  // ── A file that is misread ─────────────────────────────────────────────────

  // A failed load reaches the cache: with chunk i cached and chunk j damaged, a read of
  // j leaves the reader answering for chunk i from what the failure left behind.
  method AFailedLoadReachesTheCache(r: Reader, i: nat, j: nat, room: nat) returns (out: Outcome)
    requires r.Valid() && r.Intact() && r.loaded == i && i * CHUNK_SIZE < r.size
    requires r.offset == j * CHUNK_SIZE < r.size && Opened(r.c, r.file, j) == None
    modifies r
    ensures out == Slice(r.wreck(j, old(r.buf)), 0, room)
    ensures Peek(r.c, r.file, i * CHUNK_SIZE, room) == Slice(old(r.buf), 0, room)
  {
    KeptTellsTheFile(r.c, r.file, i, r.buf, i * CHUNK_SIZE, room);
    assert (i * CHUNK_SIZE) / CHUNK_SIZE == i && (i * CHUNK_SIZE) % CHUNK_SIZE == 0;
    assert (j * CHUNK_SIZE) / CHUNK_SIZE == j;
    out := r.Read(room);
    assert out == Damaged;
    var target := r.Seek(i * CHUNK_SIZE, 0);
    out := r.Read(room);
  }

  // A cipher that hides nothing, but seals and opens as one should: its tag is zeros.
  function SealOpenly(key: Body, n: Body, text: Body, aad: Body): Body {
    text + Zeros(TAG_SIZE)
  }

  function OpenOpenly(key: Body, n: Body, sealed: Body, aad: Body): Option<Body> {
    if |sealed| >= TAG_SIZE && sealed[|sealed| - TAG_SIZE..] == Zeros(TAG_SIZE) then Some(sealed[..|sealed| - TAG_SIZE])
    else None
  }

  const OPENLY := Cipher(salt => salt, SealOpenly, OpenOpenly)

  lemma OpenlyIsAead()
    ensures IsAead(OPENLY)
  {
    forall key, n, text, aad ensures Seals(OPENLY, key, n, text, aad) {
      assert (text + Zeros(TAG_SIZE))[|text|..] == Zeros(TAG_SIZE);
      assert (text + Zeros(TAG_SIZE))[..|text|] == text;
    }
    forall key, n, sealed, aad ensures OpensOnlySealed(OPENLY, key, n, sealed, aad) {
      if OpenOpenly(key, n, sealed, aad).Some? {
        assert sealed == sealed[..|sealed| - TAG_SIZE] + sealed[|sealed| - TAG_SIZE..];
      }
    }
  }

  // Two chunks: a full one whose tag is damaged, and a last one of the single byte 7.
  const DAMAGED_CHUNK: Body := seq(SEALED_SIZE, _ => 1)
  const LAST_CHUNK: Body := [7] + Zeros(TAG_SIZE)
  const DAMAGED_FILE: Body := Header(Zeros(SALT_SIZE)) + DAMAGED_CHUNK + LAST_CHUNK

  // What the standard library does to the room it was given when a chunk does not open.
  function Wiped(index: nat, buf: Body): Body {
    Zeros(|buf|)
  }

  lemma DamagedFileOpens()
    ensures IsEncrypted(DAMAGED_FILE) && PlainSize(|DAMAGED_FILE|) == Size(CHUNK_SIZE + 1, 2)
    ensures Opened(OPENLY, DAMAGED_FILE, 0) == None
    ensures Opened(OPENLY, DAMAGED_FILE, 1) == Some([7])
    ensures Accepts(OPENLY, DAMAGED_FILE)
  {
    var file, at := DAMAGED_FILE, HEADER_SIZE + SEALED_SIZE;
    assert file[..|MARK|] == MARK;
    assert file[HEADER_SIZE..at] == DAMAGED_CHUNK;
    assert file[at..at + TAG_SIZE + 1] == file[at..] == LAST_CHUNK;
    assert DAMAGED_CHUNK[SEALED_SIZE - TAG_SIZE..][0] != Zeros(TAG_SIZE)[0];
    assert LAST_CHUNK[1..] == Zeros(TAG_SIZE) && LAST_CHUNK[..1] == [7];
  }

  // What the reader that Open hands over tells, and what it should.
  lemma TheLastByte(buf: Body)
    requires |buf| == 1
    ensures PlainSize(|DAMAGED_FILE|).Size?
    ensures Peek(OPENLY, DAMAGED_FILE, 0, 1) == Damaged
    ensures Peek(OPENLY, DAMAGED_FILE, CHUNK_SIZE, 1) == Data([7])
    ensures Told(OPENLY, DAMAGED_FILE, 1, buf, 0, 1) == Damaged
    ensures Told(OPENLY, DAMAGED_FILE, 1, buf, CHUNK_SIZE, 1) == Data(buf)
  {
    DamagedFileOpens();
    assert buf[0..][..1] == buf && [7][0..][..1] == [7];
  }

  // The file is handed over, since its last chunk authenticates; the first is refused;
  // and then the last, which is sound, reads as a zero.
  method ASoundChunkIsMisread() returns (first: Outcome, second: Outcome)
    ensures first == Damaged && second == Data([0])
    ensures IsAead(OPENLY) && Accepts(OPENLY, DAMAGED_FILE) && PlainSize(|DAMAGED_FILE|).Size?
    ensures Peek(OPENLY, DAMAGED_FILE, CHUNK_SIZE, 1) == Data([7])
  {
    OpenlyIsAead();
    DamagedFileOpens();
    TheLastByte([7]);
    TheLastByte([0]);
    var opening := Open(DAMAGED_FILE, Some(OPENLY), Wiped);
    var r := opening.reader;
    first := r.Read(1);
    assert r.buf == [0];
    var target := r.Seek(CHUNK_SIZE, 0);
    second := r.Read(1);
  }

  // The hash of a file's plaintext, in whichever form it is stored.
  method HashFile(file: Body, key: Option<Cipher>, room: nat, wreck: (nat, Body) -> Body) returns (sum: Option<Digest>)
    requires (key.Some? ==> IsAead(key.value)) && 0 < room
    ensures !IsEncrypted(file) ==> sum == Some(Sha256(file))
    ensures IsEncrypted(file) && key == None ==> sum == None
    ensures IsEncrypted(file) && key.Some? ==>
      sum == if !Accepts(key.value, file) then None
             else match Rest(key.value, file, 0) case None => None case Some(text) => Some(Sha256(text))
  {
    var opening := Open(file, key, wreck);
    match opening
    case AsItIs(body) => return Some(Sha256(body));
    case Decrypting(r) =>
      var all := r.ReadAll(room);
      return match all case None => None case Some(text) => Some(Sha256(text));
    case _ => return None;
  }

  // Written, opened and read to the end, a text comes back: also through HashFile.
  method RoundTrip(c: Cipher, salt: Body, text: Body, room: nat, wreck: (nat, Body) -> Body)
    returns (read: Option<Body>, sum: Option<Digest>)
    requires IsAead(c) && |salt| == SALT_SIZE && 0 < room
    ensures read == Some(text) && sum == Some(Sha256(text))
  {
    var file, written, used := Encrypt(c, salt, text);
    WhatWasWrittenReads(c, salt, text);
    RestIsTheText(c, salt, text, 0);
    assert text[0..] == text;
    var opening := Open(file, Some(c), wreck);
    read := opening.reader.ReadAll(room);
    sum := HashFile(file, Some(c), room, wreck);
  }

  // ── Any sequence of calls ──────────────────────────────────────────────────

  datatype Call = SeekTo(delta: int, whence: int) | ReadInto(room: nat)

  datatype Answer = Moved(target: Option<nat>) | Got(out: Outcome)

  function Next(text: Body, offset: nat, call: Call): (Answer, nat) {
    match call
    case SeekTo(delta, whence) =>
      var target := SeekTarget(|text|, offset, delta, whence);
      (Moved(target), if target == None then offset else target.value)
    case ReadInto(room) =>
      var out := PeekText(text, offset, room);
      (Got(out), offset + if out.Data? then |out.bytes| else 0)
  }

  // The calls on a plain sequence of bytes.
  function OnText(text: Body, offset: nat, calls: seq<Call>): seq<Answer>
    decreases |calls|
  {
    if calls == [] then []
    else [Next(text, offset, calls[0]).0] + OnText(text, Next(text, offset, calls[0]).1, calls[1..])
  }

  lemma OnTextFrom(text: Body, offset: nat, calls: seq<Call>, i: nat, answers: seq<Answer>)
    requires i < |calls|
    ensures var (answer, next) := Next(text, offset, calls[i]);
      answers + OnText(text, offset, calls[i..]) == answers + [answer] + OnText(text, next, calls[i + 1..])
  {
    assert calls[i..][0] == calls[i] && calls[i..][1..] == calls[i + 1..];
  }

  ghost predicate ReadsText(r: Reader, salt: Body, text: Body)
    reads r
  {
    r.Valid() && r.Intact() && |salt| == SALT_SIZE && r.file == Encrypted(r.c, salt, text)
  }

  method SeekText(r: Reader, ghost salt: Body, ghost text: Body, delta: int, whence: int) returns (target: Option<nat>)
    requires ReadsText(r, salt, text)
    modifies r
    ensures ReadsText(r, salt, text) && target == SeekTarget(|text|, old(r.offset), delta, whence)
    ensures r.offset == if target == None then old(r.offset) else target.value
  {
    SizeRoundTrip(r.c, salt, text);
    target := r.Seek(delta, whence);
  }

  method ReadText(r: Reader, ghost salt: Body, ghost text: Body, room: nat) returns (out: Outcome)
    requires ReadsText(r, salt, text)
    modifies r
    ensures ReadsText(r, salt, text) && out == PeekText(text, old(r.offset), room)
    ensures r.offset == old(r.offset) + if out.Data? then |out.bytes| else 0
  {
    PeekIsPeekText(r.c, salt, text, r.offset, room);
    out := r.ReadSoundly(room);
  }

  method CopyText(r: Reader, ghost salt: Body, ghost text: Body, room: nat) returns (all: Option<Body>)
    requires ReadsText(r, salt, text) && r.offset <= |text| && 0 < room
    modifies r
    ensures all == Some(text[old(r.offset)..])
  {
    RestIsTheText(r.c, salt, text, r.offset);
    assert text[|text|..] == [];
    all := r.ReadAll(room);
  }

  method Answer1(r: Reader, ghost salt: Body, ghost text: Body, call: Call) returns (answer: Answer)
    requires ReadsText(r, salt, text)
    modifies r
    ensures ReadsText(r, salt, text)
    ensures (answer, r.offset) == Next(text, old(r.offset), call)
  {
    match call
    case SeekTo(delta, whence) =>
      var target := SeekText(r, salt, text, delta, whence);
      return Moved(target);
    case ReadInto(room) =>
      var out := ReadText(r, salt, text, room);
      return Got(out);
  }

  // Whatever is asked, in whatever order and with whatever buffers, the reader of a
  // file that Encrypt wrote answers as the plaintext would.
  method Answers(r: Reader, ghost salt: Body, ghost text: Body, calls: seq<Call>) returns (answers: seq<Answer>)
    requires ReadsText(r, salt, text)
    modifies r
    ensures ReadsText(r, salt, text)
    ensures answers == OnText(text, old(r.offset), calls)
  {
    answers := [];
    var i := 0;
    assert calls[0..] == calls;
    while i < |calls|
      invariant ReadsText(r, salt, text) && i <= |calls|
      invariant answers + OnText(text, r.offset, calls[i..]) == OnText(text, old(r.offset), calls)
    {
      OnTextFrom(text, r.offset, calls, i, answers);
      var answer := Answer1(r, salt, text, calls[i]);
      answers := answers + [answer];
      i := i + 1;
    }
  }

  // ── Where a seek lands ─────────────────────────────────────────────────────

  predicate IsInt64(x: int) {
    -0x8000_0000_0000_0000 <= x <= MAX_INT64
  }

  // From the start, from where the reader is, or from the end, wherever that is a
  // position at all; with 64 bits anything past the last one comes out negative.
  lemma SeekLands(size: nat, offset: nat, delta: int, whence: int)
    requires IsInt64(size) && IsInt64(offset) && IsInt64(delta)
    ensures var target := SeekTarget(size, offset, delta, whence);
      && (whence == 0 ==> target == if delta < 0 then None else Some(delta))
      && (whence == 1 ==> target == if 0 <= offset + delta <= MAX_INT64 then Some(offset + delta) else None)
      && (whence == 2 ==> target == if 0 <= size + delta <= MAX_INT64 then Some(size + delta) else None)
      && (whence !in {0, 1, 2} ==> target == None)
  {}

  lemma FromTheEnd(size: nat, offset: nat, n: nat)
    requires IsInt64(size) && n <= size
    ensures SeekTarget(size, offset, 0 - n, 2) == Some(size - n)
  {}

  // The end is where the text ends: its length, after which nothing is read.
  method Length(r: Reader, ghost salt: Body, ghost text: Body, room: nat) returns (length: Option<nat>, after: Outcome)
    requires ReadsText(r, salt, text) && IsInt64(|text|)
    modifies r
    ensures ReadsText(r, salt, text)
    ensures length == Some(|text|) && after == EndOfFile
  {
    FromTheEnd(|text|, r.offset, 0);
    length := SeekText(r, salt, text, 0, 2);
    after := ReadText(r, salt, text, room);
  }

  // From a position to the end, and the last so many bytes.
  method TakeFrom(r: Reader, ghost salt: Body, ghost text: Body, k: nat, room: nat) returns (all: Option<Body>)
    requires ReadsText(r, salt, text) && k <= |text| && 0 < room
    modifies r
    ensures all == Some(text[k..])
  {
    var at := SeekText(r, salt, text, k, 0);
    all := CopyText(r, salt, text, room);
  }

  method TakeLast(r: Reader, ghost salt: Body, ghost text: Body, n: nat, room: nat) returns (all: Option<Body>)
    requires ReadsText(r, salt, text) && IsInt64(|text|) && n <= |text| && 0 < room
    modifies r
    ensures all == Some(text[|text| - n..])
  {
    FromTheEnd(|text|, r.offset, n);
    var at := SeekText(r, salt, text, 0 - n, 2);
    all := CopyText(r, salt, text, room);
  }

  // One read goes on where the last one ended.
  method ReadOn(r: Reader, ghost salt: Body, ghost text: Body, room: nat, ghost start: nat, sum: Body) returns (more: Body)
    requires ReadsText(r, salt, text) && start <= r.offset <= |text| && sum == text[start..r.offset]
    modifies r
    ensures ReadsText(r, salt, text) && start <= r.offset <= |text| && more == text[start..r.offset]
    ensures old(r.offset) <= r.offset <= old(r.offset) + room
    ensures old(r.offset) < |text| && 0 < room ==> old(r.offset) < r.offset
  {
    var out := ReadText(r, salt, text, room);
    match out
    case EndOfFile => more := sum;
    case Data(bytes) => more := sum + bytes;
  }

  // Reads with any buffers from a position on give the text from there, and the reader
  // then says that it is as far on as it has given out bytes.
  method ReadAndTell(r: Reader, ghost salt: Body, ghost text: Body, k: nat, rooms: seq<nat>) returns (sum: Body, at: Option<nat>)
    requires ReadsText(r, salt, text) && IsInt64(|text|) && k <= |text|
    modifies r
    ensures ReadsText(r, salt, text)
    ensures k + |sum| <= |text| && sum == text[k..k + |sum|] && at == Some(k + |sum|)
  {
    var start := SeekText(r, salt, text, k, 0);
    sum := [];
    for i := 0 to |rooms|
      invariant ReadsText(r, salt, text) && k <= r.offset <= |text| && sum == text[k..r.offset]
    {
      sum := ReadOn(r, salt, text, rooms[i], k, sum);
    }
    at := SeekText(r, salt, text, 0, 1);
  }

  // What serving a range asks of a file: how long it is, and so many bytes from a
  // position, in pieces.
  method ServeRange(r: Reader, ghost salt: Body, ghost text: Body, start: nat, length: nat, room: nat)
    returns (size: Option<nat>, sum: Body)
    requires ReadsText(r, salt, text) && IsInt64(|text|) && start + length <= |text| && 0 < room
    modifies r
    ensures size == Some(|text|) && sum == text[start..start + length]
  {
    FromTheEnd(|text|, r.offset, 0);
    size := SeekText(r, salt, text, 0, 2);
    var at := SeekText(r, salt, text, start, 0);
    sum := [];
    while |sum| < length
      invariant ReadsText(r, salt, text) && start <= r.offset <= start + length && sum == text[start..r.offset]
    {
      sum := ReadOn(r, salt, text, Min(room, length - |sum|), start, sum);
    }
  }

  // ── The same on a file that may be damaged ─────────────────────────────────

  function NextTold(c: Cipher, file: Body, wreck: (nat, Body) -> Body, mem: Memory, call: Call): (Answer, Memory)
    requires |file| >= HEADER_SIZE && PlainSize(|file|).Size?
  {
    match call
    case SeekTo(delta, whence) =>
      var target := SeekTarget(PlainSize(|file|).text, mem.offset, delta, whence);
      (Moved(target), if target == None then mem else mem.(offset := target.value))
    case ReadInto(room) =>
      var out := Told(c, file, mem.loaded, mem.buf, mem.offset, room);
      (Got(out), AfterRead(c, file, wreck, mem, out))
  }

  // The calls on a reader.
  function OnReader(c: Cipher, file: Body, wreck: (nat, Body) -> Body, mem: Memory, calls: seq<Call>): seq<Answer>
    requires |file| >= HEADER_SIZE && PlainSize(|file|).Size?
    decreases |calls|
  {
    if calls == [] then []
    else [NextTold(c, file, wreck, mem, calls[0]).0] + OnReader(c, file, wreck, NextTold(c, file, wreck, mem, calls[0]).1, calls[1..])
  }

  function NextOnFile(c: Cipher, file: Body, offset: nat, call: Call): (Answer, nat)
    requires |file| >= HEADER_SIZE && PlainSize(|file|).Size?
  {
    match call
    case SeekTo(delta, whence) =>
      var target := SeekTarget(PlainSize(|file|).text, offset, delta, whence);
      (Moved(target), if target == None then offset else target.value)
    case ReadInto(room) =>
      var out := Peek(c, file, offset, room);
      (Got(out), offset + if out.Data? then |out.bytes| else 0)
  }

  // The calls on the file itself, with nothing kept between them.
  function OnFile(c: Cipher, file: Body, offset: nat, calls: seq<Call>): seq<Answer>
    requires |file| >= HEADER_SIZE && PlainSize(|file|).Size?
    decreases |calls|
  {
    if calls == [] then []
    else [NextOnFile(c, file, offset, calls[0]).0] + OnFile(c, file, NextOnFile(c, file, offset, calls[0]).1, calls[1..])
  }

  // The answers up to the first refusal, and that one.
  function UntilDamaged(answers: seq<Answer>): seq<Answer>
    decreases |answers|
  {
    if answers == [] then []
    else [answers[0]] + if answers[0] == Got(Damaged) then [] else UntilDamaged(answers[1..])
  }

  lemma OneAnswerMore(answer: Answer, rest: seq<Answer>)
    ensures UntilDamaged([answer] + rest) == [answer] + if answer == Got(Damaged) then [] else UntilDamaged(rest)
  {
    assert ([answer] + rest)[1..] == rest;
  }

  lemma NextIsRight(c: Cipher, file: Body, wreck: (nat, Body) -> Body, mem: Memory, call: Call)
    requires IsAead(c) && |file| >= HEADER_SIZE && PlainSize(|file|).Size? && Kept(c, file, mem.loaded, mem.buf)
    ensures var (answer, next) := NextTold(c, file, wreck, mem, call);
      && (answer, next.offset) == NextOnFile(c, file, mem.offset, call)
      && (answer != Got(Damaged) ==> Kept(c, file, next.loaded, next.buf))
  {
    if call.ReadInto? {
      KeptTellsTheFile(c, file, mem.loaded, mem.buf, mem.offset, call.room);
    }
  }

  // Whatever is damaged in the file and whatever is asked: up to the first chunk that is
  // refused, the reader answers as the file does.
  lemma {:induction false} RightUntilDamaged(c: Cipher, file: Body, wreck: (nat, Body) -> Body, mem: Memory, calls: seq<Call>)
    requires IsAead(c) && |file| >= HEADER_SIZE && PlainSize(|file|).Size? && Kept(c, file, mem.loaded, mem.buf)
    ensures UntilDamaged(OnReader(c, file, wreck, mem, calls)) == UntilDamaged(OnFile(c, file, mem.offset, calls))
    decreases |calls|
  {
    if calls != [] {
      var (answer, next) := NextTold(c, file, wreck, mem, calls[0]);
      NextIsRight(c, file, wreck, mem, calls[0]);
      OneAnswerMore(answer, OnReader(c, file, wreck, next, calls[1..]));
      OneAnswerMore(answer, OnFile(c, file, next.offset, calls[1..]));
      if answer != Got(Damaged) {
        RightUntilDamaged(c, file, wreck, next, calls[1..]);
      }
    }
  }

  lemma OnReaderFrom(c: Cipher, file: Body, wreck: (nat, Body) -> Body, mem: Memory, calls: seq<Call>, i: nat, answers: seq<Answer>)
    requires |file| >= HEADER_SIZE && PlainSize(|file|).Size? && i < |calls|
    ensures var (answer, next) := NextTold(c, file, wreck, mem, calls[i]);
      answers + OnReader(c, file, wreck, mem, calls[i..]) == answers + [answer] + OnReader(c, file, wreck, next, calls[i + 1..])
  {
    assert calls[i..][0] == calls[i] && calls[i..][1..] == calls[i + 1..];
  }

  method Ask(r: Reader, call: Call) returns (answer: Answer)
    requires r.Valid()
    modifies r
    ensures r.Valid() && (answer, r.Remembers()) == NextTold(r.c, r.file, r.wreck, old(r.Remembers()), call)
  {
    match call
    case SeekTo(delta, whence) =>
      var target := r.Seek(delta, whence);
      return Moved(target);
    case ReadInto(room) =>
      var out := r.Read(room);
      return Got(out);
  }

  // Any calls, on the reader of any file that was handed over.
  method AskAll(r: Reader, calls: seq<Call>) returns (answers: seq<Answer>)
    requires r.Valid()
    modifies r
    ensures r.Valid() && answers == OnReader(r.c, r.file, r.wreck, old(r.Remembers()), calls)
    ensures old(r.Intact()) ==> UntilDamaged(answers) == UntilDamaged(OnFile(r.c, r.file, old(r.offset), calls))
  {
    if r.Intact() {
      RightUntilDamaged(r.c, r.file, r.wreck, r.Remembers(), calls);
    }
    ghost var all := OnReader(r.c, r.file, r.wreck, r.Remembers(), calls);
    answers := [];
    assert calls[0..] == calls;
    for i := 0 to |calls|
      invariant r.Valid()
      invariant answers + OnReader(r.c, r.file, r.wreck, r.Remembers(), calls[i..]) == all
    {
      OnReaderFrom(r.c, r.file, r.wreck, r.Remembers(), calls, i, answers);
      var answer := Ask(r, calls[i]);
      answers := answers + [answer];
    }
    assert answers + [] == answers;
  }
}
