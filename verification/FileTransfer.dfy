/** Lecture6/readnbytes: the client copies a file into a socket in chunks of at most 1024 bytes,
    each with one unchecked-for-length write; the server reads blocks of 1024 bytes with
    readnbytes and stores them. */
module FileTransfer {
  import opened Kernel

  const CHUNK := 1024

  // ---------------------------------------------------------------- server.c

  /** readnbytes: like rio_readn, with an int count; nothing is read for n <= 0. */
  method ReadNBytes(fd: ReadEnd, buffer: array<byte>, n: int) returns (r: int)
    requires fd.Valid() && n <= buffer.Length
    modifies fd, buffer
    ensures fd.Valid() && EndedBy(fd.script, old(fd.turn), fd.turn, r == -1)
    ensures Filled(old(buffer[..]), buffer[..], fd.stream, old(fd.pos), fd.pos)
    ensures r != -1 ==> r == fd.pos - old(fd.pos) == if n < 0 then 0 else Min(n, |fd.stream| - old(fd.pos))
    ensures r == -1 ==> fd.pos - old(fd.pos) < n
  {
    var nleft := n;
    var ptr := 0;
    while nleft > 0
      invariant 0 <= ptr && n == ptr + nleft && (n > 0 ==> nleft >= 0) && (n <= 0 ==> ptr == 0)
      invariant fd.Valid() && fd.pos == old(fd.pos) + ptr
      invariant EndedBy(fd.script, old(fd.turn), fd.turn, false)
      invariant Filled(old(buffer[..]), buffer[..], fd.stream, old(fd.pos), fd.pos)
      decreases |fd.script| - fd.turn + nleft
    {
      var nread := fd.Read(buffer, ptr, nleft);
      if nread < 0 {
        if fd.errno == EINTR {
          nread := 0;
        } else {
          return -1;
        }
      } else if nread == 0 {
        break;
      }
      nleft := nleft - nread;
      ptr := ptr + nread;
    }
    return n - nleft;
  }

  /** One readnbytes of the receive loop. A block shorter than asked for is the last one. */
  method ReceiveBlock(socket: ReadEnd, buffer: array<byte>) returns (last: int)
    requires socket.Valid() && buffer.Length == CHUNK
    modifies socket, buffer
    ensures socket.Valid() && EndedBy(socket.script, old(socket.turn), socket.turn, last == -1)
    ensures -1 <= last <= CHUNK && old(socket.pos) <= socket.pos
    ensures last >= 0 ==>
              && socket.pos == old(socket.pos) + last
              && buffer[..last] == socket.stream[old(socket.pos)..socket.pos]
    ensures last == -1 ==> socket.pos - old(socket.pos) < CHUNK
    ensures 0 <= last < CHUNK ==> socket.pos == |socket.stream|
  {
    last := ReadNBytes(socket, buffer, CHUNK);
  }

  lemma BlockJoins(stream: seq<byte>, from: nat, at: nat, to: nat, received: seq<byte>, block: seq<byte>)
    requires from <= at <= to <= |stream|
    requires received == stream[from..at] && block == stream[at..to]
    ensures received + block == stream[from..to]
    ensures |received| % CHUNK == 0 && |block| == CHUNK ==> |received + block| % CHUNK == 0
  {}

  /** The receive loop: `received` is the file it writes, `last` the value that ended the loop.
      Without a hard error the file is everything the peer sent; after one it is the whole
      blocks before it, and the block that was being read is dropped. */
  method Receive(socket: ReadEnd) returns (received: seq<byte>, count: int, last: int)
    requires socket.Valid()
    modifies socket
    ensures socket.Valid() && EndedBy(socket.script, old(socket.turn), socket.turn, last == -1)
    ensures last in {0, -1} && count == |received|
    ensures old(socket.pos) + |received| <= |socket.stream|
    ensures received == socket.stream[old(socket.pos)..old(socket.pos) + |received|]
    ensures last == 0 ==> old(socket.pos) + |received| == |socket.stream|
    ensures last == -1 ==> 0 <= socket.pos - old(socket.pos) - |received| < CHUNK
                           && (|received| % CHUNK == 0 || socket.pos == |socket.stream|)
  {
    ghost var stream, from, turn := socket.stream, socket.pos, socket.turn;
    ghost var at := from;
    var buffer := new byte[CHUNK];
    received, count := [], 0;
    last := ReceiveBlock(socket, buffer);
    while last > 0
      invariant -1 <= last <= CHUNK && count == |received|
      invariant socket.Valid() && from <= at == from + |received| <= socket.pos
      invariant received == stream[from..at]
      invariant EndedBy(socket.script, turn, socket.turn, last == -1)
      invariant last >= 0 ==> socket.pos == at + last && buffer[..last] == stream[at..socket.pos]
      invariant last == -1 ==> socket.pos - at < CHUNK
      invariant |received| % CHUNK == 0 || socket.pos == |stream|
      invariant 0 <= last < CHUNK ==> socket.pos == |stream|
      decreases |stream| - at
    {
      BlockJoins(stream, from, at, socket.pos, received, buffer[..last]);
      received := received + buffer[..last];
      count := count + last;
      at := socket.pos;
      last := ReceiveBlock(socket, buffer);
    }
  }

  // ---------------------------------------------------------------- client.c

  /** Size of the i-th chunk fread delivers of a file of `length` bytes. */
  function ChunkSize(length: nat, i: nat): nat {
    if length <= CHUNK * i then 0 else Min(CHUNK, length - CHUNK * i)
  }

  /** The write of `size` bytes that meets turn k of the script accepts all of them. */
  predicate TakesAll(script: seq<WriteOutcome>, k: nat, size: nat) {
    k < |script| ==> script[k].Accept? && Moved(script[k].most, size, size) == size
  }

  ghost predicate AllChunksTaken(script: seq<WriteOutcome>, turn: nat, length: nat, chunks: nat) {
    forall i: nat :: i < chunks ==> TakesAll(script, turn + i, ChunkSize(length, i))
  }

  function Chunks(length: nat): nat {
    (length + CHUNK - 1) / CHUNK
  }

  lemma ChunkStep(script: seq<WriteOutcome>, turn: nat, length: nat, i: nat)
    ensures AllChunksTaken(script, turn, length, i + 1)
            <==> AllChunksTaken(script, turn, length, i) && TakesAll(script, turn + i, ChunkSize(length, i))
  {}

  /** Files of 0, 1, 1024, 1025 and 3000 bytes, chunk by chunk. */
  lemma ChunkExamples()
    ensures Chunks(0) == 0 && Chunks(1) == 1 && Chunks(1024) == 1 && Chunks(1025) == 2
    ensures Chunks(3000) == 3 && ChunkSize(3000, 0) == ChunkSize(3000, 1) == 1024 && ChunkSize(3000, 2) == 952
  {}

  /** The write that meets turn k of the script returns -1. */
  predicate Fails(script: seq<WriteOutcome>, k: nat) {
    k < |script| && script[k] in {WriteInterrupted, WriteFail}
  }

  /** Bytes that the write of `size` bytes that meets turn k takes. */
  function Taken(script: seq<WriteOutcome>, k: nat, size: nat): (n: nat)
    ensures n <= size && (size > 0 ==> (n == size <==> TakesAll(script, k, size)))
  {
    if k >= |script| then size
    else match script[k] case Accept(most) => Moved(most, size, size) case _ => 0
  }

  /** What the peer gets from the first i writes: of every chunk the bytes its write took, and
      the rest of the chunk is lost. */
  function Delivered(file: seq<byte>, script: seq<WriteOutcome>, turn: nat, i: nat): seq<byte>
    requires i <= Chunks(|file|)
  {
    if i == 0 then []
    else
      var at := CHUNK * (i - 1);
      Delivered(file, script, turn, i - 1)
      + file[at..at + Taken(script, turn + i - 1, ChunkSize(|file|, i - 1))]
  }

  lemma SlicesJoin(file: seq<byte>, at: nat, to: nat)
    requires at <= to <= |file|
    ensures file[..at] + file[at..to] == file[..to]
  {}

  /** The first i writes deliver the start of the file exactly when each took its whole chunk. */
  lemma {:induction false} DeliveredWhole(file: seq<byte>, script: seq<WriteOutcome>, turn: nat, i: nat)
    requires i <= Chunks(|file|)
    ensures |Delivered(file, script, turn, i)| <= Min(CHUNK * i, |file|)
    ensures AllChunksTaken(script, turn, |file|, i)
            <==> |Delivered(file, script, turn, i)| == Min(CHUNK * i, |file|)
    ensures AllChunksTaken(script, turn, |file|, i) ==>
              Delivered(file, script, turn, i) == file[..Min(CHUNK * i, |file|)]
  {
    if i > 0 {
      DeliveredWhole(file, script, turn, i - 1);
      ChunkStep(script, turn, |file|, i - 1);
      SlicesJoin(file, CHUNK * (i - 1), Min(CHUNK * i, |file|));
    }
  }

  lemma NextChunk(length: nat, i: nat, at: nat)
    requires at == Min(CHUNK * i, length) < length
    ensures at == CHUNK * i && i + 1 <= Chunks(length)
    ensures ChunkSize(length, i) == Min(CHUNK, length - at) > 0
    ensures Min(CHUNK * (i + 1), length) == at + ChunkSize(length, i)
  {}

  /** A write behind the end of the script goes as one at its end. */
  lemma BehindTheScript(script: seq<WriteOutcome>, k: nat, size: nat)
    ensures Fails(script, k) == Fails(script, Min(k, |script|))
    ensures Taken(script, k, size) == Taken(script, Min(k, |script|), size)
  {}

  lemma FailureLosesChunk(file: seq<byte>, script: seq<WriteOutcome>, turn: nat, i: nat)
    requires 0 < i <= Chunks(|file|) && Fails(script, turn + i - 1)
    ensures !AllChunksTaken(script, turn, |file|, Chunks(|file|))
    ensures |Delivered(file, script, turn, i)| < |file|
  {
    assert !TakesAll(script, turn + (i - 1), ChunkSize(|file|, i - 1));
    DeliveredWhole(file, script, turn, i);
  }

  /** One round of the send loop: fread into the buffer, then one write. */
  method SendChunk(file: seq<byte>, at: nat, buffer: array<byte>, socket: WriteEnd)
    returns (valread: nat, written: int)
    requires socket.Valid() && at < |file| && buffer.Length == CHUNK
    modifies socket, buffer
    ensures socket.Valid() && socket.turn == Min(old(socket.turn) + 1, |socket.script|)
    ensures valread == Min(CHUNK, |file| - at) && -1 <= written <= valread
    ensures written == -1 <==> Fails(socket.script, old(socket.turn))
    ensures var taken := Taken(socket.script, old(socket.turn), valread);
            && (written >= 0 ==> written == taken)
            && socket.sent == old(socket.sent) + file[at..at + taken]
  {
    valread := Min(CHUNK, |file| - at);
    forall k | 0 <= k < valread {
      buffer[k] := file[at + k];
    }
    ghost var before, turn := socket.sent, socket.turn;
    written := socket.Write(buffer, 0, valread);
    ghost var taken := Taken(socket.script, turn, valread);
    AppendedIsConcatenation(before, socket.sent, buffer[..], 0, taken);
    assert buffer[..taken] == file[at..at + taken];
  }

  lemma OneMoreChunk(
      file: seq<byte>, script: seq<WriteOutcome>, turn: nat, i: nat, was: seq<byte>, sent: seq<byte>, now: seq<byte>)
    requires i < Chunks(|file|) && sent == was + Delivered(file, script, turn, i)
    requires CHUNK * i + Taken(script, turn + i, ChunkSize(|file|, i)) <= |file|
    requires now == sent + file[CHUNK * i..CHUNK * i + Taken(script, turn + i, ChunkSize(|file|, i))]
    ensures now == was + Delivered(file, script, turn, i + 1)
  {}

  lemma WholeFileSent(file: seq<byte>, script: seq<WriteOutcome>, turn: nat, was: seq<byte>, sent: seq<byte>)
    requires sent == was + Delivered(file, script, turn, Chunks(|file|))
    ensures sent == was + file <==> AllChunksTaken(script, turn, |file|, Chunks(|file|))
  {
    DeliveredWhole(file, script, turn, Chunks(|file|));
    assert file[..|file|] == file;
    if sent == was + file {
      assert |Delivered(file, script, turn, Chunks(|file|))| == |file|;
    }
  }

  /** After i chunks the peer has `sent`, and none of the writes has failed. */
  ghost predicate Progress(
      file: seq<byte>, script: seq<WriteOutcome>, turn: nat, i: nat, was: seq<byte>, sent: seq<byte>, now: nat)
  {
    && i <= Chunks(|file|) && sent == was + Delivered(file, script, turn, i)
    && now == Min(turn + i, |script|)
    && forall k :: turn <= k < turn + i ==> !Fails(script, k)
  }

  method SendNext(
      file: seq<byte>, bytes: nat, buffer: array<byte>, socket: WriteEnd,
      ghost turn: nat, ghost i: nat, ghost was: seq<byte>)
    returns (valread: nat, written: int)
    requires socket.Valid() && buffer.Length == CHUNK
    requires bytes == Min(CHUNK * i, |file|) < |file|
    requires Progress(file, socket.script, turn, i, was, socket.sent, socket.turn)
    modifies socket, buffer
    ensures socket.Valid() && bytes + valread == Min(CHUNK * (i + 1), |file|) > bytes
    ensures written >= 0 ==> Progress(file, socket.script, turn, i + 1, was, socket.sent, socket.turn)
    ensures written < 0 ==>
              && i + 1 <= Chunks(|file|) && Fails(socket.script, turn + i)
              && socket.sent == was + Delivered(file, socket.script, turn, i + 1)
  {
    ghost var sent := socket.sent;
    NextChunk(|file|, i, bytes);
    BehindTheScript(socket.script, turn + i, ChunkSize(|file|, i));
    valread, written := SendChunk(file, bytes, buffer, socket);
    OneMoreChunk(file, socket.script, turn, i, was, sent, socket.sent);
  }

  /** The send loop. It counts what it read, not what write accepted, so the peer gets the
      file exactly when every single write takes its whole chunk; in any case it gets what the
      `writes` that were made took, and -1 means that the last of them failed. */
  method Send(file: seq<byte>, socket: WriteEnd) returns (status: int, bytes: int, ghost writes: nat)
    requires socket.Valid()
    modifies socket
    ensures socket.Valid() && status in {0, -1}
    ensures status == 0 ==> bytes == |file|
    ensures socket.sent == old(socket.sent) + file
            <==> AllChunksTaken(socket.script, old(socket.turn), |file|, Chunks(|file|))
    ensures socket.sent == old(socket.sent) + file ==> status == 0
    ensures writes <= Chunks(|file|) && (status == 0 ==> writes == Chunks(|file|))
    ensures socket.sent == old(socket.sent) + Delivered(file, socket.script, old(socket.turn), writes)
    ensures status == -1 ==>
              && writes > 0 && Fails(socket.script, old(socket.turn) + writes - 1)
              && forall k :: old(socket.turn) <= k < old(socket.turn) + writes - 1 ==> !Fails(socket.script, k)
    ensures status == -1 <==>
            exists k :: old(socket.turn) <= k < old(socket.turn) + Chunks(|file|) && Fails(socket.script, k)
  {
    ghost var was, turn := socket.sent, socket.turn;
    var buffer := new byte[CHUNK];
    status, bytes, writes := 0, 0, 0;
    while bytes < |file|
      invariant socket.Valid() && bytes == Min(CHUNK * writes, |file|)
      invariant Progress(file, socket.script, turn, writes, was, socket.sent, socket.turn)
      decreases |file| - bytes
    {
      var valread, written := SendNext(file, bytes, buffer, socket, turn, writes, was);
      writes := writes + 1;
      if written < 0 {
        FailureLosesChunk(file, socket.script, turn, writes);
        return -1, bytes, writes;
      }
      bytes := bytes + valread;
    }
    AllChunksRead(|file|, writes);
    WholeFileSent(file, socket.script, turn, was, socket.sent);
  }

  lemma AllChunksRead(length: nat, i: nat)
    requires i <= Chunks(length) && Min(CHUNK * i, length) == length
    ensures i == Chunks(length)
  {}

  /** Both programs together: as long as no read meets a hard error, the stored file is the file
      that was sent exactly when every write took its whole chunk, whatever the fragmentation. */
  method TransferFile(file: seq<byte>, sending: seq<WriteOutcome>, receiving: seq<ReadOutcome>)
    returns (stored: seq<byte>, count: int)
    ensures count == |stored|
    ensures Fail !in receiving ==>
              (stored == file <==> AllChunksTaken(sending, 0, |file|, Chunks(|file|)))
  {
    var client := new WriteEnd(sending);
    var status, bytes, writes := Send(file, client);
    var server := new ReadEnd(client.sent, receiving);
    var last;
    stored, count, last := Receive(server);
    assert [] + file == file;
  }
}
