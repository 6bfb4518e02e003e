/** What read(2) and write(2) may do to the code above them. A descriptor carries a finite
    script of outcomes that plays the adversary: short transfers of any size, interruptions
    by signals and hard errors, in any order. Once the script is used up every call transfers
    as much as it can. End of file is a stream with nothing left. */
module Kernel {

  newtype byte = x: int | 0 <= x < 256

  datatype Errno = NoError | EINTR | EIO

  datatype ReadOutcome = Deliver(most: nat) | Interrupted | Fail

  datatype WriteOutcome = Accept(most: nat) | AcceptNothing | WriteInterrupted | WriteFail

  function Min(a: nat, b: nat): nat {
    if a <= b then a else b
  }

  /** Bytes a transfer of at most n out of `waiting` moves when `most` is the kernel's whim:
      at least one, unless there is nothing to move. */
  function Moved(most: nat, waiting: nat, n: nat): nat {
    Min(Min(waiting, n), if most == 0 then 1 else most)
  }

  /** A transfer may move any positive number of the bytes there are, and nothing only if there
      is nothing to move. */
  lemma AnyShortTransfer(waiting: nat, n: nat, k: nat)
    ensures (exists most: nat :: Moved(most, waiting, n) == k)
            <==> if waiting == 0 || n == 0 then k == 0 else 1 <= k <= waiting && k <= n
  {
    if (1 <= k <= waiting && k <= n) || (k == 0 && (waiting == 0 || n == 0)) {
      assert Moved(k, waiting, n) == k;
    }
  }

  /** The turns from..to met no hard error, except that the last one did exactly when `failed`. */
  ghost predicate EndedBy(script: seq<ReadOutcome>, from: nat, to: nat, failed: bool) {
    && from <= to <= |script|
    && (forall k :: from <= k < to - 1 ==> script[k] != Fail)
    && (if from < to then script[to - 1] == Fail <==> failed else !failed)
  }

  /** A failure is a hard error among the turns, namely the last of them; an interruption is none. */
  lemma FailedExactly(script: seq<ReadOutcome>, from: nat, to: nat, failed: bool)
    requires EndedBy(script, from, to, failed)
    ensures failed <==> exists k :: from <= k < to && script[k] == Fail
    ensures failed ==> from < to && script[to - 1] == Fail
  {}

  /** The buffer has the stream's bytes from..to at its start and is otherwise as it was. */
  ghost predicate Filled(was: seq<byte>, now: seq<byte>, stream: seq<byte>, from: nat, to: nat) {
    && from <= to <= |stream| && to - from <= |was| == |now|
    && (forall k :: 0 <= k < to - from ==> now[k] == stream[from + k])
    && (forall k :: to - from <= k < |now| ==> now[k] == was[k])
  }

  lemma FilledIsCopy(was: seq<byte>, now: seq<byte>, stream: seq<byte>, from: nat, to: nat)
    requires from <= to <= |stream| && to - from <= |was|
    ensures Filled(was, now, stream, from, to) <==> now == stream[from..to] + was[to - from..]
  {
    if now == stream[from..to] + was[to - from..] {
      forall k | to - from <= k < |now| ensures now[k] == was[k] {
        assert now[k] == was[to - from..][k - (to - from)];
      }
    }
  }

  /** What was sent grew by the bytes from..to of the buffer. */
  ghost predicate Appended(was: seq<byte>, now: seq<byte>, bytes: seq<byte>, from: nat, to: nat) {
    && from <= to <= |bytes| && |now| == |was| + to - from
    && (forall k :: 0 <= k < |was| ==> now[k] == was[k])
    && (forall k :: |was| <= k < |now| ==> now[k] == bytes[from + k - |was|])
  }

  lemma AppendedIsConcatenation(was: seq<byte>, now: seq<byte>, bytes: seq<byte>, from: nat, to: nat)
    requires from <= to <= |bytes|
    ensures Appended(was, now, bytes, from, to) <==> now == was + bytes[from..to]
  {}

  class ReadEnd {
    const stream: seq<byte>
    var pos: nat

    const script: seq<ReadOutcome>
    var turn: nat

    var errno: Errno

    ghost predicate Valid()
      reads this
    {
      pos <= |stream| && turn <= |script|
    }

    constructor (stream: seq<byte>, script: seq<ReadOutcome>)
      ensures Valid() && this.stream == stream && this.script == script && pos == turn == 0
    {
      this.stream, this.script := stream, script;
      pos, turn := 0, 0;
      errno := NoError;
    }

    /** read(fd, buf + at, n) */
    method Read(buf: array<byte>, at: nat, n: nat) returns (r: int)
      requires Valid() && at + n <= buf.Length
      modifies this, buf
      ensures Valid() && turn == Min(old(turn) + 1, |script|)
      ensures r == if old(turn) == |script| then Min(|stream| - old(pos), n) else
                   match script[old(turn)]
                   case Deliver(most) => Moved(most, |stream| - old(pos), n)
                   case _ => -1
      ensures errno == if r >= 0 then old(errno) else if script[old(turn)] == Interrupted then EINTR else EIO
      ensures pos == if r >= 0 then old(pos) + r else old(pos)
      ensures forall k :: at <= k < at + r ==> buf[k] == stream[old(pos) + k - at]
      ensures forall k :: 0 <= k < buf.Length && !(at <= k < at + r) ==> buf[k] == old(buf[k])
    {
      var count := Min(|stream| - pos, n);
      if turn < |script| {
        var outcome := script[turn];
        turn := turn + 1;
        match outcome {
          case Deliver(most) =>
            count := Moved(most, |stream| - pos, n);
          case Interrupted =>
            errno := EINTR;
            return -1;
          case Fail =>
            errno := EIO;
            return -1;
        }
      }
      forall k | 0 <= k < count {
        buf[at + k] := stream[pos + k];
      }
      pos := pos + count;
      r := count;
    }
  }

  class WriteEnd {
    var sent: seq<byte>

    const script: seq<WriteOutcome>
    var turn: nat

    var errno: Errno

    ghost predicate Valid()
      reads this
    {
      turn <= |script|
    }

    constructor (script: seq<WriteOutcome>)
      ensures Valid() && sent == [] && this.script == script && turn == 0
    {
      this.script := script;
      sent, turn := [], 0;
      errno := NoError;
    }

    /** write(fd, buf + at, n). A call that writes nothing leaves errno as it was. */
    method Write(buf: array<byte>, at: nat, n: nat) returns (r: int)
      requires Valid() && at + n <= buf.Length
      modifies this
      ensures Valid() && turn == Min(old(turn) + 1, |script|)
      ensures r == if old(turn) == |script| then n else
                   match script[old(turn)]
                   case Accept(most) => Moved(most, n, n)
                   case AcceptNothing => 0
                   case _ => -1
      ensures errno == if r >= 0 then old(errno) else
                       if script[old(turn)] == WriteInterrupted then EINTR else EIO
      ensures Appended(old(sent), sent, buf[..], at, if r >= 0 then at + r else at)
    {
      r := n;
      if turn < |script| {
        var outcome := script[turn];
        turn := turn + 1;
        match outcome {
          case Accept(most) =>
            r := Moved(most, n, n);
          case AcceptNothing =>
            r := 0;
          case WriteInterrupted =>
            errno := EINTR;
            return -1;
          case WriteFail =>
            errno := EIO;
            return -1;
        }
      }
      sent := sent + buf[at..at + r];
    }
  }
}
