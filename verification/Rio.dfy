/** The Rio package of Assignment3/jwh139-concurrent-proxy/csapp.c: unbuffered reads and writes
    that survive short counts and EINTR, and the buffered reader with its 8192-byte buffer. */
module Rio {
  import opened Kernel

  const RIO_BUFSIZE := 8192
  const NEWLINE: byte := 10

  /** rio_readn: fails exactly when a hard error was met; otherwise returns the first
      min(n, bytes left) bytes of the stream, in order. Bytes read before a hard error are
      in the buffer. */
  method Readn(fd: ReadEnd, usrbuf: array<byte>, n: nat) returns (r: int)
    requires fd.Valid() && n <= usrbuf.Length
    modifies fd, usrbuf
    ensures fd.Valid() && EndedBy(fd.script, old(fd.turn), fd.turn, r == -1)
    ensures Filled(old(usrbuf[..]), usrbuf[..], fd.stream, old(fd.pos), fd.pos)
    ensures r != -1 ==> r == fd.pos - old(fd.pos) == Min(n, |fd.stream| - old(fd.pos))
    ensures r == -1 ==> fd.pos - old(fd.pos) < n
  {
    var nleft := n;
    var bufp := 0;
    while nleft > 0
      invariant 0 <= bufp <= n == bufp + nleft
      invariant fd.Valid() && fd.pos == old(fd.pos) + bufp
      invariant EndedBy(fd.script, old(fd.turn), fd.turn, false)
      invariant Filled(old(usrbuf[..]), usrbuf[..], fd.stream, old(fd.pos), fd.pos)
      decreases |fd.script| - fd.turn + nleft
    {
      var nread := fd.Read(usrbuf, bufp, nleft);
      if nread < 0 {
        if fd.errno == EINTR {
          nread := 0;
        } else {
          return -1;
        }
      } else if nread == 0 {
        break;
      }
      nleft := nleft - nread;
      bufp := bufp + nread;
    }
    r := n - nleft;
  }

  /** errno holds EINTR at turn k, given what it held at turn `from`. */
  ghost predicate InterruptedBefore(script: seq<WriteOutcome>, from: nat, k: nat, errno: Errno)
    requires from <= k <= |script|
  {
    errno == EINTR || exists j :: from <= j < k && script[j] == WriteInterrupted
  }

  /** The outcome of turn k makes rio_writen give up: a hard error, or a write of nothing when
      errno does not happen to hold EINTR from an earlier call. */
  ghost predicate GivesUp(script: seq<WriteOutcome>, from: nat, k: nat, errno: Errno)
    requires from <= k < |script|
  {
    script[k] == WriteFail || (script[k] == AcceptNothing && !InterruptedBefore(script, from, k, errno))
  }

  lemma OneMoreTurn(script: seq<WriteOutcome>, from: nat, k: nat, errno: Errno)
    requires from <= k < |script|
    ensures InterruptedBefore(script, from, k + 1, errno)
            <==> InterruptedBefore(script, from, k, errno) || script[k] == WriteInterrupted
  {}

  lemma GivingUpMeans(script: seq<WriteOutcome>, from: nat, to: nat, errno: Errno, failed: bool)
    requires from <= to <= |script|
    requires forall k :: from <= k < to - 1 ==> !GivesUp(script, from, k, errno)
    requires failed <==> from < to && GivesUp(script, from, to - 1, errno)
    ensures failed ==> from < to && script[to - 1] in {WriteFail, AcceptNothing}
    ensures forall k :: from <= k < to && script[k] == WriteFail ==> failed
    ensures forall k :: from <= k < to && script[k] == AcceptNothing ==>
              (failed && k == to - 1
               <==> errno != EINTR && forall j :: from <= j < k ==> script[j] != WriteInterrupted)
  {
    forall k | from <= k < to && script[k] == WriteFail ensures failed {
      assert GivesUp(script, from, k, errno);
    }
    forall k | from <= k < to && script[k] == AcceptNothing
      ensures failed && k == to - 1
              <==> errno != EINTR && forall j :: from <= j < k ==> script[j] != WriteInterrupted
    {
      assert GivesUp(script, from, k, errno) <==> !InterruptedBefore(script, from, k, errno);
    }
  }

  /** rio_writen: sends all n bytes, once and in order, unless it gives up; then it has sent
      a proper prefix of them. */
  method Writen(fd: WriteEnd, usrbuf: array<byte>, n: nat) returns (r: int)
    requires fd.Valid() && n <= usrbuf.Length
    modifies fd
    ensures fd.Valid() && old(fd.turn) <= fd.turn
    ensures forall k :: old(fd.turn) <= k < fd.turn - 1 ==> !GivesUp(fd.script, old(fd.turn), k, old(fd.errno))
    ensures r == -1 <==> old(fd.turn) < fd.turn && GivesUp(fd.script, old(fd.turn), fd.turn - 1, old(fd.errno))
    ensures |old(fd.sent)| <= |fd.sent|
    ensures Appended(old(fd.sent), fd.sent, usrbuf[..], 0, |fd.sent| - |old(fd.sent)|)
    ensures r != -1 ==> r == |fd.sent| - |old(fd.sent)| == n
    ensures r == -1 ==> |fd.sent| - |old(fd.sent)| < n
    // interruptions and short writes never make it fail, a hard error always does
    ensures (forall k :: old(fd.turn) <= k < |fd.script| ==> fd.script[k].Accept? || fd.script[k] == WriteInterrupted)
            ==> r == n
    ensures r == -1 ==> old(fd.turn) < fd.turn && fd.script[fd.turn - 1] in {WriteFail, AcceptNothing}
    ensures forall k :: old(fd.turn) <= k < fd.turn && fd.script[k] == WriteFail ==> r == -1
    // a write of nothing makes it fail unless errno is left over from an interruption
    ensures forall k :: old(fd.turn) <= k < fd.turn && fd.script[k] == AcceptNothing ==>
              (r == -1 && k == fd.turn - 1
               <==> old(fd.errno) != EINTR && forall j :: old(fd.turn) <= j < k ==> fd.script[j] != WriteInterrupted)
  {
    ghost var turn, errno, sent, bytes := fd.turn, fd.errno, fd.sent, usrbuf[..];
    var nleft := n;
    var bufp := 0;
    while nleft > 0
      invariant 0 <= bufp <= n == bufp + nleft
      invariant fd.Valid() && turn <= fd.turn
      invariant Appended(sent, fd.sent, bytes, 0, bufp)
      invariant forall k :: turn <= k < fd.turn ==> !GivesUp(fd.script, turn, k, errno)
      invariant fd.errno == EINTR <==> InterruptedBefore(fd.script, turn, fd.turn, errno)
      decreases |fd.script| - fd.turn + nleft
    {
      ghost var before := fd.turn;
      var nwritten := fd.Write(usrbuf, bufp, nleft);
      if before < |fd.script| {
        OneMoreTurn(fd.script, turn, before, errno);
      }
      if nwritten <= 0 {
        if fd.errno == EINTR {
          nwritten := 0;
        } else {
          GivingUpMeans(fd.script, turn, fd.turn, errno, true);
          return -1;
        }
      }
      nleft := nleft - nwritten;
      bufp := bufp + nwritten;
    }
    GivingUpMeans(fd.script, turn, fd.turn, errno, false);
    return n;
  }

  /** Where a line read that starts at `from` ends: behind the first newline, after `cap` bytes
      or at the end of the stream, whichever comes first. */
  function LineEnd(stream: seq<byte>, from: nat, cap: nat): (end: nat)
    requires from <= |stream|
    ensures from <= end <= |stream| && end - from <= cap
    decreases cap
  {
    if cap == 0 || from == |stream| then from
    else if stream[from] == NEWLINE then from + 1
    else LineEnd(stream, from + 1, cap - 1)
  }

  /** The position a text line may end at: no newline before its last byte, and a reason to
      stop there. */
  ghost predicate EndsLine(stream: seq<byte>, from: nat, cap: nat, end: nat) {
    && from <= end <= |stream| && end - from <= cap
    && (forall p :: from <= p < end - 1 ==> stream[p] != NEWLINE)
    && (end - from == cap || end == |stream| || (end > from && stream[end - 1] == NEWLINE))
  }

  /** LineEnd is the one position that is allowed. */
  lemma {:induction false} LineEndExactly(stream: seq<byte>, from: nat, cap: nat, end: nat)
    requires from <= |stream|
    ensures end == LineEnd(stream, from, cap) <==> EndsLine(stream, from, cap, end)
    decreases cap
  {
    if cap > 0 && from < |stream| {
      if stream[from] != NEWLINE {
        LineEndExactly(stream, from + 1, cap - 1, end);
      }
      LineEndUnfolds(stream, from, cap);
    }
  }

  lemma LineEndUnfolds(stream: seq<byte>, from: nat, cap: nat)
    requires from <= |stream|
    ensures cap == 0 || from == |stream| ==> LineEnd(stream, from, cap) == from
    ensures cap > 0 && from < |stream| ==>
              LineEnd(stream, from, cap) ==
              if stream[from] == NEWLINE then from + 1 else LineEnd(stream, from + 1, cap - 1)
  {}

  /** Bytes a line may have beside its terminator. */
  function LineCap(maxlen: nat): nat {
    if maxlen == 0 then 0 else maxlen - 1
  }

  /** What rio_readlineb returns for a line of `length` bytes: the length when a newline ended
      it, 0 at end of file, and one more than the length otherwise. */
  function LineReturn(maxlen: nat, length: nat, newline: bool): nat {
    if newline then length
    else if length == 0 && maxlen >= 2 then 0
    else length + 1
  }

  /** rio_t */
  class Reader {
    const fd: ReadEnd
    var rioCnt: int
    var rioBufptr: nat
    const rioBuf: array<byte>

    /** The window of the internal buffer is inside it and holds the bytes just behind the
        reader's position in the stream. */
    ghost predicate Valid()
      reads this, fd, rioBuf
    {
      && fd.Valid() && rioBuf.Length == RIO_BUFSIZE
      && (rioCnt > 0 ==>
            && rioBufptr + rioCnt <= RIO_BUFSIZE && rioCnt <= fd.pos
            && forall i :: rioBufptr <= i < rioBufptr + rioCnt ==>
                 rioBuf[i] == fd.stream[fd.pos - rioCnt + i - rioBufptr])
    }

    /** How much of the stream the callers have been given. */
    ghost function Pos(): (p: nat)
      requires Valid()
      reads this, fd, rioBuf
      ensures p <= |fd.stream|
    {
      if rioCnt > 0 then fd.pos - rioCnt else fd.pos
    }

    /** The unread bytes in the internal buffer. */
    ghost function Window(): seq<byte>
      requires Valid()
      reads this, fd, rioBuf
    {
      if rioCnt > 0 then rioBuf[rioBufptr..rioBufptr + rioCnt] else []
    }

    /** The internal buffer holds what lies between the reader's position and the kernel's. */
    lemma WindowIsNext()
      requires Valid()
      ensures Pos() <= fd.pos <= |fd.stream| && Window() == fd.stream[Pos()..fd.pos]
    {}

    /** rio_readinitb */
    constructor (fd: ReadEnd)
      requires fd.Valid()
      ensures this.fd == fd && fresh(rioBuf) && rioBuf.Length == 8192
      ensures Valid() && rioCnt == 0 && Pos() == fd.pos
    {
      this.fd := fd;
      rioCnt := 0;
      rioBufptr := 0;
      rioBuf := new byte[RIO_BUFSIZE];
    }

    /** rio_read's loop: refill the buffer if it is empty. The result is 1 when there is something
        to hand out. */
    method Refill() returns (r: int)
      requires Valid()
      modifies this, fd, rioBuf
      ensures Valid() && r in {-1, 0, 1} && Pos() == old(Pos())
      ensures EndedBy(fd.script, old(fd.turn), fd.turn, r == -1)
      ensures r == -1 ==> fd.errno != EINTR
      ensures r == 0 ==> Pos() == |fd.stream|
      ensures r == 1 ==> rioCnt > 0
      ensures old(rioCnt) > 0 ==> fd.turn == old(fd.turn) && fd.pos == old(fd.pos)
      ensures old(rioCnt) <= 0 && old(fd.turn) == |fd.script| ==>
                fd.pos == old(fd.pos) + Min(8192, |fd.stream| - old(fd.pos))
    {
      while rioCnt <= 0
        invariant Valid() && Pos() == old(Pos())
        invariant EndedBy(fd.script, old(fd.turn), fd.turn, false)
        invariant fd.pos >= old(fd.pos)
        invariant rioCnt == old(rioCnt) || fd.turn > old(fd.turn) || old(fd.turn) == |fd.script|
        invariant old(rioCnt) > 0 ==> fd.turn == old(fd.turn) && fd.pos == old(fd.pos)
        invariant old(rioCnt) <= 0 && old(fd.turn) == |fd.script| ==>
                    fd.pos == old(fd.pos) + if rioCnt <= 0 then 0 else Min(8192, |fd.stream| - old(fd.pos))
        decreases |fd.script| - fd.turn, if rioCnt <= 0 then 1 else 0
      {
        rioCnt := fd.Read(rioBuf, 0, rioBuf.Length);
        if rioCnt < 0 {
          if fd.errno != EINTR {
            return -1;
          }
        } else if rioCnt == 0 {
          return 0;
        } else {
          rioBufptr := 0;
        }
      }
      return 1;
    }

    /** rio_read */
    method Read(usrbuf: array<byte>, at: nat, n: nat) returns (r: int)
      requires Valid() && at + n <= usrbuf.Length && usrbuf != rioBuf
      modifies this, fd, rioBuf, usrbuf
      ensures Valid() && -1 <= r <= n
      ensures EndedBy(fd.script, old(fd.turn), fd.turn, r == -1)
      ensures r == -1 ==> fd.errno != EINTR
      ensures Pos() == if r == -1 then old(Pos()) else old(Pos()) + r
      ensures r == 0 && n > 0 ==> Pos() == |fd.stream|
      // as many bytes as asked for, or all that were buffered; read(2) only when none were
      ensures 0 <= r < n ==> rioCnt <= 0
      ensures old(rioCnt) > 0 ==> fd.turn == old(fd.turn) && fd.pos == old(fd.pos)
      ensures old(rioCnt) <= 0 && old(fd.turn) == |fd.script| ==>
                fd.pos == old(fd.pos) + Min(8192, |fd.stream| - old(fd.pos))
      ensures forall k :: at <= k < at + r ==> usrbuf[k] == fd.stream[old(Pos()) + k - at]
      ensures forall k :: 0 <= k < usrbuf.Length && !(at <= k < at + r) ==> usrbuf[k] == old(usrbuf[k])
    {
      r := Refill();
      if r <= 0 {
        return;
      }
      var cnt := n;
      if rioCnt < n {
        cnt := rioCnt;
      }
      forall i | at <= i < at + cnt {
        usrbuf[i] := rioBuf[rioBufptr + i - at];
      }
      rioBufptr := rioBufptr + cnt;
      rioCnt := rioCnt - cnt;
      return cnt;
    }

    /** rio_readnb: the next min(n, bytes left) bytes of the stream, unless a hard error was met. */
    method Readnb(usrbuf: array<byte>, n: nat) returns (r: int)
      requires Valid() && n <= usrbuf.Length && usrbuf != rioBuf
      modifies this, fd, rioBuf, usrbuf
      ensures Valid() && EndedBy(fd.script, old(fd.turn), fd.turn, r == -1)
      ensures Filled(old(usrbuf[..]), usrbuf[..], fd.stream, old(Pos()), Pos())
      ensures r != -1 ==> r == Pos() - old(Pos()) == Min(n, |fd.stream| - old(Pos()))
      ensures r == -1 ==> Pos() - old(Pos()) < n
    {
      var nleft := n;
      var bufp := 0;
      while nleft > 0
        invariant 0 <= bufp <= n == bufp + nleft
        invariant Valid() && Pos() == old(Pos()) + bufp
        invariant EndedBy(fd.script, old(fd.turn), fd.turn, false)
        invariant Filled(old(usrbuf[..]), usrbuf[..], fd.stream, old(Pos()), Pos())
        decreases nleft
      {
        var nread := Read(usrbuf, bufp, nleft);
        if nread < 0 {
          if fd.errno == EINTR {
            nread := 0;
          } else {
            return -1;
          }
        } else if nread == 0 {
          break;
        }
        nleft := nleft - nread;
        bufp := bufp + nread;
      }
      return n - nleft;
    }

    /** rio_read(rp, &c, 1) */
    method ReadByte() returns (rc: int, c: byte)
      requires Valid()
      modifies this, fd, rioBuf
      ensures Valid() && -1 <= rc <= 1
      ensures EndedBy(fd.script, old(fd.turn), fd.turn, rc == -1)
      ensures Pos() == if rc == 1 then old(Pos()) + 1 else old(Pos())
      ensures rc == 0 ==> Pos() == |fd.stream|
      ensures rc == 1 ==> c == fd.stream[old(Pos())]
    {
      var cell := new byte[1];
      rc := Read(cell, 0, 1);
      c := cell[0];
    }

    /** One round of rio_readlineb's loop: `*bufp++ = c` for the next byte, if there is one. */
    method StoreByte(usrbuf: array<byte>, bufp: nat, ghost was: seq<byte>, ghost from: nat)
      returns (rc: int, c: byte)
      requires Valid() && bufp < usrbuf.Length && usrbuf != rioBuf
      requires Pos() == from + bufp && Filled(was, usrbuf[..], fd.stream, from, Pos())
      modifies this, fd, rioBuf, usrbuf
      ensures Valid() && -1 <= rc <= 1
      ensures EndedBy(fd.script, old(fd.turn), fd.turn, rc == -1)
      ensures Pos() == if rc == 1 then old(Pos()) + 1 else old(Pos())
      ensures rc == 0 ==> Pos() == |fd.stream|
      ensures rc == 1 ==> c == fd.stream[old(Pos())]
      ensures Filled(was, usrbuf[..], fd.stream, from, Pos())
    {
      rc, c := ReadByte();
      if rc == 1 {
        usrbuf[bufp] := c;
      }
    }

    /** rio_readlineb's loop. Its outcome is the value that the function returns: -1 or 0 at
        once, or n after the terminator is stored at `length`. */
    method LineLoop(usrbuf: array<byte>, maxlen: nat) returns (n: int, length: nat)
      requires Valid() && maxlen <= usrbuf.Length && usrbuf.Length > 0 && usrbuf != rioBuf
      modifies this, fd, rioBuf, usrbuf
      ensures Valid() && EndedBy(fd.script, old(fd.turn), fd.turn, n == -1)
      ensures Pos() == old(Pos()) + length && length < usrbuf.Length
      ensures n != -1 ==>
                && EndsLine(fd.stream, old(Pos()), LineCap(maxlen), Pos())
                && n == LineReturn(maxlen, length, length > 0 && fd.stream[Pos() - 1] == NEWLINE)
      ensures Filled(old(usrbuf[..]), usrbuf[..], fd.stream, old(Pos()), Pos())
    {
      ghost var was, from, turn := usrbuf[..], Pos(), fd.turn;
      n, length := 1, 0;
      while n < maxlen
        invariant 0 <= length == n - 1 <= LineCap(maxlen) && length < usrbuf.Length
        invariant Valid() && Pos() == from + length
        invariant EndedBy(fd.script, turn, fd.turn, false)
        invariant Filled(was, usrbuf[..], fd.stream, from, Pos())
        invariant forall p :: from <= p < Pos() ==> fd.stream[p] != NEWLINE
        decreases maxlen - n
      {
        var rc, c := StoreByte(usrbuf, length, was, from);
        if rc == 1 {
          length := length + 1;
          if c == NEWLINE {
            return;
          }
        } else if rc == 0 {
          if n == 1 {
            n := 0;
          }
          return;
        } else {
          n := -1;
          return;
        }
        n := n + 1;
      }
    }

    /** rio_readlineb: the bytes up to LineEnd, then a terminator, unless a hard error was met. */
    method Readlineb(usrbuf: array<byte>, maxlen: nat) returns (r: int)
      requires Valid() && maxlen <= usrbuf.Length && usrbuf.Length > 0 && usrbuf != rioBuf
      modifies this, fd, rioBuf, usrbuf
      ensures Valid() && EndedBy(fd.script, old(fd.turn), fd.turn, r == -1)
      ensures old(Pos()) <= Pos() && Pos() - old(Pos()) < usrbuf.Length
      ensures r != -1 ==>
                && Pos() == LineEnd(fd.stream, old(Pos()), LineCap(maxlen))
                && r == LineReturn(maxlen, Pos() - old(Pos()),
                                   Pos() > old(Pos()) && fd.stream[Pos() - 1] == NEWLINE)
      ensures Filled(Terminated(old(usrbuf[..]), Pos() - old(Pos()), r > 0), usrbuf[..],
                     fd.stream, old(Pos()), Pos())
      // the line fits its cap and ends for a reason
      ensures r > 0 && maxlen > 0 ==> EndsLine(fd.stream, old(Pos()), maxlen - 1, Pos())
      // the terminator, and a count that is exact only behind a newline and else one too many
      ensures r > 0 ==> r - 1 <= Pos() - old(Pos()) <= r && usrbuf[Pos() - old(Pos())] == 0
      ensures r > 0 && Pos() > old(Pos()) ==>
                (r == Pos() - old(Pos()) <==> fd.stream[Pos() - 1] == NEWLINE)
      ensures r == 0 <==> r != -1 && maxlen >= 2 && old(Pos()) == |fd.stream|
    {
      ghost var was := usrbuf[..];
      var n, length := LineLoop(usrbuf, maxlen);
      ghost var now := usrbuf[..];
      if n > 0 {
        usrbuf[length] := 0;
        assert usrbuf[..] == now[length := 0];
      }
      LineEndExactly(fd.stream, old(Pos()), LineCap(maxlen), Pos());
      TerminatorFollows(was, now, fd.stream, old(Pos()), Pos(), n > 0);
      return n;
    }
  }

  /** The caller's buffer with the terminator rio_readlineb puts behind the line. */
  function Terminated(was: seq<byte>, length: nat, stored: bool): seq<byte> {
    if stored && length < |was| then was[length := 0] else was
  }

  lemma TerminatorFollows(was: seq<byte>, now: seq<byte>, stream: seq<byte>, from: nat, to: nat, stored: bool)
    requires Filled(was, now, stream, from, to) && to - from < |was|
    ensures Filled(Terminated(was, to - from, stored), Terminated(now, to - from, stored), stream, from, to)
  {}

  // ---------------------------------------------------------------- what lines are

  /** The lines that repeated calls of rio_readlineb(rp, buf, maxlen) hand out, where
      cap = maxlen - 1, until the call that returns 0. */
  function Lines(stream: seq<byte>, from: nat, cap: nat): seq<seq<byte>>
    requires from <= |stream| && cap > 0
    decreases |stream| - from
  {
    if from == |stream| then []
    else
      var end := LineEnd(stream, from, cap);
      LineEndExactly(stream, from, cap, end);
      [stream[from..end]] + Lines(stream, end, cap)
  }

  function Joined(parts: seq<seq<byte>>): seq<byte> {
    if parts == [] then [] else parts[0] + Joined(parts[1..])
  }

  /** Every line has at least a byte and at most cap, and only its last byte can be a newline. */
  lemma {:induction false} LinesAreLines(stream: seq<byte>, from: nat, cap: nat, l: seq<byte>)
    requires from <= |stream| && cap > 0 && l in Lines(stream, from, cap)
    ensures 0 < |l| <= cap && forall k :: 0 <= k < |l| - 1 ==> l[k] != NEWLINE
    decreases |stream| - from
  {
    if from < |stream| {
      var end := LineEnd(stream, from, cap);
      LineEndExactly(stream, from, cap, end);
      if l != stream[from..end] {
        LinesAreLines(stream, end, cap, l);
      }
    }
  }

  lemma {:induction false} JoinedAppend(parts: seq<seq<byte>>, last: seq<byte>)
    ensures Joined(parts + [last]) == Joined(parts) + last
  {
    if parts == [] {
      assert [last][1..] == [];
    } else {
      assert (parts + [last])[1..] == parts[1..] + [last];
      JoinedAppend(parts[1..], last);
    }
  }

  /** One call extends what was joined so far by the bytes it put into the caller's buffer. */
  lemma OneMoreAnswer(stream: seq<byte>, answers: seq<seq<byte>>, answer: seq<byte>, from: nat, at: nat, to: nat)
    requires from <= at <= to <= |stream|
    requires Joined(answers) == stream[from..at] && answer == stream[at..to]
    ensures Joined(answers + [answer]) == stream[from..to]
  {
    JoinedAppend(answers, answer);
    assert stream[from..at] + stream[at..to] == stream[from..to];
  }

  // ---------------------------------------------------------------- sequences of calls

  /** rio_readlineb with what it means for a caller that loops on it; `line` is what it left at
      the start of the buffer. */
  method ReadLine(reader: Reader, usrbuf: array<byte>, maxlen: nat) returns (r: int, ghost line: seq<byte>)
    requires reader.Valid() && 2 <= maxlen <= usrbuf.Length && usrbuf != reader.rioBuf
    modifies reader, reader.fd, reader.rioBuf, usrbuf
    ensures reader.Valid() && -1 <= r
    ensures EndedBy(reader.fd.script, old(reader.fd.turn), reader.fd.turn, r == -1)
    ensures old(reader.Pos()) <= reader.Pos() && reader.Pos() - old(reader.Pos()) <= usrbuf.Length
    ensures line == usrbuf[..reader.Pos() - old(reader.Pos())]
                 == reader.fd.stream[old(reader.Pos())..reader.Pos()]
    ensures r > 0 ==>
              && reader.Pos() > old(reader.Pos())
              && reader.Pos() == LineEnd(reader.fd.stream, old(reader.Pos()), maxlen - 1)
    ensures r == 0 ==> reader.Pos() == old(reader.Pos()) == |reader.fd.stream|
  {
    r := reader.Readlineb(usrbuf, maxlen);
    if r != -1 {
      LineEndExactly(reader.fd.stream, old(reader.Pos()), maxlen - 1, reader.Pos());
    }
    line := usrbuf[..reader.Pos() - old(reader.Pos())];
  }

  /** The lines cover the stream from `from` up to `at`. */
  ghost predicate LinesCover(stream: seq<byte>, from: nat, at: nat, cap: nat, lines: seq<seq<byte>>)
    requires cap > 0
  {
    && from <= at <= |stream|
    && Joined(lines) == stream[from..at]
    && lines + Lines(stream, at, cap) == Lines(stream, from, cap)
  }

  lemma NoLinesYet(stream: seq<byte>, from: nat, cap: nat)
    requires from <= |stream| && cap > 0
    ensures LinesCover(stream, from, from, cap, [])
  {
    assert [] + Lines(stream, from, cap) == Lines(stream, from, cap);
  }

  lemma OneMoreLine(
      stream: seq<byte>, from: nat, at: nat, to: nat, cap: nat, lines: seq<seq<byte>>, line: seq<byte>)
    requires cap > 0 && LinesCover(stream, from, at, cap, lines)
    requires at < to <= |stream| && to == LineEnd(stream, at, cap) && line == stream[at..to]
    ensures LinesCover(stream, from, to, cap, lines + [line])
  {
    OneMoreAnswer(stream, lines, line, from, at, to);
    assert Lines(stream, at, cap) == [line] + Lines(stream, to, cap);
    assert lines + ([line] + Lines(stream, to, cap)) == (lines + [line]) + Lines(stream, to, cap);
  }

  lemma SlicesMeet(stream: seq<byte>, from: nat, at: nat, to: nat)
    requires from <= at <= to <= |stream|
    ensures stream[from..at] + stream[at..to] == stream[from..to]
  {}

  lemma AllLines(
      stream: seq<byte>, from: nat, at: nat, to: nat, cap: nat, lines: seq<seq<byte>>, partial: seq<byte>)
    requires cap > 0 && LinesCover(stream, from, at, cap, lines)
    requires at <= to <= |stream| && partial == stream[at..to]
    ensures lines <= Lines(stream, from, cap)
    ensures Joined(lines) + partial == stream[from..to]
    ensures at == |stream| ==>
              partial == [] && lines == Lines(stream, from, cap) && Joined(lines) == stream[from..]
  {
    SlicesMeet(stream, from, at, to);
  }

  /** One round of a caller that collects lines: a line is added, or the call left `partial`. */
  method CollectLine(reader: Reader, usrbuf: array<byte>, maxlen: nat, ghost from: nat, ghost lines: seq<seq<byte>>)
    returns (r: int, ghost longer: seq<seq<byte>>, ghost partial: seq<byte>)
    requires reader.Valid() && 2 <= maxlen <= usrbuf.Length && usrbuf != reader.rioBuf
    requires LinesCover(reader.fd.stream, from, reader.Pos(), maxlen - 1, lines)
    modifies reader, reader.fd, reader.rioBuf, usrbuf
    ensures reader.Valid() && -1 <= r && old(reader.Pos()) <= reader.Pos()
    ensures EndedBy(reader.fd.script, old(reader.fd.turn), reader.fd.turn, r == -1)
    ensures r > 0 ==>
              && reader.Pos() > old(reader.Pos())
              && LinesCover(reader.fd.stream, from, reader.Pos(), maxlen - 1, longer)
    ensures r <= 0 ==> longer == lines && partial == reader.fd.stream[old(reader.Pos())..reader.Pos()]
    ensures r == 0 ==> reader.Pos() == old(reader.Pos()) == |reader.fd.stream|
  {
    ghost var at, line := reader.Pos(), [];
    r, line := ReadLine(reader, usrbuf, maxlen);
    longer, partial := lines, line;
    if r > 0 {
      OneMoreLine(reader.fd.stream, from, at, reader.Pos(), maxlen - 1, lines, line);
      longer := lines + [line];
    }
  }

  /** Call rio_readlineb until it returns 0 or -1, and collect what it left in the buffer. Without
      a hard error these are the lines of the stream, and joined together they are the stream;
      with one they are the lines before it, and `partial` is the start of a line that the failed
      call left in the buffer. */
  method ReadLines(reader: Reader, usrbuf: array<byte>, maxlen: nat)
    returns (ghost lines: seq<seq<byte>>, ghost partial: seq<byte>, last: int)
    requires reader.Valid() && 2 <= maxlen <= usrbuf.Length && usrbuf != reader.rioBuf
    modifies reader, reader.fd, reader.rioBuf, usrbuf
    ensures reader.Valid() && last in {0, -1}
    ensures EndedBy(reader.fd.script, old(reader.fd.turn), reader.fd.turn, last == -1)
    ensures lines <= Lines(reader.fd.stream, old(reader.Pos()), maxlen - 1)
    ensures old(reader.Pos()) <= reader.Pos() <= |reader.fd.stream|
    ensures Joined(lines) + partial == reader.fd.stream[old(reader.Pos())..reader.Pos()]
    ensures last == 0 ==>
              && partial == []
              && lines == Lines(reader.fd.stream, old(reader.Pos()), maxlen - 1)
              && Joined(lines) == reader.fd.stream[old(reader.Pos())..]
  {
    ghost var stream, from, turn := reader.fd.stream, reader.Pos(), reader.fd.turn;
    ghost var at: nat := from;
    NoLinesYet(stream, from, maxlen - 1);
    lines, partial, last := [], [], 1;
    while last > 0
      invariant -1 <= last && reader.Valid() && at <= reader.Pos()
      invariant EndedBy(reader.fd.script, turn, reader.fd.turn, last == -1)
      invariant LinesCover(stream, from, at, maxlen - 1, lines)
      invariant last > 0 ==> reader.Pos() == at
      invariant last <= 0 ==> partial == stream[at..reader.Pos()]
      invariant last == 0 ==> reader.Pos() == at == |stream|
      decreases |stream| - at, last
    {
      last, lines, partial := CollectLine(reader, usrbuf, maxlen, from, lines);
      if last > 0 {
        at := reader.Pos();
      }
    }
    AllLines(stream, from, at, reader.Pos(), maxlen - 1, lines, partial);
  }

  datatype Request = LineRequest(maxlen: nat) | BlockRequest(n: nat)

  /** Bytes the request's buffer must have. */
  function Room(request: Request): nat {
    match request case LineRequest(maxlen) => maxlen case BlockRequest(n) => n
  }

  /** Where a request that meets no hard error leaves the reader. */
  function PosAfter(stream: seq<byte>, from: nat, request: Request): (to: nat)
    requires from <= |stream|
    ensures from <= to <= |stream|
  {
    match request
    case LineRequest(maxlen) => LineEnd(stream, from, LineCap(maxlen))
    case BlockRequest(n) => from + Min(n, |stream| - from)
  }

  /** The answers the requests deserve, one after the other, and where they leave the reader. */
  function Answers(stream: seq<byte>, from: nat, requests: seq<Request>): (r: (seq<seq<byte>>, nat))
    requires from <= |stream|
    ensures from <= r.1 <= |stream|
  {
    if requests == [] then ([], from)
    else
      var (answers, at) := Answers(stream, from, requests[..|requests| - 1]);
      var to := PosAfter(stream, at, requests[|requests| - 1]);
      (answers + [stream[at..to]], to)
  }

  lemma OneMoreRequest(
      stream: seq<byte>, from: nat, requests: seq<Request>, i: nat, answers: seq<seq<byte>>, at: nat, to: nat)
    requires from <= |stream| && i < |requests|
    requires (answers, at) == Answers(stream, from, requests[..i])
    requires to == PosAfter(stream, at, requests[i])
    ensures (answers + [stream[at..to]], to) == Answers(stream, from, requests[..i + 1])
  {
    assert requests[..i + 1][..i] == requests[..i];
  }

  /** The call a request stands for; `bytes` is what it left at the start of the buffer. Even
      after a hard error these are all the bytes the reader has moved past. */
  method Serve(reader: Reader, request: Request, usrbuf: array<byte>) returns (r: int, ghost bytes: seq<byte>)
    requires reader.Valid() && usrbuf != reader.rioBuf && usrbuf.Length > 0
    requires Room(request) <= usrbuf.Length
    modifies reader, reader.fd, reader.rioBuf, usrbuf
    ensures reader.Valid() && EndedBy(reader.fd.script, old(reader.fd.turn), reader.fd.turn, r == -1)
    ensures old(reader.Pos()) <= reader.Pos() && reader.Pos() - old(reader.Pos()) <= usrbuf.Length
    ensures bytes == usrbuf[..reader.Pos() - old(reader.Pos())]
                  == reader.fd.stream[old(reader.Pos())..reader.Pos()]
    ensures r != -1 ==> reader.Pos() == PosAfter(reader.fd.stream, old(reader.Pos()), request)
  {
    match request {
      case LineRequest(maxlen) =>
        r := reader.Readlineb(usrbuf, maxlen);
      case BlockRequest(n) =>
        r := reader.Readnb(usrbuf, n);
    }
    bytes := usrbuf[..reader.Pos() - old(reader.Pos())];
  }

  /** What has been collected so far belongs to the first i requests and reaches up to `at`. */
  ghost predicate Collected(
      stream: seq<byte>, from: nat, requests: seq<Request>, i: nat, answers: seq<seq<byte>>, at: nat)
  {
    && from <= at <= |stream| && |answers| == i <= |requests|
    && (answers, at) == Answers(stream, from, requests[..i])
    && Joined(answers) == stream[from..at]
  }

  /** One round of a caller that serves requests: an answer is added, or the call left `partial`. */
  method CollectAnswer(
      reader: Reader, requests: seq<Request>, i: nat, usrbuf: array<byte>,
      ghost from: nat, ghost answers: seq<seq<byte>>)
    returns (r: int, ghost longer: seq<seq<byte>>, ghost partial: seq<byte>)
    requires reader.Valid() && usrbuf != reader.rioBuf && usrbuf.Length > 0
    requires i < |requests| && Room(requests[i]) <= usrbuf.Length
    requires Collected(reader.fd.stream, from, requests, i, answers, reader.Pos())
    modifies reader, reader.fd, reader.rioBuf, usrbuf
    ensures reader.Valid() && old(reader.Pos()) <= reader.Pos()
    ensures EndedBy(reader.fd.script, old(reader.fd.turn), reader.fd.turn, r == -1)
    ensures r != -1 ==> Collected(reader.fd.stream, from, requests, i + 1, longer, reader.Pos())
    ensures r == -1 ==> longer == answers && partial == reader.fd.stream[old(reader.Pos())..reader.Pos()]
  {
    ghost var at, bytes := reader.Pos(), [];
    r, bytes := Serve(reader, requests[i], usrbuf);
    longer, partial := answers, bytes;
    if r != -1 {
      OneMoreAnswer(reader.fd.stream, answers, bytes, from, at, reader.Pos());
      OneMoreRequest(reader.fd.stream, from, requests, i, answers, at, reader.Pos());
      longer := answers + [bytes];
    }
  }

  lemma AllCollected(
      stream: seq<byte>, from: nat, requests: seq<Request>, i: nat, answers: seq<seq<byte>>,
      at: nat, partial: seq<byte>, to: nat, kernel: nat)
    requires Collected(stream, from, requests, i, answers, at)
    requires at <= to <= kernel <= |stream| && partial == stream[at..to]
    ensures Joined(answers) + partial + stream[to..kernel] + stream[kernel..] == stream[from..]
    ensures i == |requests| ==> (answers, at) == Answers(stream, from, requests)
  {
    SlicesMeet(stream, from, at, to);
    ThreeWaySplit(stream, from, to, kernel);
    assert requests[..|requests|] == requests;
  }

  /** Serve any mix of line and block reads on one rio_t, collecting what every call left in the
      buffer; `partial` is what the call that met a hard error left there. The answers are those
      of the requests before it, and at every outcome the bytes collected, those in the internal
      buffer and those in the kernel make up the stream that was unread at the start, whatever
      the fragmentation. */
  method ServeAll(reader: Reader, requests: seq<Request>, usrbuf: array<byte>)
    returns (ghost answers: seq<seq<byte>>, ghost partial: seq<byte>, ok: bool)
    requires reader.Valid() && usrbuf != reader.rioBuf && usrbuf.Length > 0
    requires forall request :: request in requests ==> Room(request) <= usrbuf.Length
    modifies reader, reader.fd, reader.rioBuf, usrbuf
    ensures reader.Valid() && EndedBy(reader.fd.script, old(reader.fd.turn), reader.fd.turn, !ok)
    ensures old(reader.Pos()) <= reader.Pos() <= reader.fd.pos <= |reader.fd.stream|
    ensures Joined(answers) + partial + reader.Window() + reader.fd.stream[reader.fd.pos..]
            == reader.fd.stream[old(reader.Pos())..]
    ensures |answers| <= |requests|
    ensures answers == Answers(reader.fd.stream, old(reader.Pos()), requests[..|answers|]).0
    ensures ok ==>
              && partial == []
              && (answers, reader.Pos()) == Answers(reader.fd.stream, old(reader.Pos()), requests)
  {
    ghost var stream, from, turn := reader.fd.stream, reader.Pos(), reader.fd.turn;
    ghost var at: nat := from;
    answers, partial, ok := [], [], true;
    var i := 0;
    while ok && i < |requests|
      invariant 0 <= i <= |requests| && reader.Valid() && at <= reader.Pos()
      invariant EndedBy(reader.fd.script, turn, reader.fd.turn, !ok)
      invariant Collected(stream, from, requests, i, answers, at)
      invariant if ok then reader.Pos() == at && partial == [] else partial == stream[at..reader.Pos()]
      decreases |requests| - i, ok
    {
      var r;
      ghost var rest;
      r, answers, rest := CollectAnswer(reader, requests, i, usrbuf, from, answers);
      if r == -1 {
        partial, ok := rest, false;
      } else {
        i, at := i + 1, reader.Pos();
      }
    }
    reader.WindowIsNext();
    AllCollected(stream, from, requests, i, answers, at, partial, reader.Pos(), reader.fd.pos);
  }

  lemma ThreeWaySplit(stream: seq<byte>, from: nat, at: nat, kernel: nat)
    requires from <= at <= kernel <= |stream|
    ensures stream[from..at] + stream[at..kernel] + stream[kernel..] == stream[from..]
  {}
}
