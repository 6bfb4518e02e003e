/** The log append of the proxy's child processes, Assignment3/jwh139-concurrent-proxy/proxy.c:
    open, lock the whole file, seek to the end, write the entry, unlock, close. A child that
    served a GET request goes back to accepting connections, so a child may append any number
    of entries. All calls succeed and every write is complete. `written` records who wrote which
    entry, in order. */
module ProxyLog {
  import opened Options
  import opened Totals
  import opened Transitions

  type Entry = string

  datatype Pc = Open | TakeLock | Seek | Write | DropLock | Close

  /** `todo` holds the entries the child has still to write; each open gives it a new offset. */
  datatype Child = Child(pc: Pc, offset: nat, todo: seq<Entry>)

  datatype State = State(
    file: string,
    owner: Option<nat>,
    children: seq<Child>,
    written: seq<(nat, Entry)>)

  function Initial(file: string, work: seq<seq<Entry>>): State {
    State(file, None, seq(|work|, c requires 0 <= c < |work| => Child(Open, 0, work[c])), [])
  }

  // ---------------------------------------------------------------- the steps

  predicate Enabled(s: State, c: nat) {
    && c < |s.children|
    && (s.children[c].todo != [] || s.children[c].pc in {DropLock, Close})
    && (s.children[c].pc == TakeLock ==> s.owner == None)
  }

  /** write(2) at an offset: overwrites what is there, and fills a gap behind the end with zeros. */
  function Overwrite(file: string, offset: nat, bytes: string): string {
    if bytes == "" then file
    else if offset > |file| then
      file + seq(offset - |file|, _ => '\0') + bytes
    else
      file[..offset] + bytes + if offset + |bytes| < |file| then file[offset + |bytes|..] else []
  }

  function Next(s: State, c: nat): State
    requires Enabled(s, c)
  {
    var me := s.children[c];
    match me.pc
    case Open => Move(s, c, me.(pc := TakeLock, offset := 0))
    case TakeLock => Move(s, c, me.(pc := Seek)).(owner := Some(c))
    case Seek => Move(s, c, me.(pc := Write, offset := |s.file|))
    case Write =>
      Move(s, c, Child(DropLock, me.offset + |me.todo[0]|, me.todo[1..]))
      .(file := Overwrite(s.file, me.offset, me.todo[0]), written := s.written + [(c, me.todo[0])])
    case DropLock => Move(s, c, me.(pc := Close)).(owner := None)
    case Close => Move(s, c, me.(pc := Open))
  }

  function Move(s: State, c: nat, me: Child): State
    requires c < |s.children|
  {
    s.(children := s.children[c := me])
  }

  ghost predicate Step(s: State, s': State) {
    exists c :: Enabled(s, c) && s' == Next(s, c)
  }

  /** A turn of the scheduler for a child: its next step, or nothing if it is blocked. */
  function Turn(s: State, c: nat): State {
    if Enabled(s, c) then Next(s, c) else s
  }

  // ---------------------------------------------------------------- the invariant

  /** The entries written so far, end to end. */
  function Joined(written: seq<(nat, Entry)>): string {
    if written == [] then "" else Joined(written[..|written| - 1]) + written[|written| - 1].1
  }

  /** The entries child c has written so far, in order. */
  function By(written: seq<(nat, Entry)>, c: nat): seq<Entry> {
    if written == [] then []
    else
      var (who, entry) := written[|written| - 1];
      By(written[..|written| - 1], c) + if who == c then [entry] else []
  }

  predicate HoldsLock(me: Child) {
    me.pc in {Seek, Write, DropLock}
  }

  ghost predicate LockInv(s: State) {
    && (s.owner.Some? ==> s.owner.value < |s.children| && HoldsLock(s.children[s.owner.value]))
    && (forall c :: 0 <= c < |s.children| && HoldsLock(s.children[c]) ==> s.owner == Some(c))
  }

  /** A holder between its seek and its write stands exactly at the end of the file. */
  ghost predicate ChildInv(s: State, me: Child) {
    && (me.pc == Write ==> me.offset == |s.file|)
    && (me.pc in {TakeLock, Seek, Write} ==> me.todo != [])
  }

  ghost predicate InvFor(file: string, work: seq<seq<Entry>>, s: State) {
    && |s.children| == |work|
    && LockInv(s)
    && (forall c :: 0 <= c < |s.children| ==> ChildInv(s, s.children[c]))
    && s.file == file + Joined(s.written)
    && (forall c :: 0 <= c < |work| ==> By(s.written, c) + s.children[c].todo == work[c])
  }

  lemma WriteAtEndAppends(file: string, bytes: string)
    ensures Overwrite(file, |file|, bytes) == file + bytes
  {}

  /** A write changes the bytes it covers and no other, and never shortens the file. */
  lemma OverwriteChangesOnlyItsBytes(file: string, offset: nat, bytes: string, k: nat)
    requires bytes != ""
    ensures |Overwrite(file, offset, bytes)| == if offset + |bytes| > |file| then offset + |bytes| else |file|
    ensures offset <= k < offset + |bytes| ==> Overwrite(file, offset, bytes)[k] == bytes[k - offset]
    ensures k < |file| && !(offset <= k < offset + |bytes|) ==> Overwrite(file, offset, bytes)[k] == file[k]
    ensures |file| <= k < offset ==> Overwrite(file, offset, bytes)[k] == '\0'
  {}

  lemma OneMoreEntry(written: seq<(nat, Entry)>, c: nat, entry: Entry, d: nat)
    ensures Joined(written + [(c, entry)]) == Joined(written) + entry
    ensures By(written + [(c, entry)], d) == By(written, d) + if c == d then [entry] else []
  {
    assert (written + [(c, entry)])[..|written|] == written;
  }

  lemma WriteKeepsInv(file: string, work: seq<seq<Entry>>, s: State, c: nat)
    requires InvFor(file, work, s) && Enabled(s, c) && s.children[c].pc == Write
    ensures InvFor(file, work, Next(s, c))
  {
    var s' := Next(s, c);
    var entry := s.children[c].todo[0];
    assert ChildInv(s, s.children[c]);
    WriteAtEndAppends(s.file, entry);
    OneMoreEntry(s.written, c, entry, c);
    assert file + Joined(s.written) + entry == file + (Joined(s.written) + entry);
    forall d | 0 <= d < |work| ensures By(s'.written, d) + s'.children[d].todo == work[d] {
      OneMoreEntry(s.written, c, entry, d);
      assert By(s.written, d) + s.children[d].todo == work[d];
    }
  }

  lemma StepKeepsInv(file: string, work: seq<seq<Entry>>, s: State, c: nat)
    requires InvFor(file, work, s) && Enabled(s, c)
    ensures InvFor(file, work, Next(s, c))
  {
    if s.children[c].pc == Write {
      WriteKeepsInv(file, work, s, c);
    } else {
      var s' := Next(s, c);
      assert ChildInv(s, s.children[c]);
      forall d | 0 <= d < |work|
        ensures ChildInv(s', s'.children[d]) && By(s'.written, d) + s'.children[d].todo == work[d]
      {
        assert ChildInv(s, s.children[d]) && By(s.written, d) + s.children[d].todo == work[d];
      }
    }
  }

  /** The file changes only in the hands of the owner of the lock, by one whole entry at its end,
      and a child that turns to its next entry has given the lock back. */
  lemma EffectsInOrder(file: string, work: seq<seq<Entry>>, s: State, c: nat)
    requires InvFor(file, work, s) && Enabled(s, c)
    ensures var s' := Next(s, c);
            && (s'.written != s.written || s'.file != s.file ==>
                  && s.owner == s'.owner == Some(c) && s.children[c].todo != []
                  && s'.file == s.file + s.children[c].todo[0]
                  && s'.written == s.written + [(c, s.children[c].todo[0])])
            && (s'.children[c].pc == Open ==> s'.owner != Some(c))
  {
    assert ChildInv(s, s.children[c]);
    if s.children[c].pc == Write {
      WriteAtEndAppends(s.file, s.children[c].todo[0]);
    }
  }

  // ---------------------------------------------------------------- whole runs

  lemma NeverStuck(file: string, work: seq<seq<Entry>>, s: State)
    requires InvFor(file, work, s) && forall c: nat :: !Enabled(s, c)
    ensures forall c :: 0 <= c < |work| ==> By(s.written, c) == work[c]
  {
    if s.owner.Some? {
      assert Enabled(s, s.owner.value);
    }
    forall c: nat | c < |work| ensures By(s.written, c) == work[c] {
      assert ChildInv(s, s.children[c]) && !Enabled(s, c);
      assert By(s.written, c) + s.children[c].todo == work[c];
    }
  }

  /** Six steps for every entry, counted from the open of the file. */
  function ChildSteps(me: Child): nat {
    var rounds := 6 * |me.todo|;
    match me.pc
    case Open => rounds
    case TakeLock => if rounds >= 1 then rounds - 1 else 0
    case Seek => if rounds >= 2 then rounds - 2 else 0
    case Write => if rounds >= 3 then rounds - 3 else 0
    case DropLock => rounds + 2
    case Close => rounds + 1
  }

  function StepsLeft(s: State): int {
    Total(s.children, ChildSteps)
  }

  lemma StepCostsOne(file: string, work: seq<seq<Entry>>, s: State, c: nat)
    requires InvFor(file, work, s) && Enabled(s, c)
    ensures StepsLeft(Next(s, c)) == StepsLeft(s) - 1
  {
    assert ChildInv(s, s.children[c]);
    TotalAfterUpdate(s.children, c, Next(s, c).children[c], ChildSteps);
  }

  lemma RunKeepsInv(file: string, work: seq<seq<Entry>>, states: seq<State>, k: nat)
    requires Run(Initial(file, work), Step, states) && k < |states|
    ensures InvFor(file, work, states[k])
  {
    var s0 := Initial(file, work);
    assert InvFor(file, work, s0) by {
      assert s0.file + "" == s0.file;
    }
    forall s, s' | InvFor(file, work, s) && Step(s, s') ensures InvFor(file, work, s') {
      var c :| Enabled(s, c) && s' == Next(s, c);
      StepKeepsInv(file, work, s, c);
    }
    InvariantAlongRun(s0, Step, (s: State) => InvFor(file, work, s), states, k);
  }

  /** With any number of children logging at once, the log is at every moment what it was at the
      start followed by the whole entries written so far, and each child's entries appear in its
      own order, each once. A run is never longer than six steps per entry, and a run that
      cannot be extended has logged everything. */
  lemma EveryRunLogsWholeEntries(file: string, work: seq<seq<Entry>>, states: seq<State>, k: nat)
    requires Run(Initial(file, work), Step, states) && k < |states|
    ensures states[k].file == file + Joined(states[k].written)
    ensures forall c :: 0 <= c < |work| ==> By(states[k].written, c) <= work[c]
    ensures k <= StepsLeft(Initial(file, work))
    ensures (forall c: nat :: !Enabled(states[k], c)) ==>
              forall c :: 0 <= c < |work| ==> By(states[k].written, c) == work[c]
  {
    var s0 := Initial(file, work);
    var inv := (s: State) => InvFor(file, work, s);
    forall s, s' | InvFor(file, work, s) && Step(s, s')
      ensures InvFor(file, work, s') && StepsLeft(s') < StepsLeft(s)
    {
      var c :| Enabled(s, c) && s' == Next(s, c);
      StepKeepsInv(file, work, s, c);
      StepCostsOne(file, work, s, c);
    }
    assert InvFor(file, work, s0) by {
      assert s0.file + "" == s0.file;
    }
    InvariantAlongRun(s0, Step, inv, states, k);
    MeasureBoundsRun(s0, Step, inv, StepsLeft, states, k);
    if forall c: nat :: !Enabled(states[k], c) {
      NeverStuck(file, work, states[k]);
    }
    forall c | 0 <= c < |work| ensures By(states[k].written, c) <= work[c] {
      assert By(states[k].written, c) + states[k].children[c].todo == work[c];
    }
  }

  /** A child that has an entry to write, or a lock or descriptor to give back, waits exactly at
      the lock while another child holds it. */
  lemma EveryStateWaitsExactly(file: string, work: seq<seq<Entry>>, states: seq<State>, k: nat, c: nat)
    requires Run(Initial(file, work), Step, states) && k < |states|
    ensures var s := states[k];
            && |s.children| == |work|
            && (Enabled(s, c) <==>
                  && c < |work| && (|By(s.written, c)| < |work[c]| || s.children[c].pc in {DropLock, Close})
                  && (s.children[c].pc == TakeLock ==>
                        forall d :: 0 <= d < |work| ==> !HoldsLock(s.children[d])))
  {
    RunKeepsInv(file, work, states, k);
    var s := states[k];
    if c < |work| {
      assert By(s.written, c) + s.children[c].todo == work[c];
      assert |By(s.written, c)| + |s.children[c].todo| == |work[c]|;
    }
  }

  // ---------------------------------------------------------------- the same steps in place

  /** proxy.log and the children's positions as mutable state. */
  class LogFile {
    var file: string
    var owner: Option<nat>
    var children: seq<Child>
    /** Who wrote which entry, in order. */
    var written: seq<(nat, Entry)>

    function View(): State
      reads this
    {
      State(file, owner, children, written)
    }

    constructor (file: string, work: seq<seq<Entry>>)
      ensures View() == Initial(file, work)
    {
      this.file := file;
      owner := None;
      children := seq(|work|, c requires 0 <= c < |work| => Child(Open, 0, work[c]));
      written := [];
    }

    method ChildStep(c: nat)
      requires Enabled(View(), c)
      modifies this
      ensures View() == Next(old(View()), c)
    {
      var me := children[c];
      match me.pc {
        case Open =>
          me := me.(pc := TakeLock, offset := 0);
        case TakeLock =>
          owner := Some(c);
          me := me.(pc := Seek);
        case Seek =>
          me := me.(pc := Write, offset := |file|);
        case Write =>
          var entry := me.todo[0];
          file := Overwrite(file, me.offset, entry);
          written := written + [(c, entry)];
          me := Child(DropLock, me.offset + |entry|, me.todo[1..]);
        case DropLock =>
          owner := None;
          me := me.(pc := Close);
        case Close =>
          me := me.(pc := Open);
      }
      children := children[c := me];
    }
  }

  /** A scheduler: give each child of the schedule its turn if it is not blocked. Whatever the
      schedule, the log is its initial contents followed by whole entries, and once nobody can
      move every child's entries are in it, each once and in its own order. */
  method RunSchedule(file: string, work: seq<seq<Entry>>, schedule: seq<nat>)
    returns (log: LogFile, ghost states: seq<State>)
    ensures log.View() == After(Initial(file, work), Turn, schedule)
    ensures Run(Initial(file, work), Step, states) && states[|states| - 1] == log.View()
    ensures log.file == file + Joined(log.written)
    ensures forall c :: 0 <= c < |work| ==> By(log.written, c) <= work[c]
    ensures (forall c: nat :: !Enabled(log.View(), c)) ==>
              forall c :: 0 <= c < |work| ==> By(log.written, c) == work[c]
  {
    log := new LogFile(file, work);
    states := [log.View()];
    for k := 0 to |schedule|
      invariant fresh(log) && log.View() == After(Initial(file, work), Turn, schedule[..k])
      invariant Run(Initial(file, work), Step, states) && states[|states| - 1] == log.View()
    {
      NextTurn(Initial(file, work), Turn, schedule, k);
      if Enabled(log.View(), schedule[k]) {
        ghost var before := log.View();
        log.ChildStep(schedule[k]);
        assert Step(before, log.View());
        RunExtends(Initial(file, work), Step, states, log.View());
        states := states + [log.View()];
      }
    }
    assert schedule[..|schedule|] == schedule;
    EveryRunLogsWholeEntries(file, work, states, |states| - 1);
  }
}
