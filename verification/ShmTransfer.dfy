/** The transfer of poshm_xfr_writer.c and poshm_xfr_reader.c: two processes that take turns on a shared
    segment, with two semaphores used through reserveSem() and releaseSem(). */
module ShmTransfer {

  import opened Common

  type Byte = bv8

  /** The statement that the writer executes next. */
  datatype Writer =
    | Reserving | Filling | Releasing | Testing | Adding | LastReserving | Removing | Unlinking | WriterDone

  /** The statement that the reader executes next. */
  datatype Reader =
    | Awaiting | Checking | Summing | Writing | Returning | Counting | LastReturning | ReaderDone

  /** `failed` says that a semaphore operation met a removed set, which ends its program. */
  datatype State = State(
    unread: seq<Byte>, output: seq<Byte>,
    cnt: int, buf: seq<Byte>,
    writeSem: nat, readSem: nat, removed: bool, failed: bool,
    writer: Writer, sentBytes: int, sentBlocks: int,
    reader: Reader, gotBytes: int, gotBlocks: int)

  /** `Fill(k)` is the read() that takes `k` bytes. `Interrupt` is a semop() that a signal cuts short:
      reserveSem() starts it again. */
  datatype Step = Fill(k: nat) | WriterStep | ReaderStep | Interrupt

  function Start(input: seq<Byte>, buf: seq<Byte>): State {
    State(input, [], 0, buf, 1, 0, false, false, Reserving, 0, 0, Awaiting, 0, 0)
  }

  /** A reservation waits while the semaphore is zero. */
  predicate WriterCan(s: State) {
    match s.writer
    case Reserving => s.removed || s.writeSem > 0
    case LastReserving => s.removed || s.writeSem > 0
    case Filling => false
    case WriterDone => false
    case _ => true
  }

  predicate ReaderCan(s: State) {
    match s.reader
    case Awaiting => s.removed || s.readSem > 0
    case ReaderDone => false
    case _ => true
  }

  /** read() returns nothing only at the end of the input. */
  predicate Enabled(s: State, st: Step) {
    !s.failed &&
    match st
    case Fill(k) => s.writer == Filling && k <= |s.unread| && k <= |s.buf| && (k == 0 <==> s.unread == [])
    case WriterStep => WriterCan(s)
    case ReaderStep => ReaderCan(s)
    case Interrupt => s.writer == Reserving || s.writer == LastReserving || s.reader == Awaiting
  }

  function AfterWriter(s: State): State
    requires Enabled(s, WriterStep)
  {
    match s.writer
    case Reserving =>
      if s.removed then s.(failed := true) else s.(writeSem := s.writeSem - 1, writer := Filling)
    case Releasing =>
      if s.removed then s.(failed := true) else s.(readSem := s.readSem + 1, writer := Testing)
    case Testing => s.(writer := if s.cnt == 0 then LastReserving else Adding)
    case Adding => s.(sentBlocks := s.sentBlocks + 1, sentBytes := s.sentBytes + s.cnt, writer := Reserving)
    case LastReserving =>
      if s.removed then s.(failed := true) else s.(writeSem := s.writeSem - 1, writer := Removing)
    case Removing => s.(removed := true, writer := Unlinking)
    case Unlinking => s.(writer := WriterDone)
  }

  function AfterReader(s: State): State
    requires Enabled(s, ReaderStep) && 0 <= s.cnt <= |s.buf|
  {
    match s.reader
    case Awaiting =>
      if s.removed then s.(failed := true) else s.(readSem := s.readSem - 1, reader := Checking)
    case Checking => s.(reader := if s.cnt == 0 then LastReturning else Summing)
    case Summing => s.(gotBytes := s.gotBytes + s.cnt, reader := Writing)
    case Writing => s.(output := s.output + s.buf[..s.cnt], reader := Returning)
    case Returning =>
      if s.removed then s.(failed := true) else s.(writeSem := s.writeSem + 1, reader := Counting)
    case Counting => s.(gotBlocks := s.gotBlocks + 1, reader := Awaiting)
    case LastReturning =>
      if s.removed then s.(failed := true) else s.(writeSem := s.writeSem + 1, reader := ReaderDone)
  }

  function After(s: State, st: Step): (s': State)
    requires Enabled(s, st) && 0 <= s.cnt <= |s.buf|
    ensures 0 <= s'.cnt <= |s'.buf|
  {
    match st
    case Fill(k) =>
      s.(cnt := k, buf := s.unread[..k] + s.buf[k..], unread := s.unread[k..], writer := Releasing)
    case WriterStep => AfterWriter(s)
    case ReaderStep => AfterReader(s)
    case Interrupt => s
  }

  predicate Legal(s: State, steps: seq<Step>)
    requires 0 <= s.cnt <= |s.buf|
    decreases |steps|
  {
    steps == [] || (Enabled(s, steps[0]) && Legal(After(s, steps[0]), steps[1..]))
  }

  function End(s: State, steps: seq<Step>): (s': State)
    requires 0 <= s.cnt <= |s.buf| && Legal(s, steps)
    ensures 0 <= s'.cnt <= |s'.buf|
    decreases |steps|
  {
    if steps == [] then s else End(After(s, steps[0]), steps[1..])
  }

  // ---- whose turn it is ----

  /** The writer may touch the segment or the set. */
  predicate WriterHolds(s: State) {
    || s.writer == Filling || s.writer == Releasing
    || s.writer == Removing || s.writer == Unlinking || s.writer == WriterDone
  }

  predicate ReaderHolds(s: State) {
    || s.reader == Checking || s.reader == Summing || s.reader == Writing
    || s.reader == Returning || s.reader == LastReturning
  }

  /** There is one turn: it is held by one side or kept in one semaphore. */
  predicate OneTurn(s: State) {
    s.writeSem + s.readSem + One(WriterHolds(s)) + One(ReaderHolds(s)) == 1
  }

  /** The writer has filled the segment for the last time. */
  predicate Last(s: State) {
    s.writer == LastReserving || s.writer == Removing || s.writer == Unlinking || s.writer == WriterDone
  }

  /** How the two places in the programs go together with the count. */
  predicate InStep(s: State) {
    && (Last(s) ==> s.cnt == 0 && s.unread == [])
    && ((s.writer == Releasing || s.writer == Testing) && s.cnt == 0 ==> s.unread == [])
    && (s.writer == Adding ==> s.cnt > 0)
    && (s.reader == Summing || s.reader == Writing || s.reader == Returning ==> s.cnt > 0)
    && (s.reader == LastReturning || s.reader == ReaderDone ==> s.cnt == 0 && (Last(s) || s.writer == Testing))
    && (s.reader == ReaderDone ==> s.readSem == 0)
    && (s.cnt == 0 && (s.readSem > 0 || ReaderHolds(s)) ==> Last(s) || s.writer == Testing)
    && ((Last(s) || s.writer == Testing) && s.cnt == 0 && (s.writeSem > 0 || WriterHolds(s)) ==> s.reader == ReaderDone)
  }

  predicate SetIsThere(s: State) {
    !s.failed && (s.removed <==> s.writer == Unlinking || s.writer == WriterDone)
  }

  // ---- what is where ----

  /** The segment holds a block that has not been written out. */
  predicate InTransit(s: State) {
    s.writer == Releasing || s.readSem > 0 || s.reader == Checking || s.reader == Summing || s.reader == Writing
  }

  function Transit(s: State): seq<Byte>
    requires 0 <= s.cnt <= |s.buf|
  {
    if InTransit(s) then s.buf[..s.cnt] else []
  }

  predicate Conserved(s: State, input: seq<Byte>)
    requires 0 <= s.cnt <= |s.buf|
  {
    s.output + Transit(s) + s.unread == input
  }

  /** The writer has filled the segment and not yet added the count up. */
  predicate ToAdd(s: State) {
    s.writer == Releasing || s.writer == Testing || s.writer == Adding
  }

  predicate BytesAgree(s: State, input: seq<Byte>) {
    && s.sentBytes + (if ToAdd(s) then s.cnt else 0) + |s.unread| == |input|
    && s.gotBytes == |s.output| + (if s.reader == Writing then s.cnt else 0)
  }

  predicate BlocksAgree(s: State) {
    s.sentBlocks + One(ToAdd(s) && s.cnt > 0) ==
    s.gotBlocks + One(s.reader == Returning || s.reader == Counting) + One(InTransit(s) && s.cnt > 0)
  }

  ghost predicate Inv(s: State, input: seq<Byte>) {
    && |s.buf| > 0 && 0 <= s.cnt <= |s.buf|
    && OneTurn(s) && InStep(s) && SetIsThere(s)
    && Conserved(s, input) && BytesAgree(s, input) && BlocksAgree(s)
  }

  lemma StepTurn(s: State, st: Step, input: seq<Byte>)
    requires Inv(s, input) && Enabled(s, st)
    ensures OneTurn(After(s, st)) && SetIsThere(After(s, st))
  {
    hide Conserved, BytesAgree, BlocksAgree;
  }

  lemma StepInStep(s: State, st: Step, input: seq<Byte>)
    requires Inv(s, input) && Enabled(s, st)
    ensures InStep(After(s, st))
  {
    hide Conserved, BytesAgree, BlocksAgree;
  }

  /** Only read() and write() move data. */
  predicate MovesData(s: State, st: Step) {
    st.Fill? || (st == ReaderStep && s.reader == Writing)
  }

  lemma TransitStays(s: State, st: Step, input: seq<Byte>)
    requires Inv(s, input) && Enabled(s, st) && !MovesData(s, st)
    ensures var s' := After(s, st);
      s'.output == s.output && s'.unread == s.unread && s'.buf == s.buf && Transit(s') == Transit(s)
  {
    hide Conserved, BytesAgree, BlocksAgree;
    assert s.buf[..0] == [];
  }

  lemma StepConserved(s: State, st: Step, input: seq<Byte>)
    requires Inv(s, input) && Enabled(s, st)
    ensures Conserved(After(s, st), input) && |After(s, st).buf| == |s.buf|
  {
    hide BytesAgree, BlocksAgree, InStep;
    if MovesData(s, st) {
      var s' := After(s, st);
      assert st.Fill? ==> s'.buf[..st.k] == s.unread[..st.k] && s.unread == s'.buf[..st.k] + s'.unread;
    } else {
      hide Transit, After;
      TransitStays(s, st, input);
    }
  }

  lemma StepAgree(s: State, st: Step, input: seq<Byte>)
    requires Inv(s, input) && Enabled(s, st)
    ensures BytesAgree(After(s, st), input) && BlocksAgree(After(s, st))
  {
    hide Conserved;
  }

  lemma StepKeeps(s: State, st: Step, input: seq<Byte>)
    requires Inv(s, input) && Enabled(s, st)
    ensures Inv(After(s, st), input)
  {
    hide OneTurn, InStep, SetIsThere, Conserved, BytesAgree, BlocksAgree, After;
    StepTurn(s, st, input);
    StepInStep(s, st, input);
    StepConserved(s, st, input);
    StepAgree(s, st, input);
  }

  lemma {:induction false} RunKeeps(s: State, steps: seq<Step>, input: seq<Byte>)
    requires Inv(s, input) && Legal(s, steps)
    ensures Inv(End(s, steps), input)
    decreases |steps|
  {
    hide OneTurn, InStep, SetIsThere, Conserved, BytesAgree, BlocksAgree, After;
    if steps != [] {
      StepKeeps(s, steps[0], input);
      RunKeeps(After(s, steps[0]), steps[1..], input);
    }
  }

  // ---- both programs end ----

  function WriterRank(s: State): nat {
    match s.writer
    case Reserving => 7
    case Filling => 6
    case Releasing => if s.cnt > 0 then 10 else 5
    case Testing => if s.cnt > 0 then 9 else 4
    case Adding => 8
    case LastReserving => 3
    case Removing => 2
    case Unlinking => 1
    case WriterDone => 0
  }

  function ReaderRank(s: State): nat {
    match s.reader
    case Awaiting => 3
    case Checking => 2
    case Summing => 1
    case Writing => 0
    case Returning => 5
    case Counting => 4
    case LastReturning => 1
    case ReaderDone => 0
  }

  /** An upper bound on the steps that are left, interruptions aside. */
  function Work(s: State): nat {
    11 * |s.unread| + WriterRank(s) + ReaderRank(s) + 6 * One(InTransit(s) && s.cnt > 0)
  }

  lemma StepWork(s: State, st: Step, input: seq<Byte>)
    requires Inv(s, input) && Enabled(s, st)
    ensures Work(After(s, st)) + One(st != Interrupt) <= Work(s)
  {
    hide Conserved, BytesAgree, BlocksAgree;
  }

  /** The steps of a run that are not interruptions. */
  function Moves(steps: seq<Step>): nat {
    if steps == [] then 0 else One(steps[0] != Interrupt) + Moves(steps[1..])
  }

  lemma {:induction false} RunWork(s: State, steps: seq<Step>, input: seq<Byte>)
    requires Inv(s, input) && Legal(s, steps)
    ensures Moves(steps) + Work(End(s, steps)) <= Work(s)
    decreases |steps|
  {
    hide Work, OneTurn, InStep, SetIsThere, Conserved, BytesAgree, BlocksAgree, After;
    if steps != [] {
      StepWork(s, steps[0], input);
      StepKeeps(s, steps[0], input);
      RunWork(After(s, steps[0]), steps[1..], input);
    }
  }

  /** The blocks that the run's calls of read() have brought in. */
  function Blocks(steps: seq<Step>): nat {
    if steps == [] then 0 else One(steps[0].Fill? && steps[0].k > 0) + Blocks(steps[1..])
  }

  lemma StepBlocks(s: State, st: Step, input: seq<Byte>)
    requires Inv(s, input) && Enabled(s, st)
    ensures var s' := After(s, st);
      s'.sentBlocks + One(ToAdd(s') && s'.cnt > 0) ==
      s.sentBlocks + One(ToAdd(s) && s.cnt > 0) + One(st.Fill? && st.k > 0)
  {
    hide Conserved, BytesAgree, BlocksAgree, OneTurn;
  }

  lemma {:induction false} RunBlocks(s: State, steps: seq<Step>, input: seq<Byte>)
    requires Inv(s, input) && Legal(s, steps)
    ensures var t := End(s, steps);
      t.sentBlocks + One(ToAdd(t) && t.cnt > 0) == s.sentBlocks + One(ToAdd(s) && s.cnt > 0) + Blocks(steps)
    decreases |steps|
  {
    hide OneTurn, InStep, SetIsThere, Conserved, BytesAgree, BlocksAgree, After;
    if steps != [] {
      StepBlocks(s, steps[0], input);
      StepKeeps(s, steps[0], input);
      RunBlocks(After(s, steps[0]), steps[1..], input);
    }
  }

  predicate BothDone(s: State) {
    s.writer == WriterDone && s.reader == ReaderDone
  }

  /** One of the two can always go on until both have ended. */
  lemma NeverStuck(s: State, input: seq<Byte>) returns (st: Step)
    requires Inv(s, input) && !BothDone(s)
    ensures st != Interrupt && Enabled(s, st)
  {
    hide Conserved, BytesAgree, BlocksAgree;
    if s.writer == Filling {
      st := Fill(if |s.unread| < |s.buf| then |s.unread| else |s.buf|);
    } else {
      st := if Enabled(s, WriterStep) then WriterStep else ReaderStep;
    }
  }

  lemma StartInv(input: seq<Byte>, buf: seq<Byte>)
    requires buf != []
    ensures Inv(Start(input, buf), input) && Work(Start(input, buf)) == 11 * |input| + 10
  {
  }

  lemma Outcome(s: State, input: seq<Byte>)
    requires Inv(s, input)
    ensures !(WriterHolds(s) && ReaderHolds(s)) && s.output + Transit(s) + s.unread == input
    ensures !s.failed && (s.removed ==> s.reader == ReaderDone)
    ensures BothDone(s) ==>
              s.output == input && s.sentBytes == s.gotBytes == |input| && s.sentBlocks == s.gotBlocks
  {
  }

  /** For every input, every segment size and every interleaving, and whatever number of bytes each
      read() returns: the two sides never hold the turn together; what is written, in transit and
      unread is the input; the semaphore set is removed only after the reader's last use of it and of
      the segment, so that no operation fails; no reachable state is stuck; every run is finite but for
      interruptions; and when both programs have ended the output is the input, both have counted its
      bytes, and both have counted the blocks that read() brought in. */
  lemma TransferIsExact(input: seq<Byte>, buf: seq<Byte>, steps: seq<Step>)
    requires buf != [] && Legal(Start(input, buf), steps)
    ensures Moves(steps) <= 11 * |input| + 10
    ensures var s := End(Start(input, buf), steps);
      && !(WriterHolds(s) && ReaderHolds(s))
      && s.output + Transit(s) + s.unread == input
      && !s.failed && (s.removed ==> s.reader == ReaderDone)
      && (!BothDone(s) ==> exists st :: st != Interrupt && Enabled(s, st))
      && (BothDone(s) ==>
            s.output == input && s.sentBytes == s.gotBytes == |input| && s.sentBlocks == s.gotBlocks == Blocks(steps))
  {
    StartInv(input, buf);
    RunBlocks(Start(input, buf), steps, input);
    hide Inv, Work, Enabled, After, Blocks;
    RunKeeps(Start(input, buf), steps, input);
    RunWork(Start(input, buf), steps, input);
    var s := End(Start(input, buf), steps);
    Outcome(s, input);
    if !BothDone(s) {
      var st := NeverStuck(s, input);
    }
  }

  // ---- the two programs ----

  lemma Forward(s: State, st: Step, input: seq<Byte>)
    requires Inv(s, input) && Enabled(s, st) && st != Interrupt
    ensures Inv(After(s, st), input) && Work(After(s, st)) < Work(s)
  {
    hide Inv, Work, After;
    StepKeeps(s, st, input);
    StepWork(s, st, input);
  }

  datatype Side = TheWriter | TheReader

  /** The side is about to wait for its semaphore. */
  predicate AtGate(s: State, me: Side) {
    match me
    case TheWriter => s.writer == Reserving || s.writer == LastReserving
    case TheReader => s.reader == Awaiting
  }

  predicate OtherCan(s: State, me: Side) {
    match me
    case TheWriter => ReaderCan(s)
    case TheReader => s.writer == Filling || WriterCan(s)
  }

  /** A side that waits is waiting for the other one, and the set is there. */
  lemma Blocked(s: State, me: Side, input: seq<Byte>)
    requires Inv(s, input) && AtGate(s, me)
    ensures !s.removed && !s.failed && 0 <= s.cnt <= |s.buf| && |s.buf| > 0
    ensures (if me == TheWriter then s.writeSem == 0 else s.readSem == 0) ==> OtherCan(s, me)
  {
    hide Conserved, BytesAgree, BlocksAgree;
    var st := NeverStuck(s, input);
  }

  /** A side that does not wait can go on, and the set is there until the writer removes it. */
  lemma Proceeds(s: State, input: seq<Byte>)
    requires Inv(s, input)
    ensures 0 <= s.cnt <= |s.buf| && |s.buf| > 0 && !s.failed
    ensures s.removed ==> s.writer == Unlinking || s.writer == WriterDone
    ensures s.removed ==> s.reader == ReaderDone
    ensures s.writer == Adding ==> s.cnt > 0
  {
    hide Conserved, BytesAgree, BlocksAgree;
  }

  lemma WriterEnds(s: State, input: seq<Byte>)
    requires Inv(s, input) && s.writer == WriterDone
    ensures s.reader == ReaderDone && s.removed && s.unread == [] && s.output == input
    ensures s.sentBytes == |input| == s.gotBytes && s.sentBlocks == s.gotBlocks
  {
  }

  lemma ReaderEnds(s: State, input: seq<Byte>)
    requires Inv(s, input) && s.reader == ReaderDone
    ensures s.output == input && s.gotBytes == |input|
  {
    assert s.buf[..0] == [];
  }

  class Transfer {
    ghost const input: seq<Byte>
    var unread: seq<Byte>
    var output: seq<Byte>
    var cnt: int
    var buf: seq<Byte>
    var writeSem: nat
    var readSem: nat
    var removed: bool
    var writer: Writer
    var sentBytes: int
    var sentBlocks: int
    var reader: Reader
    var gotBytes: int
    var gotBlocks: int
      // how many signals there are still to come
    var signals: nat

    function View(): State
      reads this
    {
      State(unread, output, cnt, buf, writeSem, readSem, removed, false,
            writer, sentBytes, sentBlocks, reader, gotBytes, gotBlocks)
    }

    ghost predicate Valid()
      reads this
    {
      Inv(View(), input)
    }

    constructor (input: seq<Byte>, buf: seq<Byte>, signals: nat)
      requires buf != []
      ensures Valid() && View() == Start(input, buf) && this.input == input
    {
      this.input, unread, output, cnt, this.buf := input, input, [], 0, buf;
      writeSem, readSem, removed, this.signals := 1, 0, false, signals;
      writer, sentBytes, sentBlocks := Reserving, 0, 0;
      reader, gotBytes, gotBlocks := Awaiting, 0, 0;
    }

    /** The side is where it was. */
    twostate predicate Untouched(me: Side)
      reads this
    {
      && signals == old(signals)
      && match me
         case TheWriter => writer == old(writer)
         case TheReader => reader == old(reader)
    }

    method Adopt(s: State)
      requires !s.failed
      modifies this
      ensures View() == s && signals == old(signals)
    {
      writer, sentBytes, sentBlocks := s.writer, s.sentBytes, s.sentBlocks;
      reader, gotBytes, gotBlocks := s.reader, s.gotBytes, s.gotBlocks;
      AdoptShared(s);
    }

    method AdoptShared(s: State)
      modifies this`unread, this`output, this`cnt, this`buf, this`writeSem, this`readSem, this`removed
      ensures unread == s.unread && output == s.output && cnt == s.cnt && buf == s.buf
      ensures writeSem == s.writeSem && readSem == s.readSem && removed == s.removed
    {
      unread, output, cnt, buf, writeSem, readSem := s.unread, s.output, s.cnt, s.buf, s.writeSem, s.readSem;
      removed := s.removed;
    }

    /** The other side executes a statement. */
    method OtherStep(me: Side)
      requires Valid() && OtherCan(View(), me)
      modifies this
      ensures Valid() && Untouched(me) && Work(View()) < old(Work(View()))
    {
      hide Inv, Work;
      Proceeds(View(), input);
      if me == TheWriter {
        Forward(View(), ReaderStep, input);
        Proceeds(After(View(), ReaderStep), input);
        Adopt(After(View(), ReaderStep));
      } else if writer == Filling {
        var most := if |unread| < |buf| then |unread| else |buf|;
        var k :| (if most == 0 then 0 else 1) <= k <= most;
        Forward(View(), Fill(k), input);
        Adopt(After(View(), Fill(k)));
      } else {
        Forward(View(), WriterStep, input);
        Proceeds(After(View(), WriterStep), input);
        Adopt(After(View(), WriterStep));
      }
    }

    /** Between two statements of one side the other may execute any number of its own. */
    method Others(me: Side)
      requires Valid()
      modifies this
      ensures Valid() && Untouched(me) && Work(View()) <= old(Work(View()))
    {
      hide Inv, Work;
      while *
        invariant Valid() && Untouched(me) && Work(View()) <= old(Work(View()))
        decreases Work(View())
      {
        if !OtherCan(View(), me) {
          break;
        }
        OtherStep(me);
      }
    }

    // ---- 47_4.c ----

    /** semop() that takes one: it waits until it can, or fails because a signal interrupts it or because
        the set has been removed. */
    method SemOp(me: Side) returns (rc: int, interrupted: bool)
      requires Valid() && AtGate(View(), me)
      modifies this
      ensures rc == -1 ==> interrupted && Valid() && AtGate(View(), me) && signals < old(signals)
      ensures rc != -1 ==> rc == 0 && signals == old(signals)
      ensures rc == 0 && me == TheWriter ==>
                Valid() && writer == (if old(writer) == Reserving then Filling else Removing)
      ensures rc == 0 && me == TheReader ==> Valid() && reader == Checking
      ensures me == TheWriter && rc == -1 ==> writer == old(writer)
      ensures Work(View()) <= old(Work(View())) && (rc == 0 ==> Work(View()) < old(Work(View())))
    {
      hide Inv, Work;
      Blocked(View(), me, input);
      if signals > 0 {
        if * {
          signals := signals - 1;
          return -1, true;
        }
      }
      while if me == TheWriter then writeSem == 0 else readSem == 0
        invariant Valid() && AtGate(View(), me) && Untouched(me) && Work(View()) <= old(Work(View()))
        decreases Work(View())
      {
        Blocked(View(), me, input);
        OtherStep(me);
      }
      Blocked(View(), me, input);
      if removed {
        return -1, false;
      }
      if me == TheWriter {
        Forward(View(), WriterStep, input);
        writeSem := writeSem - 1;
        writer := if writer == Reserving then Filling else Removing;
      } else {
        Forward(View(), ReaderStep, input);
        readSem, reader := readSem - 1, Checking;
      }
      return 0, false;
    }

    /** reserveSem(), with bsRetryOnEintr set: interruptions are waited out, and with the set there it does
        not fail. */
    method ReserveSem(me: Side) returns (rc: int)
      requires Valid() && AtGate(View(), me)
      modifies this
      ensures Valid() && rc == 0 && Work(View()) < old(Work(View()))
      ensures me == TheWriter ==>
                writer == (if old(writer) == Reserving then Filling else Removing)
      ensures me == TheReader ==> reader == Checking
    {
      hide Inv, Work;
      var interrupted;
      rc, interrupted := SemOp(me);
      while rc == -1
        invariant if rc == -1 then interrupted && AtGate(View(), me) else rc == 0
        invariant Valid() && Work(View()) <= old(Work(View())) && (rc == 0 ==> Work(View()) < old(Work(View())))
        invariant me == TheWriter && rc == -1 ==> writer == old(writer)
        invariant me == TheWriter && rc == 0 ==> writer == (if old(writer) == Reserving then Filling else Removing)
        invariant me == TheReader && rc == 0 ==> reader == Checking
        decreases signals, rc == -1
      {
        if !interrupted {
          return -1;
        }
        rc, interrupted := SemOp(me);
      }
    }

    /** releaseSem(): fails only on a removed set. */
    method ReleaseSem(me: Side) returns (rc: int)
      requires Valid()
      requires match me
               case TheWriter => writer == Releasing
               case TheReader => reader == Returning || reader == LastReturning
      modifies this
      ensures Valid() && rc == 0 && Work(View()) < old(Work(View()))
      ensures match me
              case TheWriter => writer == Testing
              case TheReader => reader == if old(reader) == Returning then Counting else ReaderDone
    {
      hide Inv, Work;
      Proceeds(View(), input);
      if removed {
        return -1;
      }
      if me == TheWriter {
        Forward(View(), WriterStep, input);
        readSem, writer := readSem + 1, Testing;
      } else {
        Forward(View(), ReaderStep, input);
        writeSem := writeSem + 1;
        reader := if reader == Returning then Counting else ReaderDone;
      }
      return 0;
    }

    // ---- poshm_xfr_writer.c ----

    /** read() of at most a buffer: some bytes, or none at the end of the input. */
    method ReadInput()
      requires Valid() && writer == Filling
      modifies this
      ensures Valid() && writer == Releasing && Work(View()) < old(Work(View()))
    {
      hide Inv, Work;
      Proceeds(View(), input);
      var most := if |unread| < |buf| then |unread| else |buf|;
      var k :| (if most == 0 then 0 else 1) <= k <= most;
      Forward(View(), Fill(k), input);
      cnt, buf, unread := k, unread[..k] + buf[k..], unread[k..];
      writer := Releasing;
    }

    /** The test for the end of the input, which reads the count outside the writer's turn. */
    method TestCount() returns (more: bool)
      requires Valid() && writer == Testing
      modifies this
      ensures Valid() && writer == (if more then Adding else LastReserving) && Work(View()) < old(Work(View()))
    {
      hide Inv, Work;
      Proceeds(View(), input);
      Forward(View(), WriterStep, input);
      more := cnt != 0;
      writer := if more then Adding else LastReserving;
    }

    /** xfrs++, bytes += cnt. */
    method AddCount()
      requires Valid() && writer == Adding
      modifies this
      ensures Valid() && writer == Reserving && Work(View()) < old(Work(View()))
    {
      hide Inv, Work;
      Proceeds(View(), input);
      Forward(View(), WriterStep, input);
      sentBlocks, sentBytes, writer := sentBlocks + 1, sentBytes + cnt, Reserving;
    }

    /** One round of the writer's loop; false at the end of the input. */
    method SendBlock() returns (more: bool)
      requires Valid() && writer == Reserving
      modifies this
      ensures Valid() && writer == (if more then Reserving else LastReserving) && Work(View()) < old(Work(View()))
    {
      hide Inv, Work;
      Others(TheWriter);
      var rc := ReserveSem(TheWriter);
      assert rc != -1;
      Others(TheWriter);
      ReadInput();
      Others(TheWriter);
      rc := ReleaseSem(TheWriter);
      assert rc != -1;
      Others(TheWriter);
      more := TestCount();
      if more {
        Others(TheWriter);
        AddCount();
      }
    }

    /** semctl() with IPC_RMID. */
    method RemoveSems()
      requires Valid() && writer == Removing
      modifies this
      ensures Valid() && writer == Unlinking && removed
    {
      hide Inv, Work;
      Proceeds(View(), input);
      Forward(View(), WriterStep, input);
      removed, writer := true, Unlinking;
    }

    /** shm_unlink(). */
    method Unlink()
      requires Valid() && writer == Unlinking
      modifies this`writer
      ensures writer == WriterDone && reader == ReaderDone && removed && unread == []
      ensures sentBytes == gotBytes == |input| && sentBlocks == gotBlocks && output == input
    {
      hide Inv, Work;
      Proceeds(View(), input);
      Forward(View(), WriterStep, input);
      writer := WriterDone;
      WriterEnds(View(), input);
    }

    /** main() of the writer: it ends, having sent all of the input, after the reader's last access to the
        segment and the semaphores, and the reader has written exactly the input. */
    method Write()
      requires Valid() && writer == Reserving
      modifies this
      ensures writer == WriterDone && reader == ReaderDone && removed && unread == []
      ensures sentBytes == gotBytes == |input| && sentBlocks == gotBlocks && output == input
    {
      hide Inv, Work, After, Enabled;
      var more := true;
      while more
        invariant Valid() && writer == if more then Reserving else LastReserving
        decreases Work(View())
      {
        more := SendBlock();
      }
      Others(TheWriter);
      var rc := ReserveSem(TheWriter);
      assert rc != -1;
      Others(TheWriter);
      RemoveSems();
      Unlink();
    }

    // ---- poshm_xfr_reader.c ----

    /** The test for the end of the input. */
    method CheckCount() returns (more: bool)
      requires Valid() && reader == Checking
      modifies this
      ensures Valid() && reader == (if more then Summing else LastReturning) && Work(View()) < old(Work(View()))
    {
      hide Inv, Work;
      Proceeds(View(), input);
      Forward(View(), ReaderStep, input);
      more := cnt != 0;
      reader := if more then Summing else LastReturning;
    }

    /** bytes += cnt, and write(). */
    method WriteOut()
      requires Valid() && reader == Summing
      modifies this
      ensures Valid() && reader == Returning && Work(View()) < old(Work(View()))
    {
      hide Inv, Work;
      Proceeds(View(), input);
      Forward(View(), ReaderStep, input);
      gotBytes, reader := gotBytes + cnt, Writing;
      Others(TheReader);
      Proceeds(View(), input);
      Forward(View(), ReaderStep, input);
      output, reader := output + buf[..cnt], Returning;
    }

    /** xfrs++. */
    method CountBlock()
      requires Valid() && reader == Counting
      modifies this
      ensures Valid() && reader == Awaiting && Work(View()) < old(Work(View()))
    {
      hide Inv, Work;
      Proceeds(View(), input);
      Forward(View(), ReaderStep, input);
      gotBlocks, reader := gotBlocks + 1, Awaiting;
    }

    /** One round of the reader's loop; false when the writer has reached the end. */
    method TakeBlock() returns (more: bool)
      requires Valid() && reader == Awaiting
      modifies this
      ensures Valid() && reader == (if more then Awaiting else LastReturning) && Work(View()) < old(Work(View()))
    {
      hide Inv, Work;
      Others(TheReader);
      var rc := ReserveSem(TheReader);
      assert rc != -1;
      Others(TheReader);
      more := CheckCount();
      if more {
        Others(TheReader);
        WriteOut();
        Others(TheReader);
        rc := ReleaseSem(TheReader);
        assert rc != -1;
        Others(TheReader);
        CountBlock();
      }
    }

    /** main() of the reader: it ends, having written exactly the input. */
    method Receive()
      requires Valid() && reader == Awaiting
      modifies this
      ensures Valid() && reader == ReaderDone && output == input && gotBytes == |input|
    {
      hide Inv, Work;
      var more := true;
      while more
        invariant Valid() && reader == if more then Awaiting else LastReturning
        decreases Work(View())
      {
        more := TakeBlock();
      }
      Others(TheReader);
      var rc := ReleaseSem(TheReader);
      assert rc != -1;
      ReaderEnds(View(), input);
    }
  }
}
