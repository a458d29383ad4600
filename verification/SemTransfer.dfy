/** 53_Posix_Semaphores/sem_data_transfer.c: two threads copy standard input to standard output
    through one buffer, which two semaphores hand back and forth. */
module SemTransfer {
  import opened Collections
  import opened CString

  const BUF_SIZE := 4096

  datatype WriterPc =
    | WaitSem1
    | Read
    | PostSem2
    | TestEof
    | Joining
    | Returned

  datatype ReaderPc =
    | WaitSem2
    | TestEof
    | Print
    | PostSem1
    | Ended

  /** Writer(n): n is how many bytes a read() delivers, which the kernel may choose. */
  datatype Actor = Writer(n: nat) | Reader

  datatype State = State(writer: WriterPc, reader: ReaderPc, sem1: nat, sem2: nat, data: seq<CByte>, eof: bool,
                         numRead: nat, consumed: nat, output: seq<CByte>)

  function InitialState(): State {
    State(WaitSem1, WaitSem2, 1, 0, seq(BUF_SIZE, _ => NUL), false, 0, 0, [])
  }

  /** read() returns 0 at the end of the input and nowhere else. */
  predicate CanRead(input: seq<CByte>, consumed: nat, n: nat) {
    n < BUF_SIZE && consumed + n <= |input| && (n == 0 <==> consumed == |input|)
  }

  function WriterStep(input: seq<CByte>, s: State, n: nat): Option<State> {
    match s.writer
    case WaitSem1 => if s.sem1 == 0 then None else Some(s.(sem1 := s.sem1 - 1, writer := Read))
    case Read =>
      if !CanRead(input, s.consumed, n) || |s.data| != BUF_SIZE then None
      else Some(s.(data := Store(s.data, input[s.consumed..s.consumed + n]), numRead := n,
                   consumed := s.consumed + n, eof := s.eof || n == 0, writer := PostSem2))
    case PostSem2 => Some(s.(sem2 := s.sem2 + 1, writer := WriterPc.TestEof))
    case TestEof => Some(s.(writer := if s.eof then Joining else WaitSem1))
    case Joining => if s.reader.Ended? then Some(s.(writer := Returned)) else None
    case Returned => None
  }

  function ReaderStep(s: State): Option<State> {
    match s.reader
    case WaitSem2 => if s.sem2 == 0 then None else Some(s.(sem2 := s.sem2 - 1, reader := ReaderPc.TestEof))
    case TestEof => Some(s.(reader := if s.eof then Ended else Print))
    case Print => Some(s.(output := s.output + CStr(s.data), reader := PostSem1))
    case PostSem1 => Some(s.(sem1 := s.sem1 + 1, reader := WaitSem2))
    case Ended => None
  }

  function Step(input: seq<CByte>, s: State, who: Actor): Option<State> {
    match who
    case Writer(n) => WriterStep(input, s, n)
    case Reader => ReaderStep(s)
  }

  /** The state a schedule leads to, if each of its steps can be taken. */
  function Run(input: seq<CByte>, schedule: seq<Actor>): Option<State> {
    if schedule == [] then Some(InitialState())
    else
      var before := Run(input, schedule[..|schedule| - 1]);
      if before.None? then None else Step(input, before.value, schedule[|schedule| - 1])
  }

  // ---------- the invariant ----------

  /** The buffer is in the reader's hands: filled and not yet printed. */
  ghost predicate Full(s: State) {
    s.writer.PostSem2? || s.sem2 > 0 || s.reader.TestEof? || s.reader.Print?
  }

  ghost function InsideWriter(s: State): nat { if s.writer.Read? || s.writer.PostSem2? then 1 else 0 }

  ghost function InsideReader(s: State): nat {
    if s.reader.TestEof? || s.reader.Print? || s.reader.PostSem1? then 1 else 0
  }

  ghost predicate Tokens(s: State) {
    && s.sem1 + s.sem2 + InsideWriter(s) + InsideReader(s) == (if s.reader.Ended? then 0 else 1)
    && (s.reader.Ended? ==> s.eof)
    && (s.writer.Joining? || s.writer.Returned? ==> s.eof)
    && (s.eof ==> !s.writer.WaitSem1? && !s.writer.Read? && s.sem1 == 0 && !s.reader.Print? && !s.reader.PostSem1?)
    && (s.writer.Returned? ==> s.reader.Ended?)
  }

  ghost predicate Transfer(input: seq<CByte>, s: State) {
    && |s.data| == BUF_SIZE && s.numRead <= s.consumed <= |input| && s.numRead < BUF_SIZE
    && (s.eof ==> s.consumed == |input| && s.numRead == 0)
    && NulFree(s.output)
    && (Full(s) ==> s.data[..s.numRead] == input[s.consumed - s.numRead..s.consumed] && s.data[s.numRead] == NUL)
    && (NulFree(input) ==> s.output == input[..if Full(s) then s.consumed - s.numRead else s.consumed])
  }

  ghost predicate Inv(input: seq<CByte>, s: State) {
    Tokens(s) && Transfer(input, s)
  }

  lemma ChunkEnds(input: seq<CByte>, from: nat, to: nat)
    requires from <= to <= |input|
    ensures input[..to] == input[..from] + input[from..to]
    ensures NulFree(input) ==> NulFree(input[from..to])
  {
  }

  /** The buffer holds the chunk that was read last, and prints as the chunk's text. */
  lemma BufferHoldsChunk(input: seq<CByte>, s: State) returns (chunk: seq<CByte>)
    requires Transfer(input, s) && Full(s)
    ensures chunk == input[s.consumed - s.numRead..s.consumed]
    ensures CStr(s.data) == CStr(chunk) && (NulFree(input) ==> CStr(s.data) == chunk)
    ensures input[..s.consumed] == input[..s.consumed - s.numRead] + chunk
  {
    chunk := input[s.consumed - s.numRead..s.consumed];
    hide CStr, Full, NulFree;
    CStrOfStored(s.data, chunk);
    ChunkEnds(input, s.consumed - s.numRead, s.consumed);
    hide Transfer;
  }

  lemma PrintKeepsTransfer(input: seq<CByte>, s: State)
    requires Inv(input, s) && s.reader.Print?
    ensures Transfer(input, ReaderStep(s).value)
  {
    var chunk := BufferHoldsChunk(input, s);
    hide CStr;
  }

  lemma WriterKeepsTokens(input: seq<CByte>, s: State, n: nat)
    requires Inv(input, s) && WriterStep(input, s, n).Some?
    ensures Tokens(WriterStep(input, s, n).value)
  {
    hide Store, CStr, NulFree;
  }

  lemma ReadKeepsTransfer(input: seq<CByte>, s: State, n: nat)
    requires Inv(input, s) && s.writer.Read? && WriterStep(input, s, n).Some?
    ensures Transfer(input, WriterStep(input, s, n).value)
  {
    assert !Full(s);
    hide Store, CStr, NulFree, Tokens;
  }

  lemma WriterKeepsTransfer(input: seq<CByte>, s: State, n: nat)
    requires Inv(input, s) && WriterStep(input, s, n).Some?
    ensures Transfer(input, WriterStep(input, s, n).value)
  {
    if s.writer.Read? {
      ReadKeepsTransfer(input, s, n);
      hide Transfer;
    }
    hide Store, CStr, NulFree;
  }

  lemma WriterKeepsInv(input: seq<CByte>, s: State, n: nat)
    requires Inv(input, s) && WriterStep(input, s, n).Some?
    ensures Inv(input, WriterStep(input, s, n).value)
  {
    WriterKeepsTokens(input, s, n);
    WriterKeepsTransfer(input, s, n);
    hide Tokens, Transfer, WriterStep;
  }

  /** What is printed is the chunk that was read, up to its first NUL. */
  lemma ReaderKeepsInv(input: seq<CByte>, s: State)
    requires Inv(input, s) && ReaderStep(s).Some?
    ensures Inv(input, ReaderStep(s).value)
  {
    if s.reader.Print? {
      PrintKeepsTransfer(input, s);
      hide Transfer;
    }
  }

  lemma {:induction false} RunKeepsInv(input: seq<CByte>, schedule: seq<Actor>)
    requires Run(input, schedule).Some?
    ensures Inv(input, Run(input, schedule).value)
  {
    if schedule != [] {
      var who := schedule[|schedule| - 1];
      RunKeepsInv(input, schedule[..|schedule| - 1]);
      var before := Run(input, schedule[..|schedule| - 1]).value;
      match who
      case Writer(n) => WriterKeepsInv(input, before, n);
      case Reader => ReaderKeepsInv(input, before);
    }
  }

  // ---------- what comes out ----------

  /** The chunks that the schedule's reads have cut the input into, one behind the other. */
  ghost function Chunks(input: seq<CByte>, schedule: seq<Actor>): seq<seq<CByte>> {
    if schedule == [] then []
    else
      var earlier, who := schedule[..|schedule| - 1], schedule[|schedule| - 1];
      var chunks := Chunks(input, earlier);
      if who.Writer? && Run(input, earlier).Some? && Run(input, earlier).value.writer.Read? then
        chunks + [NextChunk(input, chunks, who.n)]
      else chunks
  }

  /** The chunks that the reader has printed: all but the one that is in the buffer. */
  ghost function Done(s: State, chunks: seq<seq<CByte>>): seq<seq<CByte>> {
    if Full(s) && chunks != [] then chunks[..|chunks| - 1] else chunks
  }

  ghost predicate Accounted(input: seq<CByte>, s: State, chunks: seq<seq<CByte>>) {
    && s.consumed <= |input| && Join(chunks) == input[..s.consumed]
    && s.output == Printed(Done(s, chunks))
    && (Full(s) ==> chunks != [] && CStr(s.data) == CStr(chunks[|chunks| - 1]))
  }

  lemma ReadAccounts(input: seq<CByte>, s: State, n: nat, chunks: seq<seq<CByte>>)
    requires Inv(input, s) && Accounted(input, s, chunks) && s.writer.Read? && WriterStep(input, s, n).Some?
    ensures Accounted(input, WriterStep(input, s, n).value, chunks + [NextChunk(input, chunks, n)])
  {
    assert !Full(s) && |s.data| == BUF_SIZE;
    hide Join, Printed, CStr, Store, Transfer, Tokens, NulFree;
    var chunk := NextChunk(input, chunks, n);
    OneMore(chunks, chunk);
    CStrOfStored(Store(s.data, chunk), chunk);
    assert (chunks + [chunk])[..|chunks|] == chunks;
  }

  lemma WriterAccounts(input: seq<CByte>, s: State, n: nat, chunks: seq<seq<CByte>>)
    requires Inv(input, s) && Accounted(input, s, chunks) && !s.writer.Read? && WriterStep(input, s, n).Some?
    ensures Accounted(input, WriterStep(input, s, n).value, chunks)
  {
    hide Join, Printed, CStr, Store, Transfer;
  }

  lemma ReaderAccounts(input: seq<CByte>, s: State, chunks: seq<seq<CByte>>)
    requires Inv(input, s) && Accounted(input, s, chunks) && ReaderStep(s).Some?
    ensures Accounted(input, ReaderStep(s).value, chunks)
  {
    if s.reader.Print? {
      PrintAccounts(input, s, chunks);
    } else {
      if s.reader.TestEof? && s.eof {
        LastIsEmpty(input, s, chunks);
      }
      hide Join, Printed, CStr, Store, Transfer;
    }
  }

  lemma PrintAccounts(input: seq<CByte>, s: State, chunks: seq<seq<CByte>>)
    requires Inv(input, s) && Accounted(input, s, chunks) && s.reader.Print?
    ensures Accounted(input, ReaderStep(s).value, chunks)
  {
    hide Join, Printed, CStr, Store, Transfer;
    OneMore(chunks[..|chunks| - 1], chunks[|chunks| - 1]);
    assert chunks[..|chunks| - 1] + [chunks[|chunks| - 1]] == chunks;
  }

  /** The chunk that the reader finds at the end of the input adds nothing. */
  lemma LastIsEmpty(input: seq<CByte>, s: State, chunks: seq<seq<CByte>>)
    requires Inv(input, s) && Accounted(input, s, chunks) && s.reader.TestEof? && s.eof
    ensures Printed(Done(s, chunks)) == Printed(chunks)
  {
    var chunk := BufferHoldsChunk(input, s);
    assert chunk == [];
    OneMore(chunks[..|chunks| - 1], chunks[|chunks| - 1]);
    assert chunks[..|chunks| - 1] + [chunks[|chunks| - 1]] == chunks;
  }

  lemma {:induction false} RunAccounts(input: seq<CByte>, schedule: seq<Actor>)
    requires Run(input, schedule).Some?
    ensures Accounted(input, Run(input, schedule).value, Chunks(input, schedule))
  {
    if schedule != [] {
      var earlier, who := schedule[..|schedule| - 1], schedule[|schedule| - 1];
      var before, chunks := Run(input, earlier).value, Chunks(input, earlier);
      RunAccounts(input, earlier);
      RunKeepsInv(input, earlier);
      hide Inv, Accounted, WriterStep, ReaderStep, NextChunk;
      if who.Reader? {
        ReaderAccounts(input, before, chunks);
      } else if before.writer.Read? {
        ReadAccounts(input, before, who.n, chunks);
      } else {
        WriterAccounts(input, before, who.n, chunks);
      }
    }
  }

  // ---------- the results ----------

  /** One thread at a time is between sem_wait() and sem_post(); with the two semaphores that
      makes one token, until the reader leaves with it at the end of the input. */
  lemma OneToken(input: seq<CByte>, schedule: seq<Actor>)
    requires Run(input, schedule).Some?
    ensures var s := Run(input, schedule).value;
            && s.sem1 + s.sem2 + InsideWriter(s) + InsideReader(s) == (if s.reader.Ended? then 0 else 1)
            && (s.reader.Ended? ==> s.eof)
  {
    RunKeepsInv(input, schedule);
  }

  /** Text comes out in order, with nothing lost or repeated. */
  lemma OutputIsPrefix(input: seq<CByte>, schedule: seq<Actor>)
    requires NulFree(input) && Run(input, schedule).Some?
    ensures Run(input, schedule).value.output <= input
  {
    RunKeepsInv(input, schedule);
  }

  /** Whatever the input holds: the chunks join to what has been read, and what has come out is each
      of them up to its first NUL, all but the one in the buffer; at the end all of them. */
  lemma OutputIsPrintedChunks(input: seq<CByte>, schedule: seq<Actor>)
    requires Run(input, schedule).Some?
    ensures var s, chunks := Run(input, schedule).value, Chunks(input, schedule);
            && Join(chunks) <= input && s.output == Printed(Done(s, chunks))
            && (s.writer.Returned? ==> Join(chunks) == input && s.output == Printed(chunks))
  {
    RunAccounts(input, schedule);
    RunKeepsInv(input, schedule);
    hide Run, Chunks, Join, Printed, CStr;
  }

  /** At the end exactly the inputs without a NUL have been copied. */
  lemma CopiesExactlyText(input: seq<CByte>, schedule: seq<Actor>)
    requires Run(input, schedule).Some? && Run(input, schedule).value.writer.Returned?
    ensures Run(input, schedule).value.output == input <==> NulFree(input)
  {
    RunKeepsInv(input, schedule);
    var s := Run(input, schedule).value;
    if NulFree(input) {
      assert s.output == input[..if Full(s) then s.consumed - s.numRead else s.consumed];
    }
  }

  /** Some thread can go on until main has returned. */
  lemma NeverStuck(input: seq<CByte>, schedule: seq<Actor>)
    requires Run(input, schedule).Some? && !Run(input, schedule).value.writer.Returned?
    ensures exists who :: Step(input, Run(input, schedule).value, who).Some?
  {
    RunKeepsInv(input, schedule);
    var s := Run(input, schedule).value;
    hide Run;
    var n := if s.consumed < |input| then 1 else 0;
    assert Step(input, s, Writer(n)).Some? || Step(input, s, Reader).Some?;
  }

  ghost function StepsLeft(input: seq<CByte>, s: State): int {
    var rest := |input| - s.consumed;
    (match s.writer
     case WaitSem1 => 8 * rest + 9
     case Read => 8 * rest + 8
     case PostSem2 => if s.eof then 7 else 8 * rest + 15
     case TestEof => if s.eof then 2 else 8 * rest + 10
     case Joining => 1
     case Returned => 0)
    + 4 * s.sem2
    + (match s.reader
       case TestEof => 3
       case Print => 2
       case PostSem1 => 1
       case _ => 0)
  }

  lemma StepsLeftDecreases(input: seq<CByte>, s: State, who: Actor)
    requires Inv(input, s) && Step(input, s, who).Some?
    ensures StepsLeft(input, Step(input, s, who).value) < StepsLeft(input, s)
  {
    hide Full, Store, CStr;
  }

  /** However the threads are scheduled and the input is cut up, it takes at most 8|input| + 9 steps. */
  lemma {:induction false} RunsEnd(input: seq<CByte>, schedule: seq<Actor>)
    requires Run(input, schedule).Some?
    ensures |schedule| + StepsLeft(input, Run(input, schedule).value) <= 8 * |input| + 9
    ensures |schedule| <= 8 * |input| + 9
  {
    RunKeepsInv(input, schedule);
    if schedule != [] {
      var before := schedule[..|schedule| - 1];
      RunsEnd(input, before);
      RunKeepsInv(input, before);
      StepsLeftDecreases(input, Run(input, before).value, schedule[|schedule| - 1]);
    }
  }
}
