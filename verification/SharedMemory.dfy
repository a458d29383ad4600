/** 54_Posix_Shared_Memory/pshm_writer.c and pshm_reader.c: two processes copy standard input to
    standard output through a shared memory object and two named semaphores.

    Writer and reader start in any order, with none of the three names in existence.  A poll
    for a semaphore that is not there yet leaves its process where it is, so it is no step. */
module SharedMemory {
  import opened Collections
  import opened CString

  const MMAP_SIZE := 4096

  datatype WriterPc =
    | ShmOpen      // shm_open(O_CREAT)
    | Resize       // ftruncate(fd, MMAP_SIZE), mmap()
    | CreateWrite  // sem_open(WRITER_SEM, O_CREAT) with value 1
    | OpenRead     // polls for READER_SEM
    | Wait
    | Read
    | Copy         // strcpy(addr, buf)
    | Post
    | Truncate     // ftruncate(fd, 0)
    | PostLast
    | UnlinkWrite
    | UnlinkShm
    | Exited

  datatype ReaderPc =
    | CreateRead  // sem_open(READER_SEM, O_CREAT) with value 0
    | OpenWrite   // polls for WRITER_SEM
    | OpenShm     // shm_open() without O_CREAT, mmap()
    | Wait
    | Fstat
    | Copy        // strcpy(buf, addr)
    | Print
    | Post
    | UnlinkRead
    | Exited
    | Failed      // shm_open() found no object

  /** Writer(n): n is how many bytes a read() delivers, which the kernel may choose. */
  datatype Actor = Writer(n: nat) | Reader

  /** The shared memory, the two processes' buffers, and how far input and output have come. */
  datatype Bytes = Bytes(addr: seq<CByte>, writerBuf: seq<CByte>, readerBuf: seq<CByte>, numRead: nat,
                         consumed: nat, output: seq<CByte>)

  /** `fault`: a mapping was touched behind the end of its object, or a buffer was overrun. */
  datatype State = State(writer: WriterPc, reader: ReaderPc, shmName: bool, writeName: bool, readName: bool,
                         size: nat, writeSem: nat, readSem: nat, bytes: Bytes, fault: bool)

  function Blank(): (r: seq<CByte>)
    ensures |r| == MMAP_SIZE
  {
    seq(MMAP_SIZE, _ => NUL)
  }

  function InitialState(): State {
    State(ShmOpen, CreateRead, false, false, false, 0, 0, 0, Bytes(Blank(), Blank(), Blank(), 0, 0, []), false)
  }

  predicate CanRead(input: seq<CByte>, consumed: nat, n: nat) {
    n < MMAP_SIZE && consumed + n <= |input| && (n == 0 <==> consumed == |input|)
  }

  function WriterStep(input: seq<CByte>, s: State, n: nat): Option<State> {
    match s.writer
    case ShmOpen => Some(s.(shmName := true, writer := Resize))
    case Resize => Some(s.(size := MMAP_SIZE, writer := CreateWrite))
    case CreateWrite =>
      Some(s.(writeName := true, writeSem := if s.writeName then s.writeSem else 1, writer := OpenRead))
    case OpenRead => if s.readName then Some(s.(writer := WriterPc.Wait)) else None
    case Wait => if s.writeSem == 0 then None else Some(s.(writeSem := s.writeSem - 1, writer := Read))
    case Read =>
      if !CanRead(input, s.bytes.consumed, n) || |s.bytes.writerBuf| != MMAP_SIZE then None
      else if n == 0 then Some(s.(bytes := s.bytes.(numRead := 0), writer := Truncate))
      else
        var chunk := input[s.bytes.consumed..s.bytes.consumed + n];
        Some(s.(bytes := s.bytes.(writerBuf := Store(s.bytes.writerBuf, chunk), numRead := n,
                                  consumed := s.bytes.consumed + n),
                writer := WriterPc.Copy))
    case Copy =>
      if s.size < MMAP_SIZE || |CStr(s.bytes.writerBuf)| >= |s.bytes.addr| then
        Some(s.(fault := true, writer := WriterPc.Exited))
      else Some(s.(bytes := s.bytes.(addr := Store(s.bytes.addr, CStr(s.bytes.writerBuf))), writer := WriterPc.Post))
    case Post => Some(s.(readSem := s.readSem + 1, writer := WriterPc.Wait))
    case Truncate => Some(s.(size := 0, writer := PostLast))
    case PostLast => Some(s.(readSem := s.readSem + 1, writer := UnlinkWrite))
    case UnlinkWrite => Some(s.(writeName := false, writer := UnlinkShm))
    case UnlinkShm => Some(s.(shmName := false, writer := WriterPc.Exited))
    case Exited => None
  }

  function ReaderStep(s: State): Option<State> {
    match s.reader
    case CreateRead => Some(s.(readName := true, readSem := if s.readName then s.readSem else 0, reader := OpenWrite))
    case OpenWrite => if s.writeName then Some(s.(reader := OpenShm)) else None
    case OpenShm => Some(s.(reader := if s.shmName then ReaderPc.Wait else Failed))
    case Wait => if s.readSem == 0 then None else Some(s.(readSem := s.readSem - 1, reader := Fstat))
    case Fstat => Some(s.(reader := if s.size == 0 then UnlinkRead else ReaderPc.Copy))
    case Copy =>
      if s.size < MMAP_SIZE || |CStr(s.bytes.addr)| >= |s.bytes.readerBuf| then
        Some(s.(fault := true, reader := ReaderPc.Exited))
      else Some(s.(bytes := s.bytes.(readerBuf := Store(s.bytes.readerBuf, CStr(s.bytes.addr))), reader := Print))
    case Print =>
      Some(s.(bytes := s.bytes.(output := s.bytes.output + CStr(s.bytes.readerBuf)), reader := ReaderPc.Post))
    case Post => Some(s.(writeSem := s.writeSem + 1, reader := ReaderPc.Wait))
    case UnlinkRead => Some(s.(readName := false, reader := ReaderPc.Exited))
    case Exited => None
    case Failed => None
  }

  function Step(input: seq<CByte>, s: State, who: Actor): Option<State> {
    match who
    case Writer(n) => WriterStep(input, s, n)
    case Reader => ReaderStep(s)
  }

  /** The state a schedule leads to, if each of its steps can be taken. */
  function Run(input: seq<CByte>, schedule: seq<Actor>): Option<State> {
    if schedule == [] then Some(InitialState())
    else
      var before := Run(input, schedule[..|schedule| - 1]);
      if before.None? then None else Step(input, before.value, schedule[|schedule| - 1])
  }

  // ---------- the invariant ----------

  ghost predicate WriterStarting(s: State) { s.writer.ShmOpen? || s.writer.Resize? || s.writer.CreateWrite? }

  ghost predicate ReaderStarting(s: State) { s.reader.CreateRead? || s.reader.OpenWrite? || s.reader.OpenShm? }

  /** The writer has truncated the object. */
  ghost predicate Eof(s: State) {
    s.writer.PostLast? || s.writer.UnlinkWrite? || s.writer.UnlinkShm? || s.writer.Exited?
  }

  ghost predicate ReaderGone(s: State) { s.reader.UnlinkRead? || s.reader.Exited? }

  ghost function InsideWriter(s: State): nat {
    if s.writer.Read? || s.writer.Copy? || s.writer.Post? || s.writer.Truncate? || s.writer.PostLast? then 1 else 0
  }

  ghost function InsideReader(s: State): nat {
    if s.reader.Fstat? || s.reader.Copy? || s.reader.Print? || s.reader.Post? then 1 else 0
  }

  ghost predicate Tokens(s: State) {
    && s.writeSem + s.readSem + InsideWriter(s) + InsideReader(s)
         == (if WriterStarting(s) || ReaderGone(s) then 0 else 1)
    && (ReaderGone(s) ==> Eof(s))
    && (Eof(s) ==> s.writeSem == 0 && !s.reader.Copy? && !s.reader.Print? && !s.reader.Post?)
    && (s.writer.OpenRead? ==> s.writeSem == 1)
    && !s.fault
  }

  ghost predicate Names(s: State) {
    && (s.size == if s.writer.ShmOpen? || s.writer.Resize? || Eof(s) then 0 else MMAP_SIZE)
    && (s.shmName <==> !s.writer.ShmOpen? && !s.writer.Exited?)
    && (s.writeName <==> !WriterStarting(s) && !s.writer.UnlinkShm? && !s.writer.Exited?)
    && (s.readName <==> !s.reader.CreateRead? && !s.reader.Exited?)
    && (s.reader.CreateRead? ==> WriterStarting(s) || s.writer.OpenRead?)
    && (WriterStarting(s) ==> s.reader.CreateRead? || s.reader.OpenWrite?)
  }

  /** With something to read, the writer comes to the end only after the reader is at work. */
  ghost predicate StartUp(input: seq<CByte>, s: State) {
    && (s.writer.Truncate? || Eof(s) ==> s.bytes.consumed == |input| && s.bytes.numRead == 0)
    && (WriterStarting(s) || s.writer.OpenRead? ==> s.bytes.consumed == 0)
    && (input != [] && ReaderStarting(s) ==>
          && !s.writer.Truncate? && !Eof(s)
          && (s.bytes.consumed > 0 ==> s.writer.Copy? || s.writer.Post? || s.readSem > 0))
    && (s.reader.Failed? ==> input == [])
  }

  /** A chunk is in the shared memory, not yet copied out. */
  ghost predicate InMemory(s: State) {
    s.writer.Post? || (!Eof(s) && (s.readSem > 0 || s.reader.Fstat? || s.reader.Copy?))
  }

  ghost predicate Pending(s: State) { s.writer.Copy? || InMemory(s) || s.reader.Print? }

  ghost function Chunk(input: seq<CByte>, s: State): seq<CByte>
    requires s.bytes.numRead <= s.bytes.consumed <= |input|
  {
    input[s.bytes.consumed - s.bytes.numRead..s.bytes.consumed]
  }

  ghost predicate Transfer(input: seq<CByte>, s: State) {
    && |s.bytes.addr| == |s.bytes.writerBuf| == |s.bytes.readerBuf| == MMAP_SIZE
    && s.bytes.numRead <= s.bytes.consumed <= |input| && s.bytes.numRead < MMAP_SIZE
    && (s.writer.Copy? ==> CStr(s.bytes.writerBuf) == CStr(Chunk(input, s)))
    && (InMemory(s) ==> CStr(s.bytes.addr) == CStr(Chunk(input, s)))
    && (s.reader.Print? ==> CStr(s.bytes.readerBuf) == CStr(Chunk(input, s)))
    && NulFree(s.bytes.output)
    && (NulFree(input) ==>
          s.bytes.output == input[..if Pending(s) then s.bytes.consumed - s.bytes.numRead else s.bytes.consumed])
  }

  ghost predicate Inv(input: seq<CByte>, s: State) {
    Tokens(s) && Names(s) && StartUp(input, s) && Transfer(input, s)
  }

  /** strcpy() reproduces the string it copies. */
  lemma StoredString(buf: seq<CByte>, bytes: seq<CByte>)
    requires |bytes| < |buf|
    ensures CStr(Store(buf, bytes)) == CStr(bytes)
  {
    CStrOfStored(Store(buf, bytes), bytes);
  }

  lemma NoOverrun(input: seq<CByte>, s: State)
    requires Inv(input, s)
    ensures !s.fault
    ensures s.writer.Copy? ==> s.size == MMAP_SIZE && |CStr(s.bytes.writerBuf)| < |s.bytes.addr|
    ensures s.reader.Copy? ==> s.size == MMAP_SIZE && |CStr(s.bytes.addr)| < |s.bytes.readerBuf|
  {
    assert s.reader.Copy? ==> InMemory(s);
    hide Store, CStr, StartUp;
  }

  lemma WriterKeepsTokens(input: seq<CByte>, s: State, n: nat)
    requires Inv(input, s) && WriterStep(input, s, n).Some?
    ensures Tokens(WriterStep(input, s, n).value)
  {
    hide Store, CStr, NulFree, Transfer, StartUp;
    NoOverrun(input, s);
  }

  lemma WriterKeepsNames(input: seq<CByte>, s: State, n: nat)
    requires Inv(input, s) && WriterStep(input, s, n).Some?
    ensures Names(WriterStep(input, s, n).value)
  {
    hide Store, CStr, NulFree, Transfer, StartUp, Tokens;
    NoOverrun(input, s);
  }

  lemma WriterKeepsStartUp(input: seq<CByte>, s: State, n: nat)
    requires Inv(input, s) && WriterStep(input, s, n).Some?
    ensures StartUp(input, WriterStep(input, s, n).value)
  {
    hide Store, CStr, NulFree, Transfer;
    NoOverrun(input, s);
  }

  /** A step that moves no bytes. */
  lemma TransferFrame(input: seq<CByte>, s: State, s': State)
    requires Transfer(input, s)
    requires s'.bytes == s.bytes
    requires (s'.writer.Copy? ==> s.writer.Copy?) && (s'.reader.Print? ==> s.reader.Print?)
    requires (InMemory(s') ==> InMemory(s)) && Pending(s') == Pending(s)
    ensures Transfer(input, s')
  {
    assert Chunk(input, s') == Chunk(input, s);
    hide Store, CStr, NulFree, InMemory, Pending, Chunk;
  }

  /** Where the chunk is before and after a step of the writer. */
  lemma WriterMoves(input: seq<CByte>, s: State, n: nat)
    requires Tokens(s) && Names(s) && WriterStep(input, s, n).Some?
    ensures var s' := WriterStep(input, s, n).value;
            && (s.writer.Read? ==> !Pending(s) && !InMemory(s') && !s.reader.Print? && (Pending(s') <==> n > 0))
            && (s.writer.Copy? ==> Pending(s) && !s.reader.Print? && !s'.writer.Copy? && (!s'.fault ==> Pending(s')))
            && (!s.writer.Read? && !s.writer.Copy? ==>
                  !s'.writer.Copy? && InMemory(s') == InMemory(s) && Pending(s') == Pending(s))
  {
    hide Store, CStr, NulFree;
  }

  lemma WriterReads(input: seq<CByte>, s: State, n: nat)
    requires Inv(input, s) && s.writer.Read? && n > 0 && WriterStep(input, s, n).Some?
    ensures Transfer(input, WriterStep(input, s, n).value)
  {
    hide Tokens, Names, StartUp, InMemory, Pending, Store, CStr, NulFree;
    WriterMoves(input, s, n);
    StoredString(s.bytes.writerBuf, input[s.bytes.consumed..s.bytes.consumed + n]);
  }

  lemma WriterSeesEnd(input: seq<CByte>, s: State)
    requires Inv(input, s) && s.writer.Read? && WriterStep(input, s, 0).Some?
    ensures Transfer(input, WriterStep(input, s, 0).value)
  {
    hide Tokens, Names, StartUp, InMemory, Pending, Store, CStr, NulFree, Chunk;
    WriterMoves(input, s, 0);
  }

  lemma WriterCopies(input: seq<CByte>, s: State, n: nat)
    requires Inv(input, s) && s.writer.Copy? && WriterStep(input, s, n).Some?
    ensures Transfer(input, WriterStep(input, s, n).value)
  {
    hide Tokens, Names, StartUp, InMemory, Pending, Store, CStr, NulFree, Chunk;
    NoOverrun(input, s);
    WriterMoves(input, s, n);
    CStrOfCStr(s.bytes.writerBuf);
    StoredString(s.bytes.addr, CStr(s.bytes.writerBuf));
    ChunkFrame(input, s, WriterStep(input, s, n).value);
  }

  lemma ChunkFrame(input: seq<CByte>, s: State, s': State)
    requires s.bytes.numRead <= s.bytes.consumed <= |input|
    requires s'.bytes.numRead == s.bytes.numRead && s'.bytes.consumed == s.bytes.consumed
    ensures Chunk(input, s') == Chunk(input, s)
  {
  }

  lemma WriterMovesNoBytes(input: seq<CByte>, s: State, n: nat)
    requires WriterStep(input, s, n).Some? && !s.writer.Read? && !s.writer.Copy?
    ensures var s' := WriterStep(input, s, n).value; s'.bytes == s.bytes && s'.reader == s.reader
  {
  }

  lemma ReaderMovesNoBytes(s: State)
    requires ReaderStep(s).Some? && !s.reader.Copy? && !s.reader.Print?
    ensures var s' := ReaderStep(s).value; s'.bytes == s.bytes && s'.writer == s.writer
  {
  }

  lemma WriterIdles(input: seq<CByte>, s: State, n: nat)
    requires Inv(input, s) && WriterStep(input, s, n).Some? && !s.writer.Read? && !s.writer.Copy?
    ensures Transfer(input, WriterStep(input, s, n).value)
  {
    hide Tokens, Names, StartUp, InMemory, Pending, Store, CStr, NulFree, Chunk, Transfer, WriterStep;
    WriterMoves(input, s, n);
    WriterMovesNoBytes(input, s, n);
    TransferFrame(input, s, WriterStep(input, s, n).value);
  }

  lemma WriterKeepsTransfer(input: seq<CByte>, s: State, n: nat)
    requires Inv(input, s) && WriterStep(input, s, n).Some?
    ensures Transfer(input, WriterStep(input, s, n).value)
  {
    hide Inv, WriterStep, Transfer;
    if s.writer.Read? && n > 0 {
      WriterReads(input, s, n);
    } else if s.writer.Read? {
      WriterSeesEnd(input, s);
    } else if s.writer.Copy? {
      WriterCopies(input, s, n);
    } else {
      WriterIdles(input, s, n);
    }
  }

  lemma ReaderKeepsTokens(input: seq<CByte>, s: State)
    requires Inv(input, s) && ReaderStep(s).Some?
    ensures Tokens(ReaderStep(s).value)
  {
    hide Store, CStr, NulFree, Transfer, StartUp;
    NoOverrun(input, s);
  }

  lemma ReaderKeepsNames(input: seq<CByte>, s: State)
    requires Inv(input, s) && ReaderStep(s).Some?
    ensures Names(ReaderStep(s).value)
  {
    hide Store, CStr, NulFree, Transfer, StartUp, Tokens;
    NoOverrun(input, s);
  }

  lemma ReaderKeepsStartUp(input: seq<CByte>, s: State)
    requires Inv(input, s) && ReaderStep(s).Some?
    ensures StartUp(input, ReaderStep(s).value)
  {
    hide Store, CStr, NulFree, Transfer;
  }

  /** Where the chunk is before and after a step of the reader. */
  lemma ReaderMoves(input: seq<CByte>, s: State)
    requires Tokens(s) && Names(s) && ReaderStep(s).Some?
    ensures var s' := ReaderStep(s).value;
            && (s.reader.Copy? ==>
                  InMemory(s) && Pending(s) && !s.writer.Copy? && !InMemory(s') && (!s'.fault ==> Pending(s')))
            && (s.reader.Print? ==> Pending(s) && !Pending(s') && !s.writer.Copy? && !InMemory(s'))
            && (!s.reader.Copy? && !s.reader.Print? ==>
                  !s'.reader.Print? && InMemory(s') == InMemory(s) && Pending(s') == Pending(s))
  {
    hide Store, CStr, NulFree;
  }

  lemma ReaderCopies(input: seq<CByte>, s: State)
    requires Inv(input, s) && s.reader.Copy?
    ensures Transfer(input, ReaderStep(s).value)
  {
    hide Tokens, Names, StartUp, InMemory, Pending, Store, CStr, NulFree, Chunk;
    NoOverrun(input, s);
    ReaderMoves(input, s);
    CStrOfCStr(s.bytes.addr);
    StoredString(s.bytes.readerBuf, CStr(s.bytes.addr));
    ChunkFrame(input, s, ReaderStep(s).value);
  }

  lemma ReaderPrints(input: seq<CByte>, s: State)
    requires Inv(input, s) && s.reader.Print?
    ensures Transfer(input, ReaderStep(s).value)
  {
    hide Tokens, Names, StartUp, InMemory, Pending, Store, CStr, NulFree, Chunk;
    ReaderMoves(input, s);
    NulFreeAppend(s.bytes.output, CStr(s.bytes.readerBuf));
    ChunkPrints(input, s);
    ChunkFrame(input, s, ReaderStep(s).value);
  }

  lemma ReaderIdles(input: seq<CByte>, s: State)
    requires Inv(input, s) && ReaderStep(s).Some? && !s.reader.Copy? && !s.reader.Print?
    ensures Transfer(input, ReaderStep(s).value)
  {
    hide Tokens, Names, StartUp, InMemory, Pending, Store, CStr, NulFree, Chunk, Transfer, ReaderStep;
    ReaderMoves(input, s);
    ReaderMovesNoBytes(s);
    TransferFrame(input, s, ReaderStep(s).value);
  }

  lemma ReaderKeepsTransfer(input: seq<CByte>, s: State)
    requires Inv(input, s) && ReaderStep(s).Some?
    ensures Transfer(input, ReaderStep(s).value)
  {
    hide Inv, ReaderStep, Transfer;
    if s.reader.Copy? {
      ReaderCopies(input, s);
    } else if s.reader.Print? {
      ReaderPrints(input, s);
    } else {
      ReaderIdles(input, s);
    }
  }

  lemma ChunkPrints(input: seq<CByte>, s: State)
    requires s.bytes.numRead <= s.bytes.consumed <= |input|
    ensures input[..s.bytes.consumed] == input[..s.bytes.consumed - s.bytes.numRead] + Chunk(input, s)
    ensures NulFree(input) ==> CStr(Chunk(input, s)) == Chunk(input, s)
  {
  }

  lemma {:induction false} RunKeepsInv(input: seq<CByte>, schedule: seq<Actor>)
    requires Run(input, schedule).Some?
    ensures Inv(input, Run(input, schedule).value)
  {
    if schedule != [] {
      var who := schedule[|schedule| - 1];
      RunKeepsInv(input, schedule[..|schedule| - 1]);
      var before := Run(input, schedule[..|schedule| - 1]).value;
      match who
      case Writer(n) =>
        WriterKeepsTokens(input, before, n);
        WriterKeepsNames(input, before, n);
        WriterKeepsStartUp(input, before, n);
        WriterKeepsTransfer(input, before, n);
      case Reader =>
        ReaderKeepsTokens(input, before);
        ReaderKeepsNames(input, before);
        ReaderKeepsStartUp(input, before);
        ReaderKeepsTransfer(input, before);
    }
  }

  // ---------- what comes out ----------

  /** The chunks that the schedule's reads have cut the input into, one behind the other. */
  ghost function Chunks(input: seq<CByte>, schedule: seq<Actor>): seq<seq<CByte>> {
    if schedule == [] then []
    else
      var earlier, who := schedule[..|schedule| - 1], schedule[|schedule| - 1];
      var chunks := Chunks(input, earlier);
      if who.Writer? && Run(input, earlier).Some? && Run(input, earlier).value.writer.Read? then
        chunks + [NextChunk(input, chunks, who.n)]
      else chunks
  }

  /** The chunks that the reader has printed: all but the one on its way. */
  ghost function Done(s: State, chunks: seq<seq<CByte>>): seq<seq<CByte>> {
    if Pending(s) && chunks != [] then chunks[..|chunks| - 1] else chunks
  }

  ghost predicate Accounted(input: seq<CByte>, s: State, chunks: seq<seq<CByte>>) {
    && s.bytes.numRead <= s.bytes.consumed <= |input| && Join(chunks) == input[..s.bytes.consumed]
    && s.bytes.output == Printed(Done(s, chunks))
    && (Pending(s) ==> chunks != [] && chunks[|chunks| - 1] == Chunk(input, s))
  }

  lemma ReadAccounts(input: seq<CByte>, s: State, n: nat, chunks: seq<seq<CByte>>)
    requires Inv(input, s) && Accounted(input, s, chunks) && s.writer.Read? && WriterStep(input, s, n).Some?
    ensures Accounted(input, WriterStep(input, s, n).value, chunks + [NextChunk(input, chunks, n)])
  {
    hide Tokens, Names, StartUp, Transfer, InMemory, Pending, Store, CStr, NulFree, Join, Printed;
    var chunk := NextChunk(input, chunks, n);
    OneMore(chunks, chunk);
    WriterMoves(input, s, n);
    assert (chunks + [chunk])[..|chunks|] == chunks;
    if n == 0 {
      EmptyPrints(chunk);
    }
  }

  lemma EmptyPrints(chunk: seq<CByte>)
    requires chunk == []
    ensures CStr(chunk) == []
  {
  }

  lemma IdlingAccounts(input: seq<CByte>, s: State, s': State, chunks: seq<seq<CByte>>)
    requires Accounted(input, s, chunks) && Pending(s') == Pending(s)
    requires s'.bytes.numRead == s.bytes.numRead && s'.bytes.consumed == s.bytes.consumed
    requires s'.bytes.output == s.bytes.output
    ensures Accounted(input, s', chunks)
  {
    ChunkFrame(input, s, s');
    hide Join, Printed, Pending, Chunk;
  }

  lemma WriterAccounts(input: seq<CByte>, s: State, n: nat, chunks: seq<seq<CByte>>)
    requires Inv(input, s) && Accounted(input, s, chunks) && !s.writer.Read? && WriterStep(input, s, n).Some?
    ensures Accounted(input, WriterStep(input, s, n).value, chunks)
  {
    WriterMoves(input, s, n);
    NoOverrun(input, s);
    hide Inv, Accounted, Pending, InMemory, Store, CStr;
    IdlingAccounts(input, s, WriterStep(input, s, n).value, chunks);
  }

  lemma PrintAccounts(input: seq<CByte>, s: State, chunks: seq<seq<CByte>>)
    requires Inv(input, s) && Accounted(input, s, chunks) && s.reader.Print?
    ensures Accounted(input, ReaderStep(s).value, chunks)
  {
    hide Tokens, Names, StartUp, InMemory, Pending, Store, CStr, NulFree, Chunk, Join, Printed;
    ReaderMoves(input, s);
    OneMore(chunks[..|chunks| - 1], chunks[|chunks| - 1]);
    assert chunks[..|chunks| - 1] + [chunks[|chunks| - 1]] == chunks;
  }

  lemma ReaderCounts(s: State)
    requires ReaderStep(s).Some? && !s.reader.Print?
    ensures var s' := ReaderStep(s).value;
            && s'.bytes.numRead == s.bytes.numRead && s'.bytes.consumed == s.bytes.consumed
            && s'.bytes.output == s.bytes.output && (s'.fault ==> s.fault || s.reader.Copy?)
  {
    hide Store, CStr;
  }

  lemma CopyIsSafe(input: seq<CByte>, s: State)
    requires Inv(input, s) && s.reader.Copy?
    ensures !ReaderStep(s).value.fault
  {
    NoOverrun(input, s);
    hide Store, CStr;
  }

  lemma ReaderAccounts(input: seq<CByte>, s: State, chunks: seq<seq<CByte>>)
    requires Inv(input, s) && Accounted(input, s, chunks) && ReaderStep(s).Some?
    ensures Accounted(input, ReaderStep(s).value, chunks)
  {
    if s.reader.Print? {
      PrintAccounts(input, s, chunks);
    } else {
      ReaderMoves(input, s);
      if s.reader.Copy? {
        CopyIsSafe(input, s);
      }
      ReaderCounts(s);
      hide Inv, Accounted, Pending, InMemory, ReaderStep;
      IdlingAccounts(input, s, ReaderStep(s).value, chunks);
    }
  }

  lemma {:induction false} RunAccounts(input: seq<CByte>, schedule: seq<Actor>)
    requires Run(input, schedule).Some?
    ensures Accounted(input, Run(input, schedule).value, Chunks(input, schedule))
  {
    if schedule != [] {
      var earlier, who := schedule[..|schedule| - 1], schedule[|schedule| - 1];
      var before, chunks := Run(input, earlier).value, Chunks(input, earlier);
      RunAccounts(input, earlier);
      RunKeepsInv(input, earlier);
      hide Inv, Accounted, WriterStep, ReaderStep, NextChunk;
      if who.Reader? {
        ReaderAccounts(input, before, chunks);
      } else if before.writer.Read? {
        ReadAccounts(input, before, who.n, chunks);
      } else {
        WriterAccounts(input, before, who.n, chunks);
      }
    }
  }

  // ---------- the results ----------

  /** Semaphore values and processes between sem_wait() and sem_post() make one token, from the
      creation of the semaphores until the reader has seen the end of the input. */
  lemma OneToken(input: seq<CByte>, schedule: seq<Actor>)
    requires Run(input, schedule).Some?
    ensures var s := Run(input, schedule).value;
            && s.writeSem + s.readSem + InsideWriter(s) + InsideReader(s)
                 == (if WriterStarting(s) || ReaderGone(s) then 0 else 1)
            && (ReaderGone(s) ==> Eof(s))
  {
    RunKeepsInv(input, schedule);
  }

  /** Neither side touches the mapping while the object is shorter, or overruns a buffer. */
  lemma NoFault(input: seq<CByte>, schedule: seq<Actor>)
    requires Run(input, schedule).Some?
    ensures !Run(input, schedule).value.fault
  {
    RunKeepsInv(input, schedule);
  }

  /** The reader finds the size 0 only when the writer has read all the input: the object as
      created, before it was sized, is never taken for the end. */
  lemma StartUpIsNotEof(input: seq<CByte>, schedule: seq<Actor>)
    requires Run(input, schedule).Some?
    ensures var s := Run(input, schedule).value;
            s.reader.Fstat? && s.size == 0 ==>
              Eof(s) && s.bytes.consumed == |input| && (NulFree(input) ==> s.bytes.output == input)
  {
    RunKeepsInv(input, schedule);
  }

  lemma OutputIsPrefix(input: seq<CByte>, schedule: seq<Actor>)
    requires NulFree(input) && Run(input, schedule).Some?
    ensures Run(input, schedule).value.bytes.output <= input
  {
    RunKeepsInv(input, schedule);
    hide CStr, InMemory, Pending, Tokens, Names, StartUp;
  }

  /** Whatever the input holds: the chunks join to what has been read, and what has come out is each
      of them up to its first NUL, all but the one on its way; when the reader is at the end, all. */
  lemma OutputIsPrintedChunks(input: seq<CByte>, schedule: seq<Actor>)
    requires Run(input, schedule).Some?
    ensures var s, chunks := Run(input, schedule).value, Chunks(input, schedule);
            && Join(chunks) <= input && s.bytes.output == Printed(Done(s, chunks))
            && (ReaderGone(s) ==> Join(chunks) == input && s.bytes.output == Printed(chunks))
  {
    RunAccounts(input, schedule);
    RunKeepsInv(input, schedule);
    hide Run, Chunks, Join, Printed, CStr;
  }

  ghost predicate Stuck(input: seq<CByte>, s: State) {
    forall who :: Step(input, s, who).None?
  }

  /** Both processes have ended well and unlinked every name. */
  ghost predicate EndedWell(s: State) {
    s.writer.Exited? && s.reader.Exited? && !s.fault && !s.shmName && !s.writeName && !s.readName
  }

  /** With something to read, nothing stops before both have ended, and exactly text is copied. */
  lemma StuckIsTheEnd(input: seq<CByte>, schedule: seq<Actor>)
    requires input != [] && Run(input, schedule).Some? && Stuck(input, Run(input, schedule).value)
    ensures EndedWell(Run(input, schedule).value)
    ensures Run(input, schedule).value.bytes.output == input <==> NulFree(input)
  {
    RunKeepsInv(input, schedule);
    hide Inv, Step, Run, EndedWell;
    var s := Run(input, schedule).value;
    if !EndedWell(s) {
      SomeoneSteps(input, s);
      assert false;
    }
    FinalText(input, s);
  }

  lemma FinalText(input: seq<CByte>, s: State)
    requires Inv(input, s) && EndedWell(s)
    ensures s.bytes.output == input <==> NulFree(input)
  {
    assert s.bytes.consumed == |input| && !Pending(s);
    hide InMemory, Pending, Tokens, Names, StartUp;
  }

  lemma WriterWaits(input: seq<CByte>, s: State, n: nat)
    requires Inv(input, s) && n == (if s.bytes.consumed < |input| then 1 else 0)
    ensures WriterStep(input, s, n).None? <==>
              (s.writer.OpenRead? && !s.readName) || (s.writer.Wait? && s.writeSem == 0) || s.writer.Exited?
  {
    hide CStr, Store, NulFree, Tokens, Names, StartUp;
  }

  lemma SomeoneSteps(input: seq<CByte>, s: State)
    requires Inv(input, s) && input != [] && !EndedWell(s)
    ensures exists who :: Step(input, s, who).Some?
  {
    hide CStr, Store, NulFree, WriterStep, Transfer;
    var n := if s.bytes.consumed < |input| then 1 else 0;
    WriterWaits(input, s, n);
    if WriterStep(input, s, n).Some? {
      assert Step(input, s, Writer(n)).Some?;
    } else {
      assert Step(input, s, Reader).Some?;
    }
  }

  ghost function WriterWork(pc: WriterPc, rest: int): int {
    match pc
    case ShmOpen => 9 * rest + 16
    case Resize => 9 * rest + 15
    case CreateWrite => 9 * rest + 14
    case OpenRead => 9 * rest + 13
    case Wait => 9 * rest + 12
    case Read => 9 * rest + 11
    case Copy => 9 * rest + 19
    case Post => 9 * rest + 18
    case Truncate => 10
    case PostLast => 9
    case UnlinkWrite => 2
    case UnlinkShm => 1
    case Exited => 0
  }

  ghost function ReaderWork(pc: ReaderPc): nat {
    match pc
    case CreateRead => 3
    case OpenWrite => 2
    case OpenShm => 1
    case Wait => 0
    case Fstat => 4
    case Copy => 3
    case Print => 2
    case Post => 1
    case UnlinkRead => 1
    case Exited => 0
    case Failed => 0
  }

  ghost function StepsLeft(input: seq<CByte>, s: State): int {
    WriterWork(s.writer, |input| - s.bytes.consumed) + 5 * s.readSem + ReaderWork(s.reader)
  }

  lemma WriterStepsDecrease(input: seq<CByte>, s: State, n: nat)
    requires Inv(input, s) && WriterStep(input, s, n).Some?
    ensures StepsLeft(input, WriterStep(input, s, n).value) < StepsLeft(input, s)
  {
    hide Store, CStr, NulFree, Pending, InMemory, Chunk, ReaderWork;
  }

  lemma ReaderStepsDecrease(input: seq<CByte>, s: State)
    requires ReaderStep(s).Some?
    ensures StepsLeft(input, ReaderStep(s).value) < StepsLeft(input, s)
  {
    hide Store, CStr, NulFree, WriterWork;
    var s' := ReaderStep(s).value;
    match s.reader
    case CreateRead => assert s'.reader == OpenWrite && s'.readSem <= s.readSem;
    case OpenWrite => assert s'.reader == OpenShm;
    case OpenShm => assert s'.reader.Wait? || s'.reader.Failed?;
    case Wait => assert s'.reader == Fstat && s'.readSem == s.readSem - 1;
    case Fstat => assert s'.reader.UnlinkRead? || s'.reader.Copy?;
    case Copy => assert s'.reader.Exited? || s'.reader.Print?;
    case Print => assert s'.reader.Post?;
    case Post => assert s'.reader.Wait?;
    case UnlinkRead => assert s'.reader.Exited?;
  }

  lemma StepsLeftDecreases(input: seq<CByte>, s: State, who: Actor)
    requires Inv(input, s) && Step(input, s, who).Some?
    ensures StepsLeft(input, Step(input, s, who).value) < StepsLeft(input, s)
  {
    hide Inv, WriterStep, ReaderStep, StepsLeft;
    match who
    case Writer(n) => WriterStepsDecrease(input, s, n);
    case Reader => ReaderStepsDecrease(input, s);
  }

  /** Polling aside, any input is dealt with in at most 9|input| + 19 steps. */
  lemma {:induction false} RunsEnd(input: seq<CByte>, schedule: seq<Actor>)
    requires Run(input, schedule).Some?
    ensures |schedule| + StepsLeft(input, Run(input, schedule).value) <= 9 * |input| + 19
    ensures |schedule| <= 9 * |input| + 19
  {
    hide Inv, WriterStep, ReaderStep, StepsLeft;
    RunKeepsInv(input, schedule);
    StepsLeftBounds(input, Run(input, schedule).value);
    if schedule != [] {
      var before := schedule[..|schedule| - 1];
      RunsEnd(input, before);
      RunKeepsInv(input, before);
      StepsLeftDecreases(input, Run(input, before).value, schedule[|schedule| - 1]);
    }
  }

  lemma StepsLeftBounds(input: seq<CByte>, s: State)
    requires Inv(input, s)
    ensures StepsLeft(input, s) >= 0 && StepsLeft(input, InitialState()) == 9 * |input| + 19
  {
    hide Store, CStr, NulFree, Pending, InMemory, Chunk, Tokens, Names;
  }

  lemma Extend(input: seq<CByte>, schedule: seq<Actor>, s: State, who: Actor) returns (longer: seq<Actor>, s': State)
    requires Run(input, schedule) == Some(s) && Step(input, s, who).Some?
    ensures s' == Step(input, s, who).value && Run(input, longer) == Some(s')
  {
    longer, s' := schedule + [who], Step(input, s, who).value;
    assert longer[..|longer| - 1] == schedule;
  }

  function Sized(): State {
    State(CreateWrite, OpenWrite, true, false, true, MMAP_SIZE, 0, 0, Bytes(Blank(), Blank(), Blank(), 0, 0, []), false)
  }

  lemma BothStart() returns (schedule: seq<Actor>)
    ensures Run([], schedule) == Some(Sized())
  {
    var s := InitialState();
    assert Run([], []) == Some(s);
    hide Run, Blank;
    schedule, s := Extend([], [], s, Reader);
    schedule, s := Extend([], schedule, s, Writer(0));
    schedule, s := Extend([], schedule, s, Writer(0));
  }

  /** The writer has passed every wait; the reader has only created its semaphore. */
  function WriterAhead(): State {
    State(Read, OpenWrite, true, true, true, MMAP_SIZE, 0, 0, Bytes(Blank(), Blank(), Blank(), 0, 0, []), false)
  }

  lemma WriterGetsAhead() returns (schedule: seq<Actor>)
    ensures Run([], schedule) == Some(WriterAhead())
  {
    schedule := BothStart();
    var s := Sized();
    hide Run, Blank;
    schedule, s := Extend([], schedule, s, Writer(0));
    schedule, s := Extend([], schedule, s, Writer(0));
    schedule, s := Extend([], schedule, s, Writer(0));
  }

  function WriterAtEnd(): State {
    State(UnlinkWrite, OpenWrite, true, true, true, 0, 0, 1, Bytes(Blank(), Blank(), Blank(), 0, 0, []), false)
  }

  lemma WriterSeesNothing() returns (schedule: seq<Actor>)
    ensures Run([], schedule) == Some(WriterAtEnd())
  {
    schedule := WriterGetsAhead();
    var s := WriterAhead();
    hide Run, Blank;
    schedule, s := Extend([], schedule, s, Writer(0));
    schedule, s := Extend([], schedule, s, Writer(0));
    schedule, s := Extend([], schedule, s, Writer(0));
  }

  /** With nothing to read, the writer can end and remove the names before the reader has opened
      WRITER_SEM; the reader then polls for ever and READER_SEM stays behind. */
  lemma EmptyInputCanHang() returns (schedule: seq<Actor>)
    ensures Run([], schedule).Some? && Stuck([], Run([], schedule).value)
    ensures Run([], schedule).value.reader.OpenWrite? && !EndedWell(Run([], schedule).value)
  {
    schedule := WriterSeesNothing();
    var s := WriterAtEnd();
    hide Run, Blank;
    schedule, s := Extend([], schedule, s, Writer(0));
    schedule, s := Extend([], schedule, s, Writer(0));
  }

  /** Every run ends well exactly when there is something to read. */
  lemma EndsWellExactly(input: seq<CByte>)
    ensures input != [] <==>
            forall schedule ::
              Run(input, schedule).Some? && Stuck(input, Run(input, schedule).value) ==>
              EndedWell(Run(input, schedule).value)
  {
    if input == [] {
      var schedule := EmptyInputCanHang();
    } else {
      forall schedule | Run(input, schedule).Some? && Stuck(input, Run(input, schedule).value)
        ensures EndedWell(Run(input, schedule).value)
      {
        StuckIsTheEnd(input, schedule);
      }
    }
  }
}
