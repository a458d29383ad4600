/** lib/read_line_buf.c, the double-buffered line reader, against lib/read_line.c, the
    reader that fetches one byte at a time. */
module LineReader {
  import opened CString

  const NL: CByte := 10
  const MAX_MSG_LEN := 4096
  const BUF_LEN := 2 * MAX_MSG_LEN
  const USE_BUF := 1
  const USE_SWAP := 0

  // ---------- the specification: lines of a byte stream ----------

  ghost predicate NoNewline(data: seq<CByte>, from: nat, to: nat)
    requires to <= |data|
  {
    forall i :: from <= i < to ==> data[i] != NL
  }

  /** A line begins at i. */
  ghost predicate LineStart(data: seq<CByte>, i: nat) {
    i <= |data| && (i == 0 || data[i - 1] == NL)
  }

  /** No line begins with MAX_MSG_LEN bytes without a newline and has as many bytes again behind
      them.  Streams of lines of at most MAX_MSG_LEN bytes satisfy this, and others that end
      before a buffer is full; FitsExactly says that it is the exact bound. */
  ghost predicate LinesFit(data: seq<CByte>) {
    forall i: nat :: LineStart(data, i) && i + BUF_LEN <= |data| ==> !NoNewline(data, i, i + MAX_MSG_LEN)
  }

  ghost predicate IsLine(data: seq<CByte>, i: nat, j: nat) {
    LineStart(data, i) && i < j <= |data| && data[j - 1] == NL && NoNewline(data, i, j - 1)
  }

  /** A buffer of n bytes has room for every line and a NUL. */
  ghost predicate HasRoom(data: seq<CByte>, n: nat) {
    forall i: nat, j: nat :: IsLine(data, i, j) ==> j - i < n
  }

  lemma LongLinesFit(data: seq<CByte>)
    requires LinesFit(data)
    ensures HasRoom(data, BUF_LEN)
  {
    forall i: nat, j: nat | IsLine(data, i, j) ensures j - i < BUF_LEN {
      assert i + BUF_LEN <= |data| ==> !NoNewline(data, i, i + MAX_MSG_LEN);
    }
  }

  /** What the header of the library has in mind: lines of at most MAX_MSG_LEN bytes. */
  lemma ShortLinesFit(data: seq<CByte>)
    requires HasRoom(data, MAX_MSG_LEN + 1) && Terminated(data)
    ensures LinesFit(data)
  {
    forall i: nat | LineStart(data, i) && i + BUF_LEN <= |data| ensures !NoNewline(data, i, i + MAX_MSG_LEN) {
      LineEndIsWithin(data, i);
      assert IsLine(data, i, LineEnd(data, i));
    }
  }

  /** The stream ends with a newline. */
  ghost predicate Terminated(data: seq<CByte>) {
    data == [] || data[|data| - 1] == NL
  }

  /** A newline and what comes before it. */
  ghost predicate WholeLine(line: seq<CByte>) {
    line != [] && line[|line| - 1] == NL && NL !in line[..|line| - 1]
  }

  // ---------- the lines of a stream ----------

  /** Just behind the first newline at or after `from`; beyond the end if there is none. */
  ghost function LineEnd(data: seq<CByte>, from: nat): (e: nat)
    ensures from < e
    ensures e <= |data| ==> data[e - 1] == NL
    ensures forall i :: from <= i < e - 1 && i < |data| ==> data[i] != NL
    decreases |data| - from
  {
    if from >= |data| then from + 1
    else if data[from] == NL then from + 1
    else LineEnd(data, from + 1)
  }

  /** All complete lines from an offset on. */
  ghost function Lines(data: seq<CByte>, from: nat): seq<seq<CByte>>
    decreases |data| - from
  {
    var e := LineEnd(data, from);
    if e > |data| then [] else [data[from..e]] + Lines(data, e)
  }

  lemma LinesFrom(data: seq<CByte>, from: nat)
    requires LineEnd(data, from) <= |data|
    ensures Lines(data, from) == [data[from..LineEnd(data, from)]] + Lines(data, LineEnd(data, from))
  {
  }

  lemma {:induction false} LineEndIsFirstNewline(data: seq<CByte>, from: nat, e: nat)
    requires from < e <= |data| && data[e - 1] == NL && NoNewline(data, from, e - 1)
    ensures LineEnd(data, from) == e
    decreases e - from
  {
    if from + 1 < e {
      LineEndIsFirstNewline(data, from + 1, e);
    }
  }

  lemma LineEndIsWithin(data: seq<CByte>, from: nat)
    requires from < |data| && data[|data| - 1] == NL
    ensures LineEnd(data, from) <= |data|
  {
  }

  lemma {:induction false} NoLineLeft(data: seq<CByte>, from: nat)
    requires from <= |data| && NoNewline(data, from, |data|)
    ensures LineEnd(data, from) == |data| + 1 && Lines(data, from) == []
    decreases |data| - from
  {
    if from < |data| {
      NoLineLeft(data, from + 1);
    }
  }

  // ---------- the file descriptor ----------

  /** What one read() does: it delivers at most `most` bytes, or nothing, or fails. */
  datatype Outcome = Some(most: nat) | Nothing | Interrupted | Failed

  /** What read() returns when it is asked for `max` bytes and `rest` are left. */
  function Delivered(outcome: Outcome, max: nat, rest: nat): (n: int)
    ensures -1 <= n <= max && n <= rest
    ensures n == -1 <==> outcome.Interrupted? || outcome.Failed?
    ensures n == 0 <==> outcome.Nothing? || (outcome.Some? && (max == 0 || rest == 0))
  {
    match outcome
    case Nothing => 0
    case Interrupted => -1
    case Failed => -1
    case Some(most) => Min(Min(if most < 1 then 1 else most, max), rest)
  }

  function Min(a: nat, b: nat): nat { if a < b then a else b }

  /** The outcome of the next read(), and those of the ones after it. */
  function Next(script: seq<Outcome>): Outcome { if script == [] then Outcome.Some(MAX_MSG_LEN) else script[0] }

  function Later(script: seq<Outcome>): seq<Outcome> { if script == [] then [] else script[1..] }

  /** The chunk is stored at an index, as far as there is room. */
  ghost predicate Stored(before: seq<CByte>, b: seq<CByte>, at: nat, chunk: seq<CByte>) {
    |b| == |before| && forall i :: 0 <= i < |b| ==> b[i] == if at <= i < at + |chunk| then chunk[i - at] else before[i]
  }

  /** A stream of bytes and a script of outcomes, any of which may come at any time; a read()
      beyond the script delivers all it can, up to MAX_MSG_LEN bytes. */
  class Fd {
    const data: seq<CByte>
    var pos: nat
    var script: seq<Outcome>
    var interrupted: bool  // errno == EINTR

    constructor (data: seq<CByte>, script: seq<Outcome>)
      ensures this.data == data && this.script == script && pos == 0
    {
      this.data, this.script := data, script;
      pos, interrupted := 0, false;
    }

    ghost predicate Valid()
      reads this
    {
      pos <= |data|
    }

    /** read(fd, &buf[off], max).  Bytes that the buffer has no room for are not stored. */
    method Read(buf: array<CByte>, off: nat, max: nat) returns (n: int)
      requires Valid() && max > 0 && off <= buf.Length
      modifies this, buf
      ensures Valid() && n == Delivered(Next(old(script)), max, |data| - old(pos)) && script == Later(old(script))
      ensures pos == old(pos) + if n > 0 then n else 0
      ensures Stored(old(buf[..]), buf[..], off, data[old(pos)..pos])
      ensures n == -1 ==> Next(old(script)) == if interrupted then Interrupted else Failed
    {
      var outcome := Next(script);
      script := Later(script);
      match outcome
      case Nothing => return 0;
      case Interrupted =>
        interrupted := true;
        return -1;
      case Failed =>
        interrupted := false;
        return -1;
      case Some(most) =>
        n := Delivered(outcome, max, |data| - pos);
        var i := 0;
        while i < n && off + i < buf.Length
          modifies buf
          invariant 0 <= i <= n && off + i <= buf.Length
          invariant forall j :: off <= j < off + i ==> buf[j] == data[pos + j - off]
          invariant forall j :: 0 <= j < buf.Length && !(off <= j < off + i) ==> buf[j] == old(buf[j])
        {
          buf[off + i] := data[pos + i];
          i := i + 1;
        }
        pos := pos + n;
    }
  }

  /** No read() fails or reports an early end of file; a signal may interrupt one. */
  ghost predicate Steady(script: seq<Outcome>) {
    forall i :: 0 <= i < |script| ==> script[i].Some? || script[i].Interrupted?
  }

  /** Every read() delivers something until the file ends. */
  ghost predicate Quiet(script: seq<Outcome>) {
    forall i :: 0 <= i < |script| ==> script[i].Some?
  }

  lemma SteadyLater(script: seq<Outcome>)
    ensures Steady(script) ==> Steady(Later(script)) && (Next(script).Some? || Next(script).Interrupted?)
    ensures |Later(script)| <= |script| && (Next(script).Some? || |Later(script)| < |script|)
  {
    assert forall i :: 0 <= i < |Later(script)| ==> Later(script)[i] == script[i + 1];
  }

  /** Of the outcomes `was`, those of `now` are left. */
  ghost predicate Left(was: seq<Outcome>, now: seq<Outcome>) {
    |now| <= |was| && now == was[|was| - |now|..]
  }

  /** Among those used up is a failure. */
  ghost predicate HasFailed(was: seq<Outcome>, now: seq<Outcome>) {
    exists i :: 0 <= i < |was| - |now| && was[i].Failed?
  }

  lemma LaterUses(script: seq<Outcome>)
    ensures Left(script, Later(script)) && (HasFailed(script, Later(script)) <==> Next(script).Failed?)
  {
    if script != [] {
      assert script[0] == Next(script) && |script| - |Later(script)| == 1;
    }
  }

  lemma LeftTwice(was: seq<Outcome>, mid: seq<Outcome>, now: seq<Outcome>)
    requires Left(was, mid) && Left(mid, now)
    ensures Left(was, now) && (HasFailed(was, now) <==> HasFailed(was, mid) || HasFailed(mid, now))
  {
    var k := |was| - |mid|;
    assert forall i :: 0 <= i < |mid| ==> mid[i] == was[k + i];
    assert forall i :: 0 <= i < |now| ==> now[i] == mid[|mid| - |now| + i];
    if i :| 0 <= i < |mid| - |now| && mid[i].Failed? {
      assert was[k + i].Failed?;
    }
    if i :| 0 <= i < |was| - |now| && was[i].Failed? {
      assert i >= k ==> mid[i - k].Failed?;
    }
  }

  lemma OneMoreUsed(was: seq<Outcome>, now: seq<Outcome>)
    requires Left(was, now) && !HasFailed(was, now)
    ensures Left(was, Later(now)) && (HasFailed(was, Later(now)) <==> Next(now).Failed?)
  {
    LaterUses(now);
    hide Left, HasFailed, Later, Next;
    LeftTwice(was, now, Later(now));
  }

  /** read(fd, &ch, 1), again while a signal interrupts it. */
  method ReadByte(fd: Fd, ch: array<CByte>) returns (numRead: int)
    requires fd.Valid() && ch.Length == 1
    modifies fd, ch
    ensures fd.Valid() && -1 <= numRead <= 1 && fd.pos == old(fd.pos) + if numRead > 0 then 1 else 0
    ensures numRead == 1 ==> ch[0] == fd.data[old(fd.pos)]
    ensures Left(old(fd.script), fd.script) && (numRead == -1 <==> HasFailed(old(fd.script), fd.script))
    ensures Steady(old(fd.script)) ==> Steady(fd.script) && numRead >= 0 && (numRead == 0 ==> fd.pos == |fd.data|)
  {
    assert Left(fd.script, fd.script) && !HasFailed(fd.script, fd.script);
    hide Delivered, Next, Later, Steady, Left, HasFailed;
    numRead := -1;
    while true
      invariant fd.Valid() && fd.pos == old(fd.pos)
      invariant Left(old(fd.script), fd.script) && !HasFailed(old(fd.script), fd.script)
      invariant Steady(old(fd.script)) ==> Steady(fd.script)
      decreases |fd.script|
    {
      SteadyLater(fd.script);
      OneMoreUsed(old(fd.script), fd.script);
      numRead := fd.Read(ch, 0, 1);
      if numRead != -1 || !fd.interrupted {
        return;
      }
    }
  }

  /** readLine(fd, buffer, n) of lib/read_line.c */
  method ReadLine(fd: Fd, buffer: array<CByte>, n: nat) returns (r: int)
    requires fd.Valid() && n <= buffer.Length
    modifies fd, buffer
    ensures fd.Valid() && old(fd.pos) <= fd.pos
    ensures n == 0 ==> r == -1
    // the first n - 1 bytes are kept, the rest of the line is discarded
    ensures r >= 0 ==> r == (if fd.pos - old(fd.pos) < n then fd.pos - old(fd.pos) else n - 1)
    ensures forall i :: 0 <= i < r ==> buffer[i] == fd.data[old(fd.pos) + i]
    ensures r > 0 ==> buffer[r] == NUL
    // it stops behind the first newline, or where read() says the file ends
    ensures r >= 0 && fd.pos > old(fd.pos) ==> NoNewline(fd.data, old(fd.pos), fd.pos - 1)
    // -1 says that a read() has failed, and not that one was interrupted
    ensures n > 0 ==> Left(old(fd.script), fd.script) && (r == -1 <==> HasFailed(old(fd.script), fd.script))
    ensures n > 0 && Steady(old(fd.script)) ==>
      r >= 0 && Steady(fd.script) && (fd.pos == |fd.data| || (fd.pos > old(fd.pos) && fd.data[fd.pos - 1] == NL))
  {
    assert Left(fd.script, fd.script) && !HasFailed(fd.script, fd.script);
    hide Steady, Left, HasFailed;
    if n == 0 {
      return -1;
    }
    var ch := new CByte[1];
    var totRead := 0;
    while true
      invariant fd.Valid() && old(fd.pos) <= fd.pos && fresh(ch) && ch.Length == 1
      invariant totRead == (if fd.pos - old(fd.pos) < n then fd.pos - old(fd.pos) else n - 1)
      invariant forall i :: 0 <= i < totRead ==> buffer[i] == fd.data[old(fd.pos) + i]
      invariant NoNewline(fd.data, old(fd.pos), fd.pos)
      invariant Steady(old(fd.script)) ==> Steady(fd.script)
      invariant Left(old(fd.script), fd.script) && !HasFailed(old(fd.script), fd.script)
      decreases |fd.data| - fd.pos
    {
      ghost var before := fd.script;
      var numRead := ReadByte(fd, ch);
      LeftTwice(old(fd.script), before, fd.script);
      if numRead == -1 {
        return -1;
      } else if numRead == 0 {
        if totRead == 0 {
          return 0;
        }
        break;
      } else {
        if totRead < n - 1 {
          buffer[totRead] := ch[0];
          totRead := totRead + 1;
        }
        if ch[0] == NL {
          break;
        }
      }
    }
    buffer[totRead] := NUL;
    r := totRead;
  }

  /** memcpy(dst, &src[from], len) */
  method Copy(src: array<CByte>, from: nat, dst: array<CByte>, len: nat)
    requires src != dst && from + len <= src.Length && len <= dst.Length
    modifies dst
    ensures forall i :: 0 <= i < len ==> dst[i] == src[from + i]
    ensures forall i :: len <= i < dst.Length ==> dst[i] == old(dst[i])
  {
    var i := 0;
    while i < len
      invariant 0 <= i <= len
      invariant forall j :: 0 <= j < i ==> dst[j] == src[from + j]
      invariant forall j :: len <= j < dst.Length ==> dst[j] == old(dst[j])
    {
      dst[i] := src[from + i];
      i := i + 1;
    }
  }

  // ---------- what the buffered reader does ----------

  /** How read_line_buf() returns, or what it runs into. */
  datatype Return =
    | Returned(n: int)
    | Overrun   // writes past the end of a buffer
    | Underrun  // reads the byte in front of a buffer

  /** What one call does: how it returns, with which line, and where it leaves the stream and the
      bytes that are read but not yet returned. */
  datatype Call = Call(r: Return, line: seq<CByte>, pos: nat, script: seq<Outcome>, have: seq<CByte>)

  /** One read() behind an unfinished line at the start of a buffer. */
  ghost function OneRead(data: seq<CByte>, pos: nat, script: seq<Outcome>, have: seq<CByte>): (c: Call)
    requires pos <= |data|
    ensures pos <= c.pos <= |data| && c.line == [] && |c.have| <= |have| + c.pos - pos
    ensures !c.r.Underrun?
    ensures c.r.Returned? ==> if c.r.n < 1 then c.pos == pos && c.have == have else pos < c.pos
  {
    var n := Delivered(Next(script), MAX_MSG_LEN, |data| - pos);
    if n < 1 then Call(Returned(n), [], pos, Later(script), have)
    else if |have| + n >= BUF_LEN then Call(Overrun, [], pos + n, Later(script), have)
    else Call(Returned(n), [], pos + n, Later(script), have + CStr(data[pos..pos + n]))
  }

  /** One call of read_line_buf(), for a caller whose buffer has `room` bytes: it returns the first
      line of what it has, or reads on until it has one.  Of what one read() delivers, it sees only
      what lies before the first NUL. */
  ghost function NextCall(data: seq<CByte>, pos: nat, script: seq<Outcome>, have: seq<CByte>, room: nat): (c: Call)
    requires pos <= |data|
    ensures pos <= c.pos <= |data| && |c.line| + |c.have| <= |have| + c.pos - pos
    ensures c.r.Returned? ==> |c.line| == if c.r.n > 0 then c.r.n else 0
    decreases |data| - pos
  {
    var e := LineEnd(have, 0);
    if e <= |have| then
      if e >= room then Call(Overrun, [], pos, script, have) else Call(Returned(e), have[..e], pos, script, have[e..])
    else
      var c := OneRead(data, pos, script, have);
      if !c.r.Returned? || c.r.n < 1 then c
      else if c.have == [] then Call(Underrun, [], c.pos, c.script, [])
      else NextCall(data, c.pos, c.script, c.have, room)
  }

  datatype Drained = Drained(lines: seq<seq<CByte>>, end: Return)

  ghost function Behind(line: seq<CByte>, more: Drained): Drained { Drained([line] + more.lines, more.end) }

  /** The lines that successive calls return, up to the first call that returns none. */
  ghost function Drain(data: seq<CByte>, pos: nat, script: seq<Outcome>, have: seq<CByte>, room: nat): Drained
    requires pos <= |data|
    decreases |data| - pos + |have|
  {
    var c := NextCall(data, pos, script, have, room);
    if !c.r.Returned? || c.r.n <= 0 then Drained([], c.r)
    else Behind(c.line, Drain(data, c.pos, c.script, c.have, room))
  }

  /** The lines that so many calls return to a caller that calls again after 0 and after -1. */
  ghost function Calls(data: seq<CByte>, pos: nat, script: seq<Outcome>, have: seq<CByte>, room: nat, k: nat): Drained
    requires pos <= |data|
    decreases k
  {
    if k == 0 then Drained([], Returned(0))
    else
      var c := NextCall(data, pos, script, have, room);
      if !c.r.Returned? then Drained([], c.r)
      else
        var more := Calls(data, c.pos, c.script, c.have, room, k - 1);
        if c.r.n <= 0 then more else Behind(c.line, more)
  }

  /** All that the reader sees until a read() delivers nothing. */
  ghost function Seen(data: seq<CByte>, pos: nat, script: seq<Outcome>): seq<CByte>
    requires pos <= |data|
    decreases |data| - pos
  {
    var n := Delivered(Next(script), MAX_MSG_LEN, |data| - pos);
    if n < 1 then [] else CStr(data[pos..pos + n]) + Seen(data, pos + n, Later(script))
  }

  /** With no newline in what it has, a call starts with a read(). */
  lemma CallGoesOn(data: seq<CByte>, pos: nat, script: seq<Outcome>, have: seq<CByte>, room: nat)
    requires pos <= |data| && NL !in have
    ensures var c := OneRead(data, pos, script, have);
            NextCall(data, pos, script, have, room)
            == if !c.r.Returned? || c.r.n < 1 then c
               else if c.have == [] then Call(Underrun, [], c.pos, c.script, [])
               else NextCall(data, c.pos, c.script, c.have, room)
  {
    NoLineLeft(have, 0);
    hide OneRead, LineEnd;
  }

  lemma DrainGoesOn(data: seq<CByte>, pos: nat, script: seq<Outcome>, have: seq<CByte>, room: nat)
    requires pos <= |data| && NL !in have
    ensures var c := OneRead(data, pos, script, have);
            Drain(data, pos, script, have, room)
            == if !c.r.Returned? || c.r.n < 1 then Drained([], c.r)
               else if c.have == [] then Drained([], Underrun)
               else Drain(data, c.pos, c.script, c.have, room)
  {
    CallGoesOn(data, pos, script, have, room);
    hide NextCall, OneRead;
  }

  lemma SeenReads(data: seq<CByte>, pos: nat, script: seq<Outcome>, have: seq<CByte>)
    requires pos <= |data|
    ensures var n := Delivered(Next(script), MAX_MSG_LEN, |data| - pos);
            have + Seen(data, pos, script)
            == if n < 1 then have else have + CStr(data[pos..pos + n]) + Seen(data, pos + n, Later(script))
  {
    hide Delivered, CStr, Next, Later;
  }

  lemma SeenGoesOn(data: seq<CByte>, pos: nat, script: seq<Outcome>, have: seq<CByte>)
    requires pos <= |data|
    ensures var c := OneRead(data, pos, script, have);
            c.r.Returned? ==>
              have + Seen(data, pos, script) == if c.r.n < 1 then c.have else c.have + Seen(data, c.pos, c.script)
  {
    ReadReturns(data, pos, script, have);
    hide OneRead, Seen, Delivered, CStr, Next, Later;
    SeenReads(data, pos, script, have);
  }

  lemma ReadReturns(data: seq<CByte>, pos: nat, script: seq<Outcome>, have: seq<CByte>)
    requires pos <= |data|
    ensures var c, n := OneRead(data, pos, script, have), Delivered(Next(script), MAX_MSG_LEN, |data| - pos);
            && (c.r == if n >= 1 && |have| + n >= BUF_LEN then Overrun else Returned(n))
            && (n < 1 ==> c == Call(Returned(n), [], pos, Later(script), have))
            && (c.r.Returned? && n >= 1 ==>
                  c.pos == pos + n && c.script == Later(script) && c.have == have + CStr(data[pos..pos + n]))
  {
    hide Delivered, CStr, Next, Later;
  }

  /** With a newline, it returns what lies before it. */
  lemma CallReturns(data: seq<CByte>, pos: nat, script: seq<Outcome>, have: seq<CByte>, room: nat, k: nat)
    requires pos <= |data| && k < |have| && have[k] == NL && NL !in have[..k]
    ensures NextCall(data, pos, script, have, room)
            == if k + 1 >= room then Call(Overrun, [], pos, script, have)
               else Call(Returned(k + 1), have[..k + 1], pos, script, have[k + 1..])
    ensures WholeLine(have[..k + 1])
  {
    FirstNewline(have, k);
  }

  lemma DrainReturns(data: seq<CByte>, pos: nat, script: seq<Outcome>, have: seq<CByte>, room: nat, k: nat)
    requires pos <= |data| && k < |have| && have[k] == NL && NL !in have[..k]
    ensures Drain(data, pos, script, have, room)
            == if k + 1 >= room then Drained([], Overrun)
               else Behind(have[..k + 1], Drain(data, pos, script, have[k + 1..], room))
    ensures WholeLine(have[..k + 1])
    ensures have + Seen(data, pos, script) == have[..k + 1] + (have[k + 1..] + Seen(data, pos, script))
  {
    CallReturns(data, pos, script, have, room, k);
    hide NextCall, Seen, LineEnd, WholeLine;
    SplitBehind(have, k + 1, Seen(data, pos, script));
  }

  lemma SplitBehind(have: seq<CByte>, e: nat, more: seq<CByte>)
    requires e <= |have|
    ensures have + more == have[..e] + (have[e..] + more)
    ensures more == [] ==> have + more == have[..e] + have[e..]
  {
  }

  lemma FirstNewline(have: seq<CByte>, k: nat)
    requires k < |have| && have[k] == NL && NL !in have[..k]
    ensures LineEnd(have, 0) == k + 1 && WholeLine(have[..k + 1])
  {
    assert forall i :: 0 <= i < k ==> have[i] == have[..k][i];
    LineEndIsFirstNewline(have, 0, k + 1);
    assert have[..k + 1][..k] == have[..k];
  }

  /** A call returns a whole line, or none while it has none; whatever it sees it returns or keeps. */
  lemma {:induction false} CallKeepsAllSeen(
      data: seq<CByte>, pos: nat, script: seq<Outcome>, have: seq<CByte>, room: nat)
    requires pos <= |data|
    ensures var c := NextCall(data, pos, script, have, room);
            c.r.Returned? ==>
              if c.r.n <= 0 then NL !in c.have && c.have == have + Seen(data, pos, script)
              else
                && WholeLine(c.line)
                && have + Seen(data, pos, script) == c.line + (c.have + Seen(data, c.pos, c.script))
    decreases |data| - pos
  {
    hide Seen, Delivered, CStr, Next, Later, LineEnd, WholeLine;
    var e := LineEnd(have, 0);
    NewlineAt(have, e);
    if e <= |have| {
      CallReturns(data, pos, script, have, room, e - 1);
      hide NextCall;
      SplitBehind(have, e, Seen(data, pos, script));
    } else {
      CallGoesOn(data, pos, script, have, room);
      SeenGoesOn(data, pos, script, have);
      hide NextCall, OneRead;
      var c := OneRead(data, pos, script, have);
      if c.r.Returned? && c.r.n >= 1 && c.have != [] {
        CallKeepsAllSeen(data, c.pos, c.script, c.have, room);
      }
    }
  }

  lemma JoinReads(data: seq<CByte>, from: nat, mid: nat, to: nat, have: seq<CByte>)
    requires from <= mid <= to <= |data|
    ensures have + data[from..to] == have + data[from..mid] + data[mid..to]
  {
  }

  lemma ReadLosesNothing(data: seq<CByte>, pos: nat, script: seq<Outcome>, have: seq<CByte>)
    requires pos <= |data| && NulFree(data)
    ensures var c := OneRead(data, pos, script, have);
            c.r.Returned? ==> c.have == have + data[pos..c.pos]
  {
    hide Delivered, Next, Later, CStr, NulFree;
    var n := Delivered(Next(script), MAX_MSG_LEN, |data| - pos);
    if n >= 1 {
      ChunkIsText(data, pos, n);
    }
  }

  /** One read() of text, where a line begins at `start`. */
  lemma TextIsRead(data: seq<CByte>, pos: nat, script: seq<Outcome>, start: nat)
    requires start <= pos <= |data| && NulFree(data)
    ensures var n := Delivered(Next(script), MAX_MSG_LEN, |data| - pos);
            OneRead(data, pos, script, data[start..pos])
            == if n < 1 then Call(Returned(n), [], pos, Later(script), data[start..pos])
               else if pos + n - start >= BUF_LEN then Call(Overrun, [], pos + n, Later(script), data[start..pos])
               else Call(Returned(n), [], pos + n, Later(script), data[start..pos + n])
  {
    hide Delivered, Next, Later, CStr, NulFree;
    var n := Delivered(Next(script), MAX_MSG_LEN, |data| - pos);
    if n >= 1 {
      ChunkIsText(data, pos, n);
      assert data[start..pos] + data[pos..pos + n] == data[start..pos + n];
    }
  }

  lemma SeenIsText(data: seq<CByte>, pos: nat, script: seq<Outcome>, have: seq<CByte>)
    requires pos <= |data| && NulFree(have)
    ensures NulFree(OneRead(data, pos, script, have).have)
  {
  }

  /** Of text without NULs no byte is lost: what a call has and reads is what it returns and keeps,
      also where read() delivered nothing in the middle of a line. */
  lemma {:induction false} CallLosesNothing(
      data: seq<CByte>, pos: nat, script: seq<Outcome>, have: seq<CByte>, room: nat)
    requires pos <= |data| && NulFree(data)
    ensures var c := NextCall(data, pos, script, have, room);
            c.r.Returned? ==> have + data[pos..c.pos] == c.line + c.have
    decreases |data| - pos
  {
    hide OneRead, LineEnd, NulFree, WholeLine;
    var e := LineEnd(have, 0);
    NewlineAt(have, e);
    if e <= |have| {
      CallReturns(data, pos, script, have, room, e - 1);
      hide NextCall;
      SplitBehind(have, e, data[pos..pos]);
    } else {
      CallGoesOn(data, pos, script, have, room);
      ReadLosesNothing(data, pos, script, have);
      hide NextCall;
      var c := OneRead(data, pos, script, have);
      if c.r.Returned? && c.r.n >= 1 && c.have != [] {
        CallLosesNothing(data, c.pos, c.script, c.have, room);
        JoinReads(data, pos, c.pos, NextCall(data, c.pos, c.script, c.have, room).pos, have);
      }
    }
  }

  /** The buffer holds this text at an index, and a NUL behind it. */
  ghost predicate TextAt(b: seq<CByte>, at: nat, text: seq<CByte>) {
    at + |text| < |b| && b[at..at + |text|] == text && b[at + |text|] == NUL
  }

  /** struct rlbuf.  `next_char` is a pointer: the array nextBuf and the index nextChar in it. */
  class RlBuf {
    const fd: Fd
    const buf: array<CByte>
    const swap: array<CByte>
    var bufType: int
    var nextBuf: array<CByte>
    var nextChar: nat
    ghost var have: seq<CByte>  // seen but not yet returned

    ghost predicate Shape()
      reads this, fd
    {
      && buf != swap && buf.Length == swap.Length == BUF_LEN
      && (bufType == USE_BUF || bufType == USE_SWAP)
      && nextBuf == (if bufType == USE_BUF then buf else swap)
      && fd.Valid() && NulFree(have)
    }

    /** What is seen lies behind next_char, up to a NUL. */
    ghost predicate Buffered()
      reads this, fd, buf, swap
      requires Shape()
    {
      TextAt(nextBuf[..], nextChar, have)
    }

    /** The beginning of a line lies before next_char, at the start of the buffer. */
    ghost predicate Truncated()
      reads this, fd, buf, swap
      requires Shape()
    {
      nextChar == |have| && NL !in have && TextAt(nextBuf[..], 0, have)
    }

    ghost predicate Valid()
      reads this, fd, buf, swap
    {
      Shape() && ((have != [] && Buffered()) || Truncated())
    }

    /** What the next call does. */
    ghost function Coming(room: nat): Call
      reads this, fd
      requires fd.Valid()
    {
      NextCall(fd.data, fd.pos, fd.script, have, room)
    }

    /** What is left of a call that has what it read behind next_char. */
    ghost function Scanned(room: nat): Call
      reads this, fd
      requires fd.Valid()
    {
      if have == [] then Call(Underrun, [], fd.pos, fd.script, []) else Coming(room)
    }

    /** The call has returned as it should, and the stream and what is kept are as they should be. */
    ghost predicate IsAfter(c: Call, r: Return, line: array<CByte>)
      reads this, fd, buf, swap, line
    {
      && r == c.r && fd.Valid()
      && (r.Returned? ==> Valid() && fd.pos == c.pos && fd.script == c.script && have == c.have)
      && (r.Returned? && r.n > 0 ==> r.n < line.Length && line[..r.n] == c.line && line[r.n] == NUL)
    }

    /** All that will be seen until a read() delivers nothing. */
    ghost function Ahead(): seq<CByte>
      reads this, fd
      requires fd.Valid()
    {
      have + Seen(fd.data, fd.pos, fd.script)
    }

    /** read_line_buf_init */
    constructor (fd: Fd)
      requires fd.Valid()
      ensures Valid() && this.fd == fd && have == [] && fresh(buf) && fresh(swap)
    {
      this.fd := fd;
      buf := new CByte[BUF_LEN];
      swap := new CByte[BUF_LEN];
      have, nextChar, bufType := [], 0, USE_BUF;
      new;
      nextBuf := buf;
      buf[0] := NUL;
    }

    /** read_line_buf(rlbuf, line) */
    method ReadLineBuf(line: array<CByte>) returns (r: Return)
      requires Valid() && line != buf && line != swap
      modifies this, fd, buf, swap, line
      ensures IsAfter(old(Coming(line.Length)), r, line) && old(fd.pos) <= fd.pos
      ensures r.Returned? && r.n > 0 ==> WholeLine(line[..r.n]) && old(Ahead()) == line[..r.n] + Ahead()
      ensures r.Returned? && r.n <= 0 ==> NL !in have && have == old(Ahead())
      ensures r.Returned? && NulFree(fd.data) ==>
        old(have) + fd.data[old(fd.pos)..fd.pos] == (if r.n > 0 then line[..r.n] else []) + have
      decreases |fd.data| - fd.pos + (if Truncated() then 0 else 1), 2
    {
      assert nextChar < BUF_LEN && (nextBuf[nextChar] == NUL <==> Truncated());
      hide NextCall, OneRead, Seen, WholeLine, NulFree, TextAt;
      Promised(fd.pos, fd.script, have, line.Length);
      if nextBuf[nextChar] == NUL {
        CallGoesOn(fd.data, fd.pos, fd.script, have, line.Length);
        r := Refill();
        if r.Overrun? || r.n < 1 {
          return r;
        }
      }
      assert old(Coming(line.Length)) == Scanned(line.Length);
      hide RlBuf.Scanned;
      r := Scan(line);
    }

    lemma Promised(pos: nat, script: seq<Outcome>, had: seq<CByte>, room: nat)
      requires pos <= |fd.data|
      ensures var c := NextCall(fd.data, pos, script, had, room);
              && (NulFree(fd.data) && c.r.Returned? ==> had + fd.data[pos..c.pos] == c.line + c.have)
              && (c.r.Returned? ==>
                    if c.r.n <= 0 then NL !in c.have && c.have == had + Seen(fd.data, pos, script)
                    else WholeLine(c.line)
                         && had + Seen(fd.data, pos, script) == c.line + (c.have + Seen(fd.data, c.pos, c.script)))
    {
      CallKeepsAllSeen(fd.data, pos, script, had, room);
      if NulFree(fd.data) {
        CallLosesNothing(fd.data, pos, script, had, room);
      }
    }

    /** The loop of read_line_buf, from msg_start == next_char. */
    method Scan(line: array<CByte>) returns (r: Return)
      requires Shape() && Buffered() && (have == [] ==> nextChar == 0) && line != buf && line != swap
      modifies this, fd, buf, swap, line
      ensures fd.Valid() && old(fd.pos) <= fd.pos
      ensures IsAfter(old(Scanned(line.Length)), r, line)
      decreases |fd.data| - fd.pos, 4
    {
      hide NextCall, NulFree, RlBuf.IsAfter;
      var msgStart := nextChar;
      var msgLen := FindEnd();
      if nextBuf[nextChar] == NUL {
        r := Unfinished(line, msgStart, msgLen);
      } else {
        r := Finished(line, msgStart, msgLen);
      }
    }

    /** The NUL was met before a newline. */
    method Unfinished(line: array<CByte>, msgStart: nat, msgLen: nat) returns (r: Return)
      requires Shape() && line != buf && line != swap && TextAt(nextBuf[..], msgStart, have) && NL !in have
      requires msgLen == |have| && nextChar == msgStart + msgLen && (have == [] ==> nextChar == 0)
      modifies this, fd, buf, swap, line
      ensures fd.Valid() && old(fd.pos) <= fd.pos
      ensures IsAfter(old(Scanned(line.Length)), r, line)
      decreases |fd.data| - fd.pos, 3
    {
      hide NextCall, NulFree;
      if nextChar == 0 {
        assert have == [];
        return Underrun;
      }
      if nextBuf[nextChar - 1] != NL {
        assert have != [];
        hide RlBuf.IsAfter;
        Swap(msgStart, msgLen);
        r := ReadLineBuf(line);
      } else {
        assert false;
      }
    }

    /** The newline was met behind msgLen bytes. */
    method Finished(line: array<CByte>, msgStart: nat, msgLen: nat) returns (r: Return)
      requires Shape() && line != buf && line != swap && TextAt(nextBuf[..], msgStart, have)
      requires msgLen < |have| && have[msgLen] == NL && NL !in have[..msgLen] && nextChar == msgStart + msgLen
      modifies this, buf, swap, line
      ensures IsAfter(old(Coming(line.Length)), r, line)
    {
      hide NextCall, LineEnd, NulFree, WholeLine;
      CallReturns(fd.data, fd.pos, fd.script, have, line.Length, msgLen);
      if msgLen + 1 >= line.Length {
        return Overrun;
      }
      Deliver(line, msgStart, msgLen + 1);
      r := Returned(msgLen + 1);
    }

    /** next_char moves on to the newline, or to the NUL behind an unfinished line. */
    method FindEnd() returns (msgLen: nat)
      requires Shape() && Buffered()
      modifies this`nextChar
      ensures Shape() && msgLen <= |have| && nextChar == old(nextChar) + msgLen
      ensures TextAt(nextBuf[..], old(nextChar), have)
      ensures nextChar < BUF_LEN && NL !in have[..msgLen]
      ensures if msgLen == |have| then nextBuf[nextChar] == NUL else nextBuf[nextChar] == have[msgLen] == NL
      ensures 0 < msgLen == |have| ==> nextBuf[nextChar - 1] == have[msgLen - 1] != NL
    {
      msgLen := 0;
      while nextBuf[nextChar] != NUL && nextBuf[nextChar] != NL
        invariant nextChar == old(nextChar) + msgLen && msgLen <= |have| && NL !in have[..msgLen]
        decreases |have| - msgLen
      {
        assert nextBuf[nextChar] == have[msgLen];
        msgLen, nextChar := msgLen + 1, nextChar + 1;
      }
      assert msgLen < |have| ==> nextBuf[nextChar] == have[msgLen];
      assert msgLen > 0 ==> nextBuf[nextChar - 1] == have[msgLen - 1];
    }

    /** The newline ends a message of msgLen bytes from msgStart. */
    method Deliver(line: array<CByte>, msgStart: nat, msgLen: nat)
      requires Shape() && line != buf && line != swap
      requires 0 < msgLen <= |have| && msgLen < line.Length && msgStart + msgLen == nextChar + 1
      requires TextAt(nextBuf[..], msgStart, have)
      modifies this, buf, swap, line
      ensures Valid() && have == old(have)[msgLen..]
      ensures line[msgLen] == NUL && line[..msgLen] == old(have)[..msgLen]
    {
      assert nextBuf[msgStart..msgStart + msgLen] == have[..msgLen];
      Copy(nextBuf, msgStart, line, msgLen);
      line[msgLen] := NUL;
      Advance(msgStart, msgLen);
    }

    /** next_char moves past the newline, or to the start of an emptied buffer. */
    method Advance(msgStart: nat, msgLen: nat)
      requires Shape() && 0 < msgLen <= |have| && msgStart + msgLen == nextChar + 1
      requires TextAt(nextBuf[..], msgStart, have)
      modifies this, buf, swap
      ensures Valid() && have == old(have)[msgLen..]
    {
      nextChar := nextChar + 1;
      ghost var rest := have[msgLen..];
      assert nextBuf[nextChar..nextChar + |rest|] == rest;
      have := rest;
      assert have != [] ==> nextBuf[nextChar] == have[0];
      if nextBuf[nextChar] == NUL {
        nextChar := 0;
        nextBuf[0] := NUL;
      }
    }

    /** The truncated beginning of a line moves to the start of the other buffer. */
    method Swap(msgStart: nat, msgLen: nat)
      requires Shape() && msgLen == |have| && NL !in have && TextAt(nextBuf[..], msgStart, have)
      modifies this, buf, swap
      ensures Shape() && Truncated() && have == old(have)
    {
      bufType := if bufType == USE_BUF then USE_SWAP else USE_BUF;
      var other := if bufType == USE_BUF then buf else swap;
      Copy(nextBuf, msgStart, other, msgLen);
      other[msgLen] := NUL;
      nextBuf, nextChar := other, msgLen;
    }

    /** read() appends to the truncated line, and next_char goes back to its start. */
    method Refill() returns (r: Return)
      requires Shape() && Truncated()
      modifies this, fd, buf, swap
      ensures fd.Valid() && old(fd.pos) <= fd.pos
      ensures var c := OneRead(fd.data, old(fd.pos), old(fd.script), old(have));
              r == c.r && (r.Returned? ==> fd.pos == c.pos && fd.script == c.script && have == c.have)
      ensures r.Returned? ==> Shape()
      ensures r.Returned? ==> if r.n < 1 then Truncated() else Buffered() && nextChar == 0
    {
      assert nextChar < BUF_LEN;
      hide OneRead, Delivered, Next, Later, NulFree, TextAt, CStr, Stored, RlBuf.Buffered;
      ghost var pos, before, c := fd.pos, nextBuf[..], OneRead(fd.data, fd.pos, fd.script, have);
      ReadReturns(fd.data, pos, fd.script, have);
      assert TextAt(before, 0, have);
      var numRead := fd.Read(nextBuf, nextChar, MAX_MSG_LEN);
      r := Accept(numRead, before, fd.data[pos..fd.pos], c);
    }

    /** What Refill() makes of read()'s answer: unless there is nothing, or no room for it and a NUL,
        the NUL goes behind it, and next_char back to the start of the buffer. */
    method Accept(numRead: int, ghost before: seq<CByte>, ghost chunk: seq<CByte>, ghost c: Call) returns (r: Return)
      requires Shape() && nextChar == |have| && NL !in have && TextAt(before, 0, have) && |before| == BUF_LEN
      requires |chunk| == (if numRead < 1 then 0 else numRead) && Stored(before, nextBuf[..], nextChar, chunk)
      requires c.r == if numRead >= 1 && |have| + numRead >= BUF_LEN then Overrun else Returned(numRead)
      requires c.r.Returned? ==> c.have == if numRead < 1 then have else have + CStr(chunk)
      modifies this, buf, swap
      ensures r == c.r && (r.Returned? ==> Shape() && have == c.have)
      ensures r.Returned? ==> if r.n < 1 then Truncated() else Buffered() && nextChar == 0
    {
      if numRead < 1 {
        assert nextBuf[..] == before;
        return Returned(numRead);
      }
      if nextChar + numRead >= BUF_LEN {
        return Overrun;
      }
      hide NulFree, TextAt, CStr;
      nextBuf[nextChar + numRead] := NUL;
      SeenInBuffer(before, nextBuf[..], have, chunk);
      nextBuf, nextChar := if bufType == USE_BUF then buf else swap, 0;
      have := have + CStr(chunk);
      return Returned(numRead);
    }
  }

  /** Behind a chunk and a NUL, the buffer holds what is seen of the chunk, and a NUL. */
  lemma SeenInBuffer(before: seq<CByte>, b: seq<CByte>, have: seq<CByte>, chunk: seq<CByte>)
    requires TextAt(before, 0, have) && NulFree(have) && |have| + |chunk| < |b| == |before|
    requires forall i :: 0 <= i < |have| ==> b[i] == before[i]
    requires forall i :: 0 <= i < |chunk| ==> b[|have| + i] == chunk[i]
    requires b[|have| + |chunk|] == NUL
    ensures TextAt(b, 0, have + CStr(chunk)) && NulFree(have + CStr(chunk))
  {
    assert b[..|have|] == before[..|have|];
    assert b[|have|..|have| + |chunk|] == chunk;
    NulFreeAppend(have, CStr(chunk));
    hide NulFree;
    TextGrows(b, have, chunk, |CStr(chunk)|);
  }

  lemma TextGrows(b: seq<CByte>, have: seq<CByte>, chunk: seq<CByte>, n: nat)
    requires |have| + |chunk| < |b| && b[..|have|] == have && b[|have|..|have| + |chunk|] == chunk
    requires n <= |chunk| && (if n < |chunk| then chunk[n] else b[|have| + |chunk|]) == NUL
    ensures TextAt(b, 0, have + chunk[..n])
  {
    var more := have + chunk[..n];
    assert |more| == |have| + n;
    forall i | 0 <= i < |more| ensures b[i] == more[i] {
      assert i < |have| ==> b[..|have|][i] == b[i];
      assert i >= |have| ==> b[|have|..|have| + |chunk|][i - |have|] == b[i];
    }
    assert b[0..|more|] == more;
    assert n < |chunk| ==> b[|have|..|have| + |chunk|][n] == b[|have| + n];
  }

  // ---------- draining a stream ----------

  lemma BehindLines(all: Drained, lines: seq<seq<CByte>>, line: seq<CByte>, more: Drained)
    requires all == Drained(lines + Behind(line, more).lines, Behind(line, more).end)
    ensures all == Drained(lines + [line] + more.lines, more.end) && |more.lines| < |Behind(line, more).lines|
  {
  }

  /** Successive read_line_buf() calls, up to the first that returns no line. */
  method DrainBuffered(fd: Fd, room: nat) returns (lines: seq<seq<CByte>>, end: Return)
    requires fd.Valid()
    modifies fd
    ensures Drained(lines, end) == Drain(fd.data, old(fd.pos), old(fd.script), [], room)
  {
    var rlb := new RlBuf(fd);
    var line := new CByte[room];
    lines := [];
    ghost var all := Drain(fd.data, fd.pos, fd.script, [], room);
    hide RlBuf.Shape, RlBuf.Buffered, RlBuf.Truncated, RlBuf.Valid, RlBuf.Ahead;
    hide NextCall, Seen, WholeLine, NulFree;
    while true
      invariant rlb.Valid() && rlb.fd == fd && fd.Valid()
      invariant fresh(rlb) && fresh(rlb.buf) && fresh(rlb.swap) && fresh(line)
      invariant line != rlb.buf && line != rlb.swap && line.Length == room
      invariant var left := Drain(fd.data, fd.pos, fd.script, rlb.have, room);
                all == Drained(lines + left.lines, left.end)
      decreases |fd.data| - fd.pos + |rlb.have|
    {
      end := rlb.ReadLineBuf(line);
      if !end.Returned? || end.n <= 0 {
        return lines, end;
      }
      BehindLines(all, lines, line[..end.n], Drain(fd.data, fd.pos, fd.script, rlb.have, room));
      lines := lines + [line[..end.n]];
    }
  }

  /** Successive readLine() calls return the same lines, if the stream ends with a newline
      and the buffer has room for a line and a NUL. */
  method DrainByBytes(fd: Fd, n: nat) returns (lines: seq<seq<CByte>>)
    requires fd.pos == 0 && HasRoom(fd.data, n) && Steady(fd.script) && n > 0
    requires Terminated(fd.data)
    modifies fd
    ensures lines == Lines(fd.data, 0)
  {
    hide Lines, LineEnd;
    var line := new CByte[n];
    lines := [];
    while true
      invariant fd.Valid() && fresh(line) && line.Length == n && LineStart(fd.data, fd.pos)
      invariant Steady(fd.script)
      invariant lines + Lines(fd.data, fd.pos) == Lines(fd.data, 0)
      decreases |fd.data| - fd.pos
    {
      ghost var start := fd.pos;
      var r := ReadLine(fd, line, n);
      assert fd.pos > start ==> IsLine(fd.data, start, fd.pos);
      if r <= 0 {
        break;
      }
      assert line[..r] == fd.data[start..fd.pos];
      LineEndIsFirstNewline(fd.data, start, fd.pos);
      LinesFrom(fd.data, start);
      lines := lines + [line[..r]];
    }
    NoLineLeft(fd.data, fd.pos);
  }

  // ---------- what the buffered reader's lines are ----------

  lemma {:induction false} LinesShift(data: seq<CByte>, from: nat, k: nat)
    requires from + k <= |data|
    ensures LineEnd(data[k..], from) + k == LineEnd(data, from + k)
    ensures Lines(data[k..], from) == Lines(data, from + k)
    decreases |data| - from - k
  {
    LineEndShift(data, from, k);
    var e := LineEnd(data[k..], from);
    if e + k <= |data| {
      LinesShift(data, e, k);
      assert data[k..][from..e] == data[from + k..e + k];
    }
  }

  lemma {:induction false} LineEndShift(data: seq<CByte>, from: nat, k: nat)
    requires from + k <= |data|
    ensures LineEnd(data[k..], from) + k == LineEnd(data, from + k)
    decreases |data| - from - k
  {
    if from + k < |data| && data[from + k] != NL {
      LineEndShift(data, from + 1, k);
    }
  }

  lemma LinesBehind(line: seq<CByte>, more: seq<CByte>)
    requires WholeLine(line)
    ensures Lines(line + more, 0) == [line] + Lines(more, 0)
  {
    var all := line + more;
    assert forall i :: 0 <= i < |line| - 1 ==> all[i] == line[..|line| - 1][i];
    LineEndIsFirstNewline(all, 0, |line|);
    assert all[0..|line|] == line && all[|line|..] == more;
    LinesShift(all, 0, |line|);
  }

  /** Whatever the bytes are and whatever read() does: the lines returned before the first call that
      returns none are all the lines among what was seen. */
  lemma {:induction false} LinesOfSeen(data: seq<CByte>, pos: nat, script: seq<Outcome>, have: seq<CByte>, room: nat)
    requires pos <= |data|
    ensures var d := Drain(data, pos, script, have, room);
            d.end.Returned? ==> d.lines == Lines(have + Seen(data, pos, script), 0)
    decreases |data| - pos, |have|
  {
    hide Drain, OneRead, Lines, NulFree, Seen, WholeLine, NoNewline, LineEnd;
    var e := LineEnd(have, 0);
    NewlineAt(have, e);
    if e <= |have| {
      DrainReturns(data, pos, script, have, room, e - 1);
      LinesBehind(have[..e], have[e..] + Seen(data, pos, script));
      LinesOfSeen(data, pos, script, have[e..], room);
    } else {
      NoLine(have);
      SeenGoesOn(data, pos, script, have);
      DrainGoesOn(data, pos, script, have, room);
      var c := OneRead(data, pos, script, have);
      if c.r.Returned? && c.r.n >= 1 && c.have != [] {
        LinesOfSeen(data, c.pos, c.script, c.have, room);
      }
    }
  }

  lemma NoLine(have: seq<CByte>)
    requires NL !in have
    ensures Lines(have, 0) == []
  {
    NoLineLeft(have, 0);
  }

  lemma NewlineAt(have: seq<CByte>, e: nat)
    requires e == LineEnd(have, 0)
    ensures if e <= |have| then have[e - 1] == NL && NL !in have[..e - 1] else NL !in have
  {
  }

  lemma ChunkIsText(data: seq<CByte>, pos: nat, n: nat)
    requires pos + n <= |data| && NulFree(data)
    ensures CStr(data[pos..pos + n]) == data[pos..pos + n]
  {
    var chunk := data[pos..pos + n];
    assert forall i :: 0 <= i < n ==> chunk[i] == data[pos + i];
  }

  /** Text without NULs is seen as it is. */
  lemma {:induction false} TextIsSeen(data: seq<CByte>, pos: nat, script: seq<Outcome>)
    requires pos <= |data| && NulFree(data) && Quiet(script)
    ensures Seen(data, pos, script) == data[pos..]
    decreases |data| - pos
  {
    hide Delivered, CStr, NulFree;
    SeenReads(data, pos, script, []);
    if pos < |data| {
      var n := Delivered(Next(script), MAX_MSG_LEN, |data| - pos);
      ChunkIsText(data, pos, n);
      assert forall i :: 0 <= i < |Later(script)| ==> Later(script)[i] == script[i + 1];
      TextIsSeen(data, pos + n, Later(script));
      assert data[pos..] == data[pos..pos + n] + data[pos + n..];
    }
  }

  // ---------- the bounds are exact ----------

  /** Between lines or inside one that fits, a line that is read stays inside the buffers. */
  lemma LineFits(data: seq<CByte>, start: nat, pos: nat, n: nat)
    requires LinesFit(data) && LineStart(data, start) && start <= pos && n <= MAX_MSG_LEN && pos + n <= |data|
    requires NL !in data[start..pos]
    ensures pos + n - start < BUF_LEN
  {
    assert forall i :: start <= i < pos ==> data[i] == data[start..pos][i - start];
    assert start + BUF_LEN <= |data| ==> !NoNewline(data, start, start + MAX_MSG_LEN);
  }

  lemma LineOfStream(data: seq<CByte>, start: nat, pos: nat, e: nat)
    requires LineStart(data, start) && start <= pos <= |data| && e == LineEnd(data[start..pos], 0) && e <= pos - start
    ensures IsLine(data, start, start + e) && data[start..pos][e..] == data[start + e..pos]
    ensures data[start..pos][..e] == data[start..start + e]
  {
    var have := data[start..pos];
    assert data[start + e - 1] == have[e - 1];
    assert forall i :: start <= i < start + e - 1 ==> data[i] == have[i - start];
  }

  /** Text whose lines fit is returned without a fault, however read() cuts it up. */
  lemma {:induction false} FittingNeverOverruns(data: seq<CByte>, pos: nat, script: seq<Outcome>, start: nat, room: nat)
    requires NulFree(data) && LinesFit(data) && HasRoom(data, room)
    requires LineStart(data, start) && start <= pos <= |data|
    ensures var end := Drain(data, pos, script, data[start..pos], room).end;
            end.Returned? && (Quiet(script) ==> end == Returned(0))
    decreases |data| - pos, pos - start
  {
    hide Drain, OneRead, LineEnd, LinesFit, LineStart, IsLine, NulFree, WholeLine;
    var have := data[start..pos];
    var e := LineEnd(have, 0);
    NewlineAt(have, e);
    if e <= |have| {
      LineOfStream(data, start, pos, e);
      DrainReturns(data, pos, script, have, room, e - 1);
      IsLineStarts(data, start, start + e);
      FittingNeverOverruns(data, pos, script, start + e, room);
    } else {
      DrainGoesOn(data, pos, script, have, room);
      TextIsRead(data, pos, script, start);
      var c := OneRead(data, pos, script, have);
      if c.pos > pos {
        LineFits(data, start, pos, c.pos - pos);
        FittingNeverOverruns(data, c.pos, c.script, start, room);
      }
    }
  }

  lemma IsLineStarts(data: seq<CByte>, i: nat, j: nat)
    requires IsLine(data, i, j)
    ensures LineStart(data, j)
  {
  }

  /** Text whose lines fit is returned as its lines, however read() cuts it up. */
  lemma TextIsReturned(data: seq<CByte>, script: seq<Outcome>, room: nat)
    requires NulFree(data) && LinesFit(data) && HasRoom(data, room) && Quiet(script)
    ensures Drain(data, 0, script, [], room) == Drained(Lines(data, 0), Returned(0))
  {
    assert data[0..0] == [] && data[0..] == data;
    FittingNeverOverruns(data, 0, script, 0, room);
    LinesOfSeen(data, 0, script, [], room);
    TextIsSeen(data, 0, script);
    hide Drain, Lines, Seen, LinesFit, HasRoom, NulFree, Quiet;
    assert [] + data == data;
  }

  // ---------- calling again after a call without a line ----------

  /** A call without a line uses up an outcome of the script, or finds the end of the stream. */
  lemma {:induction false} CallUsesUp(data: seq<CByte>, pos: nat, script: seq<Outcome>, have: seq<CByte>, room: nat)
    requires pos <= |data|
    ensures var c := NextCall(data, pos, script, have, room);
            && |c.script| <= |script|
            && (c.r.Returned? && c.r.n <= 0 ==> |c.script| < |script| || (script == [] && c.pos == |data|))
    decreases |data| - pos
  {
    hide LineEnd, CStr;
    var e := LineEnd(have, 0);
    NewlineAt(have, e);
    if e <= |have| {
      CallReturns(data, pos, script, have, room, e - 1);
      hide NextCall, OneRead;
    } else {
      CallGoesOn(data, pos, script, have, room);
      hide NextCall;
      var c := OneRead(data, pos, script, have);
      if c.r.Returned? && c.r.n >= 1 && c.have != [] {
        CallUsesUp(data, c.pos, c.script, c.have, room);
      }
    }
  }

  /** One call on text whose lines fit, where the line at hand begins at `start`. */
  lemma FittingCall(data: seq<CByte>, pos: nat, script: seq<Outcome>, start: nat, room: nat)
    requires NulFree(data) && LinesFit(data) && HasRoom(data, room)
    requires LineStart(data, start) && start <= pos <= |data|
    ensures var c := NextCall(data, pos, script, data[start..pos], room);
            && c.r.Returned?
            && if c.r.n <= 0 then c.have == data[start..c.pos] && NL !in c.have
               else
                 var next := start + c.r.n;
                 && next <= c.pos && IsLine(data, start, next)
                 && c.line == data[start..next] && c.have == data[next..c.pos]
  {
    hide NextCall, Seen, LinesFit, HasRoom, NulFree, NoNewline;
    var have := data[start..pos];
    var c := NextCall(data, pos, script, have, room);
    FittingNeverOverruns(data, pos, script, start, room);
    CallKeepsAllSeen(data, pos, script, have, room);
    CallLosesNothing(data, pos, script, have, room);
    assert have + data[pos..c.pos] == data[start..c.pos];
    if c.r.n > 0 {
      FirstLine(data, start, c.pos, c.line, c.have);
    }
  }

  lemma FirstLine(data: seq<CByte>, start: nat, pos: nat, line: seq<CByte>, rest: seq<CByte>)
    requires LineStart(data, start) && start <= pos <= |data| && data[start..pos] == line + rest && WholeLine(line)
    ensures var next := start + |line|;
            next <= pos && IsLine(data, start, next) && line == data[start..next] && rest == data[next..pos]
  {
    var next, all := start + |line|, data[start..pos];
    assert |all| == |line| + |rest|;
    assert line == all[..|line|] == data[start..next] && rest == all[|line|..] == data[next..pos];
    assert forall i :: start <= i < next - 1 ==> data[i] == line[..|line| - 1][i - start];
    assert data[next - 1] == line[|line| - 1];
  }

  lemma {:induction false} CallsReturnLines(
      data: seq<CByte>, pos: nat, script: seq<Outcome>, start: nat, room: nat, k: nat)
    requires NulFree(data) && LinesFit(data) && HasRoom(data, room)
    requires LineStart(data, start) && start <= pos <= |data|
    ensures var d := Calls(data, pos, script, data[start..pos], room, k);
            && d.end == Returned(0) && d.lines <= Lines(data, start)
            && (k > |data| - start + |script| ==> d.lines == Lines(data, start))
    decreases k
  {
    hide NextCall, LinesFit, HasRoom, NulFree, Lines, NoNewline, LineEnd;
    if k > 0 {
      var have := data[start..pos];
      var c := NextCall(data, pos, script, have, room);
      FittingCall(data, pos, script, start, room);
      CallUsesUp(data, pos, script, have, room);
      if c.r.n <= 0 {
        CallsReturnLines(data, c.pos, c.script, start, room, k - 1);
        if c.pos == |data| {
          NoLinesBehind(data, start);
        }
      } else {
        var next := start + c.r.n;
        LineEndIsFirstNewline(data, start, next);
        LinesFrom(data, start);
        CallsReturnLines(data, c.pos, c.script, next, room, k - 1);
      }
    }
  }

  lemma NoLinesBehind(data: seq<CByte>, start: nat)
    requires start <= |data|
    ensures NL !in data[start..] ==> Lines(data, start) == []
  {
    if NL !in data[start..] {
      assert forall i :: start <= i < |data| ==> data[i] == data[start..][i - start];
      NoLineLeft(data, start);
    }
  }

  /** Whatever read() does, failures and empty reads in the middle of a line included: a caller that
      calls again gets the lines of the text, in order and unbroken, and after so many calls all. */
  lemma RetriesGetAllLines(data: seq<CByte>, script: seq<Outcome>, room: nat, k: nat)
    requires NulFree(data) && LinesFit(data) && HasRoom(data, room)
    ensures var d := Calls(data, 0, script, [], room, k);
            && d.end == Returned(0) && d.lines <= Lines(data, 0)
            && (k > |data| + |script| ==> d.lines == Lines(data, 0))
  {
    assert data[0..0] == [];
    CallsReturnLines(data, 0, script, 0, room, k);
  }

  // ---------- and for longer lines ----------

  /** Single bytes up to the line at i, then two full reads. */
  ghost function Ones(n: nat): seq<Outcome> {
    if n == 0 then [Outcome.Some(MAX_MSG_LEN), Outcome.Some(MAX_MSG_LEN)] else [Outcome.Some(1)] + Ones(n - 1)
  }

  lemma {:induction false} OnesAreQuiet(n: nat)
    ensures Quiet(Ones(n))
  {
    if n > 0 {
      OnesAreQuiet(n - 1);
    }
  }

  lemma TwoFullReadsOverrun(data: seq<CByte>, i: nat, room: nat)
    requires NulFree(data) && i + BUF_LEN <= |data| && NoNewline(data, i, i + MAX_MSG_LEN)
    ensures Drain(data, i, Ones(0), [], room).end == Overrun
  {
    var chunk := data[i..i + MAX_MSG_LEN];
    assert NL !in chunk && data[i..i] == [];
    TextIsRead(data, i, Ones(0), i);
    TextIsRead(data, i + MAX_MSG_LEN, Later(Ones(0)), i);
    DrainGoesOn(data, i, Ones(0), [], room);
    DrainGoesOn(data, i + MAX_MSG_LEN, Later(Ones(0)), chunk, room);
    hide Drain, OneRead, LineEnd;
  }

  lemma ByteRead(data: seq<CByte>, start: nat, pos: nat, later: seq<Outcome>, room: nat)
    requires NulFree(data) && start <= pos < |data| && NL !in data[start..pos]
    ensures Drain(data, pos, [Outcome.Some(1)] + later, data[start..pos], room)
            == if pos - start + 1 >= BUF_LEN then Drained([], Overrun)
               else Drain(data, pos + 1, later, data[start..pos + 1], room)
  {
    hide Drain, OneRead, NulFree;
    var script := [Outcome.Some(1)] + later;
    assert script[1..] == later;
    TextIsRead(data, pos, script, start);
    DrainGoesOn(data, pos, script, data[start..pos], room);
  }

  lemma LineGoes(data: seq<CByte>, start: nat, pos: nat, script: seq<Outcome>, room: nat) returns (next: nat)
    requires LineStart(data, start) && start <= pos <= |data| && NL in data[start..pos]
    ensures start < next <= pos && LineStart(data, next)
    ensures var d := Drain(data, pos, script, data[start..pos], room);
            d.end == Overrun || d.end == Drain(data, pos, script, data[next..pos], room).end
  {
    hide CStr, WholeLine, LineStart, IsLine, LineEnd;
    var have := data[start..pos];
    var e := LineEnd(have, 0);
    NewlineAt(have, e);
    LineOfStream(data, start, pos, e);
    DrainReturns(data, pos, script, have, room, e - 1);
    hide Drain;
    next := start + e;
    IsLineStarts(data, start, next);
  }

  lemma {:induction false} LongLineOverruns(data: seq<CByte>, start: nat, pos: nat, i: nat, room: nat)
    requires NulFree(data) && LineStart(data, start) && start <= pos <= i && LineStart(data, i)
    requires i + BUF_LEN <= |data| && NoNewline(data, i, i + MAX_MSG_LEN)
    ensures Drain(data, pos, Ones(i - pos), data[start..pos], room).end == Overrun
    decreases i - pos, pos - start
  {
    hide Drain, NulFree, NoNewline;
    var have := data[start..pos];
    if NL in have {
      var next := LineGoes(data, start, pos, Ones(i - pos), room);
      LongLineOverruns(data, next, pos, i, room);
    } else if pos < i {
      ByteRead(data, start, pos, Ones(i - (pos + 1)), room);
      LongLineOverruns(data, start, pos + 1, i, room);
    } else {
      assert forall k :: start <= k < i ==> data[k] == have[k - start];
      TwoFullReadsOverrun(data, i, room);
    }
  }

  /** However read() cuts the text up, no buffer is overrun. */
  ghost predicate StaysInside(data: seq<CByte>, script: seq<Outcome>) {
    Drain(data, 0, script, [], BUF_LEN).end != Overrun
  }

  /** Some way of cutting a text up makes read_line_buf() write past its buffer exactly when a line
      does not fit. */
  lemma FitsExactly(data: seq<CByte>)
    requires NulFree(data)
    ensures LinesFit(data) <==> forall script :: StaysInside(data, script)
  {
    hide Drain;
    assert data[0..0] == [];
    if LinesFit(data) {
      LongLinesFit(data);
      forall script ensures StaysInside(data, script) {
        FittingNeverOverruns(data, 0, script, 0, BUF_LEN);
      }
    } else {
      var i: nat :| LineStart(data, i) && i + BUF_LEN <= |data| && NoNewline(data, i, i + MAX_MSG_LEN);
      LongLineOverruns(data, 0, 0, i, BUF_LEN);
      assert !StaysInside(data, Ones(i));
    }
  }

  lemma {:induction false} DrainIsText(data: seq<CByte>, pos: nat, script: seq<Outcome>, have: seq<CByte>, room: nat)
    requires pos <= |data| && NulFree(have)
    ensures forall i :: 0 <= i < |Drain(data, pos, script, have, room).lines| ==>
              NUL !in Drain(data, pos, script, have, room).lines[i]
    decreases |data| - pos, |have|
  {
    hide Drain, OneRead, LineEnd;
    var e := LineEnd(have, 0);
    NewlineAt(have, e);
    if e <= |have| {
      DrainReturns(data, pos, script, have, room, e - 1);
      DrainIsText(data, pos, script, have[e..], room);
    } else {
      DrainGoesOn(data, pos, script, have, room);
      SeenIsText(data, pos, script, have);
      var c := OneRead(data, pos, script, have);
      if c.r.Returned? && c.r.n >= 1 && c.have != [] {
        DrainIsText(data, c.pos, c.script, c.have, room);
      }
    }
  }

  /** In a stream that ends with a newline, every byte lies in a line. */
  lemma {:induction false} LineOf(data: seq<CByte>, from: nat, z: nat) returns (k: nat)
    requires from <= z < |data| && data[|data| - 1] == NL
    ensures k < |Lines(data, from)| && data[z] in Lines(data, from)[k]
    decreases |data| - from
  {
    LineEndIsWithin(data, from);
    var e := LineEnd(data, from);
    if z < e {
      k := 0;
      assert data[from..e][z - from] == data[z];
    } else {
      k := LineOf(data, e, z);
      k := k + 1;
    }
  }

  /** The lines of the stream come back. */
  ghost predicate ReturnsLines(data: seq<CByte>, script: seq<Outcome>) {
    Drain(data, 0, script, [], BUF_LEN) == Drained(Lines(data, 0), Returned(0))
  }

  /** A stream that ends with a newline comes back as its lines, however read() cuts it up, exactly
      when it has no NUL and its lines fit. */
  lemma ReturnsLinesExactly(data: seq<CByte>)
    requires Terminated(data)
    ensures (forall script :: Quiet(script) ==> ReturnsLines(data, script)) <==> NulFree(data) && LinesFit(data)
  {
    hide Drain, Lines;
    if NulFree(data) && LinesFit(data) {
      LongLinesFit(data);
      forall script | Quiet(script) ensures ReturnsLines(data, script) {
        TextIsReturned(data, script, BUF_LEN);
      }
    } else if NulFree(data) {
      var i: nat :| LineStart(data, i) && i + BUF_LEN <= |data| && NoNewline(data, i, i + MAX_MSG_LEN);
      assert data[0..0] == [];
      LongLineOverruns(data, 0, 0, i, BUF_LEN);
      OnesAreQuiet(i);
      assert !ReturnsLines(data, Ones(i));
    } else {
      NulIsLost(data, []);
      assert !ReturnsLines(data, []);
    }
  }

  /** A NUL never comes back. */
  lemma NulIsLost(data: seq<CByte>, script: seq<Outcome>)
    requires !NulFree(data) && Terminated(data)
    ensures !ReturnsLines(data, script)
  {
    var z :| 0 <= z < |data| && data[z] == NUL;
    var k := LineOf(data, 0, z);
    DrainIsText(data, 0, script, [], BUF_LEN);
    hide Drain, Lines;
  }

  /** 8192 bytes without a newline, in two full reads: the NUL goes to index 8192 of 8192 bytes. */
  lemma LongLineExample(c: CByte)
    requires c != NL && c != NUL
    ensures Drain(seq(BUF_LEN, _ => c), 0, Ones(0), [], BUF_LEN).end == Overrun
  {
    TwoFullReadsOverrun(seq(BUF_LEN, _ => c), 0, BUF_LEN);
  }

  /** A NUL inside a line, and one read(): the line is never returned.  A NUL at the start of what a
      read() delivers: the byte in front of the buffer is read. */
  lemma NulExamples(a: CByte, b: CByte)
    requires a != NL && a != NUL
    ensures Drain([a, NUL, b, NL], 0, [], [], BUF_LEN) == Drained([], Returned(0))
    ensures Drain([NUL, b, NL], 0, [], [], BUF_LEN) == Drained([], Underrun)
  {
    var data, data' := [a, NUL, b, NL], [NUL, b, NL];
    assert data[0..4] == data && data'[0..3] == data';
    assert CStr(data) == [a] by { assert data[1..][0] == NUL; }
    DrainGoesOn(data, 0, [], [], BUF_LEN);
    DrainGoesOn(data, 4, [], [a], BUF_LEN);
    DrainGoesOn(data', 0, [], [], BUF_LEN);
    hide Drain;
  }
}
