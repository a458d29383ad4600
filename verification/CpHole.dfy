/** 04_Universal_File_IO/cp_hole.c: copying a file and leaving its holes unwritten.

    A file is its bytes together with the map of the bytes that lie in data extents; a hole
    reads as zeros.  read() and write() move all the bytes they are asked for.  The program
    keeps file offsets and the number of bytes to copy in an `int`. */
module CpHole {
  import opened CInt
  import opened CString

  const BUF_SIZE := 1024

  // ---------- extents ----------

  ghost predicate IsFile(bytes: seq<CByte>, isData: seq<bool>) {
    |bytes| == |isData| && forall i :: 0 <= i < |bytes| && !isData[i] ==> bytes[i] == 0
  }

  /** lseek(fd, from, SEEK_DATA) */
  function NextData(isData: seq<bool>, from: nat): (r: int)
    requires from <= |isData|
    ensures r == -1 || from <= r < |isData|
    ensures r == -1 ==> forall i :: from <= i < |isData| ==> !isData[i]
    ensures r != -1 ==> isData[r] && forall i :: from <= i < r ==> !isData[i]
    decreases |isData| - from
  {
    if from == |isData| then -1 else if isData[from] then from else NextData(isData, from + 1)
  }

  /** lseek(fd, from, SEEK_HOLE): behind the last byte there is always a hole. */
  function NextHole(isData: seq<bool>, from: nat): (r: nat)
    requires from <= |isData|
    ensures from <= r <= |isData|
    ensures r < |isData| ==> !isData[r]
    ensures (r > from ==> isData[r - 1]) && forall i :: from <= i < r ==> isData[i]
    decreases |isData| - from
  {
    if from == |isData| || !isData[from] then from else NextHole(isData, from + 1)
  }

  /** Where the last data extent ends. */
  ghost function DataEnd(isData: seq<bool>): (r: nat)
    ensures r <= |isData|
    ensures r > 0 ==> isData[r - 1]
    ensures forall i :: r <= i < |isData| ==> !isData[i]
  {
    if isData == [] then 0 else if isData[|isData| - 1] then |isData| else DataEnd(isData[..|isData| - 1])
  }

  /** Where the data extent that ends at `end` begins. */
  ghost function ExtentStart(isData: seq<bool>, end: nat): (r: nat)
    requires end <= |isData|
    ensures r <= end && (r == 0 || !isData[r - 1]) && forall i :: r <= i < end ==> isData[i]
  {
    if end > 0 && isData[end - 1] then ExtentStart(isData, end - 1) else end
  }

  /** Where the last data extent begins. */
  ghost function LastStart(isData: seq<bool>): nat { ExtentStart(isData, DataEnd(isData)) }

  // ---------- the system calls ----------

  datatype Whence = SeekSet | SeekData | SeekHole

  /** What lseek(fd, off, SEEK_DATA) returns. */
  function DataAt(isData: seq<bool>, off: int): (r: int)
    ensures r == -1 || 0 <= off <= r < |isData|
  {
    if 0 <= off <= |isData| then NextData(isData, off) else -1
  }

  /** What lseek(fd, off, SEEK_HOLE) returns. */
  function HoleAt(isData: seq<bool>, off: int): (r: int)
    ensures r == -1 || 0 <= off <= r <= |isData|
    ensures r == -1 <==> !(0 <= off < |isData|)
  {
    if 0 <= off < |isData| then NextHole(isData, off) else -1
  }

  /** What a write() at `at` makes of a file; what it skips behind the end is filled up. */
  function Over<T>(file: seq<T>, at: nat, chunk: seq<T>, fill: T): seq<T> {
    if chunk == [] then file
    else
      seq(if at + |chunk| < |file| then |file| else at + |chunk|, i requires 0 <= i => Cell(file, at, chunk, fill, i))
  }

  function Cell<T>(file: seq<T>, at: nat, chunk: seq<T>, fill: T, i: nat): T {
    if at <= i < at + |chunk| then chunk[i - at] else if i < |file| then file[i] else fill
  }

  lemma OverAt<T>(file: seq<T>, at: nat, chunk: seq<T>, fill: T)
    requires chunk != []
    ensures var r := Over(file, at, chunk, fill);
            && |r| == (if at + |chunk| < |file| then |file| else at + |chunk|)
            && forall i :: 0 <= i < |r| ==> r[i] == Cell(file, at, chunk, fill, i)
  {
    hide Cell;
  }

  lemma CellTwice<T>(file: seq<T>, at: nat, a: seq<T>, b: seq<T>, fill: T, once: seq<T>, i: nat)
    requires |once| == if at + |a| < |file| then |file| else at + |a|
    requires i < |once| ==> once[i] == Cell(file, at, a, fill, i)
    ensures Cell(once, at + |a|, b, fill, i) == Cell(file, at, a + b, fill, i)
  {
  }

  lemma OverTwoChunks<T>(file: seq<T>, at: nat, a: seq<T>, b: seq<T>, fill: T)
    requires a != [] && b != []
    ensures Over(Over(file, at, a, fill), at + |a|, b, fill) == Over(file, at, a + b, fill)
  {
    hide Over, Cell;
    var once := Over(file, at, a, fill);
    var twice, all := Over(once, at + |a|, b, fill), Over(file, at, a + b, fill);
    OverAt(file, at, a, fill);
    OverAt(once, at + |a|, b, fill);
    OverAt(file, at, a + b, fill);
    assert |twice| == |all|;
    forall i | 0 <= i < |all| ensures twice[i] == all[i] {
      CellTwice(file, at, a, b, fill, once, i);
    }
  }

  /** A write() may be split in two. */
  lemma OverTwice<T>(file: seq<T>, at: nat, a: seq<T>, b: seq<T>, fill: T)
    ensures Over(Over(file, at, a, fill), at + |a|, b, fill) == Over(file, at, a + b, fill)
  {
    if a == [] {
      assert a + b == b;
    } else if b == [] {
      assert a + b == a;
    } else {
      OverTwoChunks(file, at, a, b, fill);
    }
    hide Cell;
  }

  function Ones(n: nat): seq<bool> { seq(n, _ => true) }

  class Source {
    const bytes: seq<CByte>
    const isData: seq<bool>
    var pos: nat

    constructor (bytes: seq<CByte>, isData: seq<bool>)
      ensures this.bytes == bytes && this.isData == isData && pos == 0
    {
      this.bytes, this.isData := bytes, isData;
      pos := 0;
    }

    ghost predicate Valid()
      reads this
    {
      IsFile(bytes, isData) && pos <= |bytes|
    }

    method Seek(off: int, whence: Whence) returns (r: int)
      requires Valid() && (whence.SeekSet? ==> off <= |bytes|)
      modifies this`pos
      ensures Valid() && pos == if r == -1 then old(pos) else r
      ensures r == match whence
        case SeekSet => if off < 0 then -1 else off
        case SeekData => DataAt(isData, off)
        case SeekHole => HoleAt(isData, off)
    {
      match whence {
        case SeekSet => r := if off < 0 then -1 else off;
        case SeekData => r := DataAt(isData, off);
        case SeekHole => r := HoleAt(isData, off);
      }
      if r != -1 {
        pos := r;
      }
    }

    method Read(buf: array<CByte>, n: nat) returns (rv: nat)
      requires Valid() && n <= buf.Length
      modifies this`pos, buf
      ensures Valid() && rv == if n <= |bytes| - old(pos) then n else |bytes| - old(pos)
      ensures pos == old(pos) + rv && buf[..rv] == bytes[old(pos)..pos]
    {
      rv := if n <= |bytes| - pos then n else |bytes| - pos;
      var i := 0;
      while i < rv
        modifies buf
        invariant 0 <= i <= rv && buf[..i] == bytes[pos..pos + i]
      {
        buf[i] := bytes[pos + i];
        i := i + 1;
      }
      pos := pos + rv;
    }
  }

  class Target {
    var bytes: seq<CByte>
    var written: seq<bool>
    var pos: nat

    /** open() with O_TRUNC */
    constructor ()
      ensures Valid() && bytes == [] && written == [] && pos == 0
    {
      bytes, written, pos := [], [], 0;
    }

    ghost predicate Valid()
      reads this
    {
      |bytes| == |written|
    }

    /** lseek(fd, off, SEEK_SET) */
    method Seek(off: int) returns (r: int)
      modifies this`pos
      ensures r == (if off < 0 then -1 else off) && pos == if r == -1 then old(pos) else r
    {
      if off < 0 {
        return -1;
      }
      pos := off;
      return off;
    }

    /** What was skipped by seeking behind the end becomes a hole. */
    method Write(buf: array<CByte>, n: nat)
      requires Valid() && n <= buf.Length
      modifies this
      ensures Valid() && pos == old(pos) + n
      ensures |bytes| == if n == 0 || pos < |old(bytes)| then |old(bytes)| else pos
      ensures forall i :: 0 <= i < |bytes| ==>
        bytes[i] == if old(pos) <= i < pos then buf[i - old(pos)] else if i < |old(bytes)| then old(bytes)[i] else 0
      ensures forall i :: 0 <= i < |bytes| ==>
        written[i] == (old(pos) <= i < pos || (i < |old(bytes)| && old(written)[i]))
    {
      if n == 0 {
        return;
      }
      var end := if pos + n < |bytes| then |bytes| else pos + n;
      bytes := seq(end, i requires 0 <= i < end reads this, buf =>
        if pos <= i < pos + n then buf[i - pos] else if i < |bytes| then bytes[i] else 0);
      written := seq(end, i requires 0 <= i < end reads this =>
        pos <= i < pos + n || (i < |written| && written[i]));
      pos := pos + n;
    }
  }

  // ---------- one round of the main loop ----------

  /** What signed overflow does: C leaves it undefined, and compilers usually let it wrap. */
  datatype Arithmetic = Standard | Wrapping

  datatype End =
    | Running
    | Ended      // no data was left, or lseek() failed to look for it
    | Failed     // a system call failed and ended the program
    | Undefined  // the number of bytes overflowed

  /** Both file offsets, the target, and how the program is doing. */
  datatype State = State(from: nat, bytes: seq<CByte>, written: seq<bool>, to: nat, end: End)

  ghost function Step(a: Arithmetic, bytes: seq<CByte>, isData: seq<bool>, s: State): (r: State)
    requires |bytes| == |isData| && s.from <= |bytes|
    ensures r.from <= |bytes|
  {
    var current := ToInt(s.from);
    var dataAt := DataAt(isData, current);
    var found := if dataAt == -1 then s else s.(from := dataAt);
    if current == -1 then s.(end := Failed)
    else if ToInt(dataAt) == -1 then found.(end := Ended)
    else if ToInt(dataAt) != current then
      if ToInt(dataAt) < 0 then found.(end := Failed) else found.(to := ToInt(dataAt))
    else
      var holeAt := HoleAt(isData, current);
      var numRead := ToInt(holeAt) - current;
      ToIntMinus(holeAt, current);
      if ToInt(holeAt) == -1 then s.(from := holeAt, end := Failed)
      else if a.Standard? && ToInt(numRead) != numRead then s.(from := current, end := Undefined)
      else if ToInt(numRead) < 0 then s.(from := current, end := Failed)
      else Write(s.(from := current), bytes[current..current + ToInt(numRead)])
  }

  ghost function Write(s: State, chunk: seq<CByte>): State {
    State(s.from + |chunk|, Over(s.bytes, s.to, chunk, 0), Over(s.written, s.to, Ones(|chunk|), false),
          s.to + |chunk|, s.end)
  }

  ghost function Now(src: Source, dst: Target, end: End): State
    reads src, dst
  {
    State(src.pos, dst.bytes, dst.written, dst.pos, end)
  }

  /** One read() and write() inside a data extent. */
  method CopyBlock(src: Source, dst: Target, buf: array<CByte>, n: nat)
    requires src.Valid() && dst.Valid() && n <= buf.Length && src.pos + n <= |src.bytes|
    modifies src`pos, dst, buf
    ensures src.Valid() && dst.Valid() && src.pos == old(src.pos) + n
    ensures Now(src, dst, Running) == Write(old(Now(src, dst, Running)), src.bytes[old(src.pos)..src.pos])
  {
    hide Over, IsFile;
    ghost var chunk, file, written := src.bytes[src.pos..src.pos + n], dst.bytes, dst.written;
    var rv := src.Read(buf, n);
    assert forall i :: 0 <= i < n ==> buf[i] == buf[..n][i] == chunk[i];
    dst.Write(buf, rv);
    OverIs(file, old(dst.pos), chunk, 0, dst.bytes);
    OverIs(written, old(dst.pos), Ones(n), false, dst.written);
  }

  lemma OverIs<T>(file: seq<T>, at: nat, chunk: seq<T>, fill: T, r: seq<T>)
    requires |r| == if chunk == [] || at + |chunk| < |file| then |file| else at + |chunk|
    requires forall i :: 0 <= i < |r| ==>
      r[i] == if at <= i < at + |chunk| then chunk[i - at] else if i < |file| then file[i] else fill
    ensures r == Over(file, at, chunk, fill)
  {
  }

  /** The loop that writes the data, of which n bytes are left. */
  method CopyData(src: Source, dst: Target, buf: array<CByte>, n: nat)
    requires src.Valid() && dst.Valid() && buf.Length == BUF_SIZE && src.pos + n <= |src.bytes|
    modifies src`pos, dst, buf
    ensures src.Valid() && dst.Valid()
    ensures Now(src, dst, Running) == Write(old(Now(src, dst, Running)), src.bytes[old(src.pos)..old(src.pos) + n])
  {
    hide Write, IsFile;
    ghost var before := Now(src, dst, Running);
    assert before == Write(before, src.bytes[src.pos..src.pos]) by { WriteNothing(before, src.bytes); }
    var numRead: nat := n;
    while numRead > BUF_SIZE
      invariant src.Valid() && dst.Valid() && old(src.pos) <= src.pos && src.pos + numRead == old(src.pos) + n
      invariant Now(src, dst, Running) == Write(before, src.bytes[old(src.pos)..src.pos])
    {
      ghost var mid := src.pos;
      CopyBlock(src, dst, buf, BUF_SIZE);
      numRead := numRead - BUF_SIZE;
      WriteTwice(before, src.bytes, mid, src.pos);
    }
    ghost var mid := src.pos;
    CopyBlock(src, dst, buf, numRead);
    WriteTwice(before, src.bytes, mid, src.pos);
  }

  lemma WriteNothing(s: State, bytes: seq<CByte>)
    requires s.from <= |bytes|
    ensures Write(s, bytes[s.from..s.from]) == s
  {
  }

  lemma WriteTwice(s: State, bytes: seq<CByte>, mid: nat, to: nat)
    requires s.from <= mid <= to <= |bytes|
    ensures Write(Write(s, bytes[s.from..mid]), bytes[mid..to]) == Write(s, bytes[s.from..to])
  {
    hide Over;
    assert bytes[s.from..mid] + bytes[mid..to] == bytes[s.from..to];
    OverTwice(s.bytes, s.to, bytes[s.from..mid], bytes[mid..to], 0);
    assert Ones(mid - s.from) + Ones(to - mid) == Ones(to - s.from);
    OverTwice(s.written, s.to, Ones(mid - s.from), Ones(to - mid), false);
  }

  /** One round of the program's main loop. */
  method Round(a: Arithmetic, src: Source, dst: Target, buf: array<CByte>) returns (end: End)
    requires src.Valid() && dst.Valid() && buf.Length == BUF_SIZE
    modifies src`pos, dst, buf
    ensures src.Valid() && dst.Valid()
    ensures Now(src, dst, end) == Step(a, src.bytes, src.isData, old(Now(src, dst, Running)))
  {
    hide ToInt, DataAt, HoleAt, Write;
    var currentOffset := ToInt(src.pos);
    if currentOffset == -1 {
      return Failed;
    }
    var rv := src.Seek(currentOffset, SeekData);
    var dataOffset := ToInt(rv);
    if dataOffset == -1 {
      return Ended;
    }
    if currentOffset != dataOffset {
      rv := dst.Seek(dataOffset);
      return if rv == -1 then Failed else Running;
    }
    rv := src.Seek(currentOffset, SeekHole);
    var holeOffset := ToInt(rv);
    if holeOffset == -1 {
      return Failed;
    }
    rv := src.Seek(currentOffset, SeekSet);
    if a.Standard? && ToInt(holeOffset - currentOffset) != holeOffset - currentOffset {
      return Undefined;
    }
    var numRead := ToInt(holeOffset - currentOffset);
    if numRead < 0 {
      return Failed; // read() rejects a size beyond SSIZE_MAX
    }
    CopyData(src, dst, buf, numRead);
    return Running;
  }

  /** The state after so many rounds, or where the program has ended before. */
  ghost function Rounds(a: Arithmetic, bytes: seq<CByte>, isData: seq<bool>, n: nat): (r: State)
    requires |bytes| == |isData|
    ensures r.from <= |bytes|
  {
    if n == 0 then State(0, [], [], 0, Running)
    else
      var s := Rounds(a, bytes, isData, n - 1);
      if s.end.Running? then Step(a, bytes, isData, s) else s
  }

  /** The program's main loop, which may run for ever, for so many rounds. */
  method CopyHoles(a: Arithmetic, src: Source, dst: Target, rounds: nat) returns (end: End)
    requires src.Valid() && src.pos == 0 && dst.Valid() && dst.bytes == [] && dst.pos == 0
    modifies src`pos, dst
    ensures Now(src, dst, end) == Rounds(a, src.bytes, src.isData, rounds)
  {
    hide Step;
    var buf := new CByte[BUF_SIZE];
    end := Running;
    var i := 0;
    while i < rounds && end.Running?
      invariant 0 <= i <= rounds && src.Valid() && dst.Valid()
      invariant Now(src, dst, end) == Rounds(a, src.bytes, src.isData, i)
    {
      end := Round(a, src, dst, buf);
      i := i + 1;
    }
    EndedStays(a, src.bytes, src.isData, i, rounds);
  }

  lemma {:induction false} EndedStays(a: Arithmetic, bytes: seq<CByte>, isData: seq<bool>, n: nat, m: nat)
    requires |bytes| == |isData| && n <= m
    requires n == m || !Rounds(a, bytes, isData, n).end.Running?
    ensures Rounds(a, bytes, isData, m) == Rounds(a, bytes, isData, n)
  {
    if n < m {
      EndedStays(a, bytes, isData, n, m - 1);
    }
  }

  // ---------- which files are copied ----------

  /** The offsets of the data fit an int, as far as the program computes with them. */
  ghost predicate Fits(a: Arithmetic, isData: seq<bool>) {
    match a
    case Standard => DataEnd(isData) <= INT_MAX
    case Wrapping => LastStart(isData) <= INT_MAX && DataEnd(isData) - LastStart(isData) <= INT_MAX
  }

  /** All data before the source's position is copied, and nothing else is written; the position
      is the end of an extent or the beginning of one. */
  ghost predicate Copied(bytes: seq<CByte>, isData: seq<bool>, s: State)
    requires |bytes| == |isData|
  {
    var n := |s.bytes|;
    && n <= s.from == s.to <= DataEnd(isData)
    && s.bytes == bytes[..n] && s.written == isData[..n] && (n > 0 ==> isData[n - 1])
    && (forall i :: n <= i < s.from ==> !isData[i])
    && (0 < s.from < |isData| ==> !isData[s.from - 1] || !isData[s.from])
  }

  lemma ExtentsInOrder(isData: seq<bool>, from: nat)
    requires from < |isData| && isData[from] && (from > 0 ==> !isData[from - 1])
    ensures var e := NextHole(isData, from);
            && from <= LastStart(isData) && from < e <= DataEnd(isData)
            && (e < DataEnd(isData) ==> e < LastStart(isData)) && (e == DataEnd(isData) ==> from == LastStart(isData))
  {
  }

  lemma BelowDataEnd(isData: seq<bool>, from: nat)
    requires from <= DataEnd(isData)
    ensures NextData(isData, from) < DataEnd(isData) || NextData(isData, from) == -1
    ensures NextHole(isData, from) <= DataEnd(isData)
  {
  }

  /** One int can hold the end of the extent at `from`, or the number of its bytes. */
  ghost predicate ExtentFits(a: Arithmetic, from: nat, end: nat) {
    if a.Standard? then end <= INT_MAX else end - from <= INT_MAX
  }

  /** Where all data lies below 2 * INT_MAX, a position is itself, or it ends the loop. */
  lemma StepInts(a: Arithmetic, bytes: seq<CByte>, isData: seq<bool>, s: State)
    requires |bytes| == |isData| && s.from <= DataEnd(isData) <= 2 * INT_MAX
    ensures var r := Step(a, bytes, isData, s); var d := NextData(isData, s.from);
            if s.from > INT_MAX || d == -1 then r == s.(end := Ended)
            else if d > INT_MAX then r.bytes == s.bytes && r.written == s.written && r.end.Failed?
            else if d > s.from then r == s.(from := d, to := d)
            else if ExtentFits(a, s.from, NextHole(isData, s.from)) then
              r == Write(s, bytes[s.from..NextHole(isData, s.from)])
            else r.bytes == s.bytes && r.written == s.written && (r.end.Failed? || r.end.Undefined?)
  {
    hide NextData, NextHole, ToInt, Write;
    ToIntOf(s.from);
    if s.from <= INT_MAX {
      var d, e := NextData(isData, s.from), NextHole(isData, s.from);
      BelowDataEnd(isData, s.from);
      ToIntOf(d);
      ToIntOf(e);
      ToIntOf(ToInt(e) - s.from);
      ToIntOf(e - s.from);
      ToIntMinus(e, s.from);
    }
  }

  lemma SkipHole(a: Arithmetic, bytes: seq<CByte>, isData: seq<bool>, s: State)
    requires |bytes| == |isData| && Copied(bytes, isData, s) && NextData(isData, s.from) > s.from
    ensures var d := NextData(isData, s.from);
            && Copied(bytes, isData, s.(from := d, to := d))
            && (Fits(a, isData) ==> d <= INT_MAX)
  {
    hide NextData;
    BelowDataEnd(isData, s.from);
  }

  lemma WriteExtent(a: Arithmetic, bytes: seq<CByte>, isData: seq<bool>, s: State)
    requires IsFile(bytes, isData) && Copied(bytes, isData, s) && NextData(isData, s.from) == s.from
    ensures var e := NextHole(isData, s.from); var r := Write(s, bytes[s.from..e]);
            && Copied(bytes, isData, r) && r.from > s.from
            && (Fits(a, isData) ==> ExtentFits(a, s.from, e))
            && (!Fits(a, isData) && ExtentFits(a, s.from, e) && s.from <= INT_MAX ==> |r.bytes| < DataEnd(isData))
  {
    hide NextData, NextHole, DataEnd, LastStart;
    ExtentsInOrder(isData, s.from);
    var e := NextHole(isData, s.from);
    var r := Write(s, bytes[s.from..e]);
    assert |r.bytes| == |r.written| == e;
  }

  /** The target has all of the source's data. */
  ghost predicate HasAll(bytes: seq<CByte>, isData: seq<bool>, s: State)
    requires |bytes| == |isData|
  {
    s.bytes == bytes[..DataEnd(isData)] && s.written == isData[..DataEnd(isData)]
  }

  /** The copy is right so far, and will be complete exactly if the offsets fit. */
  ghost predicate Good(a: Arithmetic, bytes: seq<CByte>, isData: seq<bool>, s: State)
    requires |bytes| == |isData|
  {
    && (s.end.Running? ==> Copied(bytes, isData, s))
    && (if Fits(a, isData) then s.end.Running? || (s.end.Ended? && HasAll(bytes, isData, s))
        else |s.bytes| < DataEnd(isData))
  }

  /** One more round copies one more extent, or finds the next one, or ends. */
  lemma StepCopies(a: Arithmetic, bytes: seq<CByte>, isData: seq<bool>, s: State)
    requires IsFile(bytes, isData) && DataEnd(isData) <= 2 * INT_MAX
    requires Good(a, bytes, isData, s) && s.end.Running?
    ensures var r := Step(a, bytes, isData, s);
            Good(a, bytes, isData, r) && (r.end.Running? ==> r.from > s.from)
  {
    StepInts(a, bytes, isData, s);
    var d := NextData(isData, s.from);
    if s.from > INT_MAX {
      if Fits(a, isData) { AllBehind(a, isData, s); }
    } else if d > s.from {
      SkipHole(a, bytes, isData, s);
    } else if d == s.from {
      WriteExtent(a, bytes, isData, s);
    }
    hide Step, IsFile, Write, NextData, NextHole, DataEnd, Fits, ExtentFits;
  }

  lemma AllBehind(a: Arithmetic, isData: seq<bool>, s: State)
    requires INT_MAX < s.from <= DataEnd(isData) && Fits(a, isData)
    requires 0 < s.from < |isData| ==> !isData[s.from - 1] || !isData[s.from]
    ensures s.from == DataEnd(isData)
  {
    hide DataEnd;
  }

  // ---------- the results ----------

  lemma NothingCopied(a: Arithmetic, bytes: seq<CByte>, isData: seq<bool>)
    requires |bytes| == |isData|
    ensures Good(a, bytes, isData, State(0, [], [], 0, Running))
  {
    hide DataEnd;
  }

  /** While all data lies below 2 * INT_MAX, each round gets on. */
  lemma {:induction false} RoundsCopy(a: Arithmetic, bytes: seq<CByte>, isData: seq<bool>, n: nat)
    requires IsFile(bytes, isData) && DataEnd(isData) <= 2 * INT_MAX
    ensures var s := Rounds(a, bytes, isData, n); Good(a, bytes, isData, s) && (s.end.Running? ==> n <= s.from)
  {
    assert |bytes| == |isData|;
    hide Step, DataEnd, IsFile, Good;
    if n == 0 {
      NothingCopied(a, bytes, isData);
    } else {
      RoundsCopy(a, bytes, isData, n - 1);
      var s := Rounds(a, bytes, isData, n - 1);
      if s.end.Running? {
        StepCopies(a, bytes, isData, s);
      }
    }
  }

  /** Nothing at or behind 2 * INT_MAX is ever written. */
  ghost predicate Short(s: State) {
    |s.bytes| <= 2 * INT_MAX && (s.end.Running? ==> s.to <= 2 * INT_MAX && ToInt(s.to) == ToInt(s.from))
  }

  lemma StepStaysShort(a: Arithmetic, bytes: seq<CByte>, isData: seq<bool>, s: State)
    requires |bytes| == |isData| && s.from <= |bytes| && Short(s) && s.end.Running?
    ensures Short(Step(a, bytes, isData, s))
  {
    hide NextData, NextHole, DataAt, HoleAt, ToInt;
    var current := ToInt(s.from);
    ToIntOf(s.to);
    ToIntOf(current);
    ToIntOf(ToInt(DataAt(isData, current)));
  }

  lemma {:induction false} RoundsFallShort(a: Arithmetic, bytes: seq<CByte>, isData: seq<bool>, n: nat)
    requires |bytes| == |isData|
    ensures Short(Rounds(a, bytes, isData, n))
  {
    if n == 0 {
      assert Short(State(0, [], [], 0, Running));
    } else {
      hide Step, Short;
      RoundsFallShort(a, bytes, isData, n - 1);
      var s := Rounds(a, bytes, isData, n - 1);
      if s.end.Running? {
        StepStaysShort(a, bytes, isData, s);
      }
    }
  }

  /** The target gets the source up to the end of its last data, written at exactly the data
      extents, if the offsets fit; if they do not, it never gets that far. */
  lemma CopiesExactly(a: Arithmetic, bytes: seq<CByte>, isData: seq<bool>)
    requires IsFile(bytes, isData)
    ensures var s := Rounds(a, bytes, isData, |bytes| + 1);
            Fits(a, isData) ==> s.end.Ended? && HasAll(bytes, isData, s)
    ensures !Fits(a, isData) ==> forall n :: |Rounds(a, bytes, isData, n).bytes| < DataEnd(isData)
  {
    if DataEnd(isData) <= 2 * INT_MAX {
      RoundsCopy(a, bytes, isData, |bytes| + 1);
      forall n ensures !Fits(a, isData) ==> |Rounds(a, bytes, isData, n).bytes| < DataEnd(isData) {
        RoundsCopy(a, bytes, isData, n);
      }
    } else {
      forall n ensures |Rounds(a, bytes, isData, n).bytes| < DataEnd(isData) {
        RoundsFallShort(a, bytes, isData, n);
      }
    }
    hide Rounds, Copied, IsFile, DataEnd;
  }

  /** The program has ended and the target has the source's bytes and its data extents. */
  ghost predicate Faithful(bytes: seq<CByte>, isData: seq<bool>, s: State) {
    s.end.Ended? && s.bytes == bytes && s.written == isData
  }

  /** That comes to pass exactly when the offsets fit and the source is empty or ends in data;
      a hole at the end is lost. */
  lemma FaithfulExactly(a: Arithmetic, bytes: seq<CByte>, isData: seq<bool>)
    requires IsFile(bytes, isData)
    ensures (exists n :: Faithful(bytes, isData, Rounds(a, bytes, isData, n))) <==>
            Fits(a, isData) && (bytes == [] || isData[|isData| - 1])
  {
    hide Rounds, Fits;
    CopiesExactly(a, bytes, isData);
    if n: nat :| Faithful(bytes, isData, Rounds(a, bytes, isData, n)) {
      var m := |bytes| + 1;
      if m <= n {
        EndedStays(a, bytes, isData, m, n);
      } else {
        EndedStays(a, bytes, isData, n, m);
      }
    }
    var s := Rounds(a, bytes, isData, |bytes| + 1);
    assert DataEnd(isData) == |bytes| ==> bytes[..|bytes|] == bytes && isData[..|bytes|] == isData;
  }

  /** A file that is one hole of one byte is copied as an empty file. */
  lemma OneByteHoleIsLost(a: Arithmetic)
    ensures Rounds(a, [0], [false], 1) == State(0, [], [], 0, Ended)
  {
    assert NextData([false], 0) == -1;
  }

  /** Of a file of data only, the first round sees just its size. */
  lemma AllData(a: Arithmetic, bytes: seq<CByte>)
    requires bytes != []
    ensures var s, n := State(0, [], [], 0, Running), ToInt(|bytes|);
            Step(a, bytes, Ones(|bytes|), s) ==
            if n < 0 then s.(from := if n == -1 then |bytes| else 0, end := Failed) else Write(s, bytes[..n])
  {
    hide ToInt, Write;
    assert HoleAt(Ones(|bytes|), 0) == |bytes|;
    ToIntOf(0);
    ToIntOf(ToInt(|bytes|));
  }

  /** 2^31 bytes of data: read() gets a negative size, and nothing is copied. */
  lemma TwoGigabytesFail(a: Arithmetic, bytes: seq<CByte>, n: nat)
    requires |bytes| == INT_MAX + 1 && n > 0
    ensures Rounds(a, bytes, Ones(|bytes|), n) == State(0, [], [], 0, Failed)
  {
    AllData(a, bytes);
    hide Step, Ones;
    var s := Rounds(a, bytes, Ones(|bytes|), 0);
    EndedStays(a, bytes, Ones(|bytes|), 1, n);
  }

  /** One byte of data behind a hole of 2^32 - 1 bytes: its offset reads as -1, which is taken for
      the end of the data, and the program ends as if all were well. */
  lemma ByteAtMinusOneIsLost(a: Arithmetic, bytes: seq<CByte>, isData: seq<bool>)
    requires |bytes| == |isData| == 0x1_0000_0000
    requires forall i :: 0 <= i < |isData| ==> (isData[i] <==> i == 0xFFFF_FFFF)
    ensures var s := Rounds(a, bytes, isData, 1); s.end == Ended && s.bytes == []
  {
    var d := DataAt(isData, 0);
    assert isData[0xFFFF_FFFF] && d == 0xFFFF_FFFF;
    assert ToInt(0) == 0 && ToInt(0xFFFF_FFFF) == -1;
    hide DataAt, HoleAt, ToInt;
  }

  lemma OneRoundChangesNothing(a: Arithmetic, bytes: seq<CByte>)
    requires |bytes| == 0x1_0000_0000
    ensures Step(a, bytes, Ones(|bytes|), State(0, [], [], 0, Running)) == State(0, [], [], 0, Running)
  {
    assert ToInt(0x1_0000_0000) == 0;
    hide Step, ToInt, Write;
    AllData(a, bytes);
    WriteNothing(State(0, [], [], 0, Running), bytes);
  }

  /** 2^32 bytes of data: the program copies no byte, for ever. */
  lemma {:induction false} FourGigabytesHang(a: Arithmetic, bytes: seq<CByte>, n: nat)
    requires |bytes| == 0x1_0000_0000
    ensures Rounds(a, bytes, Ones(|bytes|), n) == State(0, [], [], 0, Running)
  {
    hide Step, Ones;
    if n > 0 {
      FourGigabytesHang(a, bytes, n - 1);
      OneRoundChangesNothing(a, bytes);
    }
  }
}
