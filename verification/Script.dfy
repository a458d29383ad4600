/** 64_Pseudoterminals/better_script.c, which records timed terminal output, and
    64_Pseudoterminals/replay_script.c, which plays the recording back.

    A record is a time in milliseconds, a blank, and the text of one read() with its newlines
    written as backslash and 'n'; a newline ends it.  Bytes are written as characters. */
module Script {
  import opened CInt
  import opened Collections
  import opened DynamicArray

  // ---------- text ----------

  function Esc(c: char): seq<char> { if c == '\n' then ['\\', 'n'] else [c] }

  function Encode(text: seq<char>): seq<char> {
    if text == [] then [] else Esc(text[0]) + Encode(text[1..])
  }

  /** What the replayer does with one character of a record's text. */
  function DecodeStep(out: seq<char>, c: char): seq<char> {
    if c == 'n' && out != [] && out[|out| - 1] == '\\' then out[..|out| - 1] + ['\n'] else out + [c]
  }

  function DecodeFrom(out: seq<char>, text: seq<char>): seq<char>
    decreases |text|
  {
    if text == [] then out else DecodeFrom(DecodeStep(out, text[0]), text[1..])
  }

  function Decode(text: seq<char>): seq<char> { DecodeFrom([], text) }

  predicate PairAt(text: seq<char>, i: int) {
    0 <= i < |text| - 1 && text[i] == '\\' && text[i + 1] == 'n'
  }

  ghost predicate PairFree(text: seq<char>) {
    forall i :: !PairAt(text, i)
  }

  /** The text with every backslash and 'n' side by side replaced by a newline. */
  function Merged(text: seq<char>): seq<char> {
    if text == [] then []
    else if PairAt(text, 0) then ['\n'] + Merged(text[2..])
    else [text[0]] + Merged(text[1..])
  }

  lemma {:induction false} DecodeAppend(out: seq<char>, a: seq<char>, b: seq<char>)
    ensures DecodeFrom(out, a + b) == DecodeFrom(DecodeFrom(out, a), b)
    decreases |a|
  {
    if a == [] {
      assert a + b == b;
    } else {
      assert (a + b)[1..] == a[1..] + b;
      DecodeAppend(DecodeStep(out, a[0]), a[1..], b);
    }
  }

  lemma {:induction false} EncodeAppend(a: seq<char>, b: seq<char>)
    ensures Encode(a + b) == Encode(a) + Encode(b)
  {
    if a == [] {
      assert a + b == b;
    } else {
      assert (a + b)[1..] == a[1..] + b;
      EncodeAppend(a[1..], b);
      assert Esc(a[0]) + Encode(a[1..]) + Encode(b) == Esc(a[0]) + (Encode(a[1..]) + Encode(b));
    }
  }

  lemma EncodeNext(text: seq<char>, i: nat)
    requires i < |text|
    ensures Encode(text[..i + 1]) == Encode(text[..i]) + Esc(text[i])
  {
    EncodeAppend(text[..i], [text[i]]);
    assert text[..i + 1] == text[..i] + [text[i]];
    assert Encode([text[i]]) == Esc(text[i]) + [];
  }

  /** An escaped character is put back, unless it is an 'n' behind a backslash. */
  lemma DecodeEsc(out: seq<char>, c: char)
    ensures out == [] || out[|out| - 1] != '\\' || c != 'n' ==> DecodeFrom(out, Esc(c)) == out + [c]
    ensures out != [] && out[|out| - 1] == '\\' && c == 'n' ==> DecodeFrom(out, Esc(c)) == out[..|out| - 1] + ['\n']
  {
    var e := Esc(c);
    assert DecodeFrom(out, e) == DecodeFrom(DecodeStep(out, e[0]), e[1..]);
    if c == '\n' {
      var mid := DecodeStep(out, '\\');
      assert mid == out + ['\\'] && e[1..] == ['n'] && ['n'][1..] == [];
      assert mid[..|mid| - 1] == out;
      assert DecodeFrom(mid, ['n']) == DecodeStep(mid, 'n');
    }
  }

  /** Decoding behind `out` appends the merged text, if no pair straddles the seam. */
  lemma {:induction false} DecodeEncodeFrom(out: seq<char>, text: seq<char>)
    requires out != [] && text != [] ==> !(out[|out| - 1] == '\\' && text[0] == 'n')
    ensures DecodeFrom(out, Encode(text)) == out + Merged(text)
    decreases |text|
  {
    if text != [] {
      DecodeAppend(out, Esc(text[0]), Encode(text[1..]));
      DecodeEsc(out, text[0]);
      var out1 := out + [text[0]];
      if PairAt(text, 0) {
        DecodeAppend(out1, Esc('n'), Encode(text[2..]));
        DecodeEsc(out1, 'n');
        assert text[1..][1..] == text[2..] && out1[..|out1| - 1] == out;
        DecodeEncodeFrom(out + ['\n'], text[2..]);
        assert out + ['\n'] + Merged(text[2..]) == out + (['\n'] + Merged(text[2..]));
      } else {
        DecodeEncodeFrom(out1, text[1..]);
        assert out1 + Merged(text[1..]) == out + ([text[0]] + Merged(text[1..]));
      }
    }
  }

  /** What comes back from a recording is the text with its pairs merged. */
  lemma DecodeEncode(text: seq<char>)
    ensures Decode(Encode(text)) == Merged(text)
  {
    DecodeEncodeFrom([], text);
  }

  lemma {:induction false} MergedShrinks(text: seq<char>)
    ensures |Merged(text)| <= |text|
    ensures Merged(text) == text <==> PairFree(text)
    ensures |Merged(text)| == |text| <==> PairFree(text)
    decreases |text|
  {
    if text == [] {
    } else if PairAt(text, 0) {
      MergedShrinks(text[2..]);
    } else {
      MergedShrinks(text[1..]);
      assert text == [text[0]] + text[1..];
      assert forall i :: PairAt(text[1..], i) ==> PairAt(text, i + 1);
      assert forall i :: i > 0 && PairAt(text, i) ==> PairAt(text[1..], i - 1);
    }
  }

  /** Text survives recording and replay exactly when it holds no such pair. */
  lemma SurvivesExactly(text: seq<char>)
    ensures Decode(Encode(text)) == text <==> PairFree(text)
  {
    DecodeEncode(text);
    MergedShrinks(text);
  }

  /** A backslash and an 'n' come back as a newline. */
  lemma PairIsLost()
    ensures Decode(Encode(['\\', 'n'])) == ['\n'] != ['\\', 'n']
  {
    DecodeEncode(['\\', 'n']);
    assert Merged(['\\', 'n']) == ['\n'] + Merged([]);
  }

  lemma {:induction false} EncodedHasNoNewline(text: seq<char>)
    ensures '\n' !in Encode(text)
  {
    if text != [] {
      EncodedHasNoNewline(text[1..]);
    }
  }

  // ---------- numbers ----------

  function Digit(d: nat): char
    requires d < 10
  {
    '0' + d as char
  }

  function Digits(n: nat): (s: seq<char>) {
    if n < 10 then [Digit(n)] else Digits(n / 10) + [Digit(n % 10)]
  }

  /** printf("%d") */
  function PrintInt(n: int): seq<char> { if n < 0 then ['-'] + Digits(-n) else Digits(n) }

  predicate IsDigit(c: char) { '0' as int <= c as int <= '9' as int }

  /** The number the digits stand for. */
  function ValueOf(s: seq<char>): nat
    requires forall i :: 0 <= i < |s| ==> IsDigit(s[i])
  {
    if s == [] then 0
    else
      assert IsDigit(s[|s| - 1]);
      10 * ValueOf(s[..|s| - 1]) + s[|s| - 1] as int - '0' as int
  }

  predicate IsSpace(c: char) { c in ['\t', '\n', '\U{0B}', '\U{0C}', '\r', ' '] }

  predicate AllDigits(s: seq<char>) { s != [] && forall i :: 0 <= i < |s| ==> IsDigit(s[i]) }

  /** getInt(arg, GN_NONNEG, ...): strtol() in base 10, nothing behind the number, not negative,
      no more than INT_MAX. */
  function GetInt(arg: seq<char>): Option<int> {
    if arg == [] then None
    else if IsSpace(arg[0]) then GetInt(arg[1..])
    else
      var digits := if arg[0] == '+' || arg[0] == '-' then arg[1..] else arg;
      if !AllDigits(digits) then None
      else
        var num := (if arg[0] == '-' then -1 else 1) * ValueOf(digits);
        if num < 0 || num > INT_MAX then None else Some(num)
  }

  /** arg is white space, a sign or none, and digits, which stand for n. */
  ghost predicate Denotes(arg: seq<char>, space: seq<char>, sign: seq<char>, digits: seq<char>, n: int) {
    && arg == space + sign + digits && (forall i :: 0 <= i < |space| ==> IsSpace(space[i]))
    && (sign == [] || sign == ['+'] || sign == ['-']) && AllDigits(digits)
    && n == (if sign == ['-'] then -1 else 1) * ValueOf(digits)
  }

  /** getInt() accepts exactly the numbers between 0 and INT_MAX, however they are written. */
  lemma GetIntExactly(arg: seq<char>, n: int)
    ensures GetInt(arg) == Some(n) <==>
            0 <= n <= INT_MAX && exists space, sign, digits :: Denotes(arg, space, sign, digits, n)
  {
    if GetInt(arg) == Some(n) {
      var space, sign, digits := GetIntDenotes(arg, n);
    }
    forall space, sign, digits | 0 <= n <= INT_MAX && Denotes(arg, space, sign, digits, n)
      ensures GetInt(arg) == Some(n)
    {
      DenotedIsGot(arg, space, sign, digits, n);
    }
  }

  lemma {:induction false} GetIntDenotes(arg: seq<char>, n: int)
      returns (space: seq<char>, sign: seq<char>, digits: seq<char>)
    requires GetInt(arg) == Some(n)
    ensures 0 <= n <= INT_MAX && Denotes(arg, space, sign, digits, n)
  {
    if IsSpace(arg[0]) {
      space, sign, digits := GetIntDenotes(arg[1..], n);
      SpaceBefore(arg[0], space, sign, digits, n);
      assert arg == [arg[0]] + arg[1..];
      space := [arg[0]] + space;
    } else {
      space := [];
      sign, digits := SignAndDigits(arg, n);
    }
  }

  lemma SpaceBefore(c: char, space: seq<char>, sign: seq<char>, digits: seq<char>, n: int)
    requires IsSpace(c) && Denotes(space + sign + digits, space, sign, digits, n)
    ensures Denotes([c] + (space + sign + digits), [c] + space, sign, digits, n)
  {
    hide IsSpace, ValueOf, AllDigits;
    assert [c] + (space + sign + digits) == [c] + space + sign + digits;
  }

  lemma SignAndDigits(arg: seq<char>, n: int) returns (sign: seq<char>, digits: seq<char>)
    requires arg != [] && !IsSpace(arg[0]) && GetInt(arg) == Some(n)
    ensures 0 <= n <= INT_MAX && Denotes(arg, [], sign, digits, n)
  {
    if arg[0] == '+' || arg[0] == '-' {
      sign, digits := [arg[0]], arg[1..];
      assert arg[0] == '-' <==> sign == ['-'];
    } else {
      sign, digits := [], arg;
    }
    assert arg == [] + sign + digits;
  }

  lemma {:induction false} DenotedIsGot(arg: seq<char>, space: seq<char>, sign: seq<char>, digits: seq<char>, n: int)
    requires 0 <= n <= INT_MAX && Denotes(arg, space, sign, digits, n)
    ensures GetInt(arg) == Some(n)
    decreases |space|
  {
    if space != [] {
      assert arg[0] == space[0] && arg[1..] == space[1..] + sign + digits;
      DenotedIsGot(arg[1..], space[1..], sign, digits, n);
    } else if sign != [] {
      assert arg[0] == sign[0] && arg[1..] == digits;
    } else {
      assert arg == digits && IsDigit(arg[0]);
    }
  }

  lemma {:induction false} DigitsValue(n: nat)
    ensures Digits(n) != [] && (forall i :: 0 <= i < |Digits(n)| ==> IsDigit(Digits(n)[i]))
    ensures ValueOf(Digits(n)) == n
  {
    if n >= 10 {
      DigitsValue(n / 10);
      var s := Digits(n);
      assert s[..|s| - 1] == Digits(n / 10);
    }
  }

  lemma {:induction false} DigitsShort(n: nat, k: nat, bound: nat)
    requires k >= 1 && n < bound && bound == Power10(k)
    ensures |Digits(n)| <= k
  {
    if n >= 10 {
      DigitsShort(n / 10, k - 1, Power10(k - 1));
    }
  }

  function Power10(k: nat): nat { if k == 0 then 1 else 10 * Power10(k - 1) }

  lemma DigitsOfInt(n: nat)
    requires n <= INT_MAX + 1
    ensures |Digits(n)| <= 10
  {
    assert Power10(10) == 10 * Power10(9) == 100 * Power10(8) == 1000 * Power10(7) == 10000 * Power10(6);
    assert Power10(6) == 10 * Power10(5) == 100 * Power10(4) == 1000 * Power10(3);
    assert Power10(3) == 10 * Power10(2) == 100 * Power10(1);
    DigitsShort(n, 10, Power10(10));
  }

  /** A printed time is read back, and it is short and free of blanks. */
  lemma PrintedIntIsRead(n: int)
    requires 0 <= n <= INT_MAX
    ensures GetInt(PrintInt(n)) == Some(n)
    ensures ' ' !in PrintInt(n) && '\0' !in PrintInt(n) && |PrintInt(n)| <= 10
  {
    DigitsValue(n);
    DigitsOfInt(n);
  }

  /** A printed negative number is refused. */
  lemma NegativeIsRefused(n: int)
    requires -INT_MAX - 1 <= n < 0
    ensures GetInt(PrintInt(n)) == None
    ensures ' ' !in PrintInt(n) && '\0' !in PrintInt(n) && |PrintInt(n)| <= 11
  {
    DigitsValue(-n);
    DigitsOfInt(-n);
    hide Digits, ValueOf;
    var arg := PrintInt(n);
    assert arg[0] == '-' && arg[1..] == Digits(-n);
    assert AllDigits(arg[1..]);
  }

  // ---------- times ----------

  datatype Timespec = Timespec(sec: int, nsec: int)

  predicate IsTime(t: Timespec) { 0 <= t.nsec < 1_000_000_000 }

  /** C's `/` and `%`, which truncate towards zero. */
  function Quot(a: int, b: int): int
    requires b > 0
  {
    if a >= 0 then a / b else -(-a / b)
  }

  function Rem(a: int, b: int): int
    requires b > 0
  {
    a - b * Quot(a, b)
  }

  ghost function Elapsed(start: Timespec, now: Timespec): int {
    (now.sec - start.sec) * 1_000_000_000 + now.nsec - start.nsec
  }

  function Millis(start: Timespec, now: Timespec): int {
    (now.sec - start.sec) * 1000 + Quot(now.nsec - start.nsec, 1_000_000)
  }

  /** The difference of the nanoseconds may be negative; the time is still not, and off by less than 1 ms. */
  lemma MillisWithinOne(start: Timespec, now: Timespec)
    requires IsTime(start) && IsTime(now) && Elapsed(start, now) >= 0
    ensures Millis(start, now) >= 0
    ensures -1_000_000 < Millis(start, now) * 1_000_000 - Elapsed(start, now) < 1_000_000
  {
  }

  /** Truncation towards zero: down where the nanoseconds have grown, up where they have not. */
  lemma MillisTruncates(start: Timespec, now: Timespec)
    requires IsTime(start) && IsTime(now)
    ensures var m, e := Millis(start, now) * 1_000_000, Elapsed(start, now);
            if now.nsec >= start.nsec then m <= e < m + 1_000_000 else m - 1_000_000 < e <= m
  {
  }

  lemma MillisMonotone(start: Timespec, a: Timespec, b: Timespec)
    requires IsTime(start) && IsTime(a) && IsTime(b) && Elapsed(start, a) <= Elapsed(start, b)
    ensures Millis(start, a) <= Millis(start, b)
  {
    MillisTruncates(start, a);
    MillisTruncates(start, b);
    if a.nsec < start.nsec <= b.nsec {
      assert a.sec <= b.sec && Quot(a.nsec - start.nsec, 1_000_000) <= 0 <= Quot(b.nsec - start.nsec, 1_000_000);
    }
    hide Quot;
    if !(a.nsec < start.nsec <= b.nsec) {
      hide Millis;
    }
  }

  /** The pause the replayer asks for. */
  function Delay(ms: int): Timespec { Timespec(Quot(ms, 1000), Rem(ms, 1000) * 1_000_000) }

  /** clock_nanosleep() accepts it. */
  predicate ValidDelay(t: Timespec) { t.sec >= 0 && IsTime(t) }

  lemma DelayIsExact(ms: int)
    ensures ValidDelay(Delay(ms)) <==> ms >= 0
    ensures Delay(ms).sec * 1_000_000_000 + Delay(ms).nsec == ms * 1_000_000
  {
  }

  // ---------- recording ----------

  datatype Entry = Entry(ms: int, text: seq<char>)

  function RecordText(e: Entry): seq<char> {
    PrintInt(e.ms) + [' '] + Encode(e.text) + ['\n']
  }

  function Recording(entries: seq<Entry>): seq<char> {
    if entries == [] then [] else RecordText(entries[0]) + Recording(entries[1..])
  }

  /** 1203 ms after the start the terminal showed "a", a newline and "b". */
  lemma RecordExample()
    ensures RecordText(Entry(1203, "a\nb")) == "1203 a\\nb\n"
  {
    assert Digits(1203) == Digits(120) + ['3'] == Digits(12) + ['0', '3'] == Digits(1) + ['2', '0', '3'];
    assert Encode("b") == "b" + Encode("");
    assert Encode("\nb") == "\\n" + Encode("b");
    assert Encode("a\nb") == "a" + Encode("\nb");
  }

  lemma {:induction false} RecordingAppend(entries: seq<Entry>, e: Entry)
    ensures Recording(entries + [e]) == Recording(entries) + RecordText(e)
  {
    if entries == [] {
      assert [] + [e] == [e] && [e][1..] == [];
      assert RecordText(e) + [] == RecordText(e);
    } else {
      assert (entries + [e])[1..] == entries[1..] + [e];
      RecordingAppend(entries[1..], e);
    }
  }

  lemma Assoc(a: seq<char>, b: seq<char>, c: seq<char>)
    ensures a + b + c == a + (b + c)
  {
  }

  lemma RecordJoins(before: seq<char>, e: Entry)
    ensures before + (PrintInt(e.ms) + [' ']) + Encode(e.text) + ['\n'] == before + RecordText(e)
  {
    hide PrintInt, Encode;
  }

  class Recorder {
    const start: Timespec
    var tscript: seq<char>  // the file
    ghost var entries: seq<Entry>

    ghost predicate Valid()
      reads this
    {
      tscript == Recording(entries)
    }

    constructor (start: Timespec)
      ensures Valid() && this.start == start && entries == []
    {
      this.start, tscript, entries := start, [], [];
    }

    /** The loop that writes the text one character at a time. */
    method WriteText(buf: array<char>, numRead: nat)
      requires numRead <= buf.Length
      modifies this`tscript
      ensures tscript == old(tscript) + Encode(buf[..numRead])
    {
      ghost var head, text := tscript, buf[..numRead];
      assert Encode(text[..0]) == [] && head + [] == head;
      hide Encode;
      var i := 0;
      while i < numRead
        invariant 0 <= i <= numRead && tscript == head + Encode(text[..i])
      {
        EncodeNext(text, i);
        Assoc(head, Encode(text[..i]), Esc(text[i]));
        if buf[i] == '\n' {
          tscript := tscript + ['\\', 'n'];
        } else {
          tscript := tscript + [buf[i]];
        }
        i := i + 1;
      }
      assert text[..numRead] == text;
    }

    /** The part of the loop that writes what one read() of the pseudoterminal delivered. */
    method Record(buf: array<char>, numRead: nat, now: Timespec)
      requires Valid() && numRead <= buf.Length
      modifies this
      ensures Valid() && entries == old(entries) + [Entry(ToInt(Millis(start, now)), buf[..numRead])]
    {
      hide Encode, PrintInt, Recording, Quot, RecordText;
      var sec, nsec := now.sec - start.sec, now.nsec - start.nsec;
      var ms := ToInt(sec * 1000 + Quot(nsec, 1_000_000));
      tscript := tscript + (PrintInt(ms) + [' ']);
      WriteText(buf, numRead);
      tscript := tscript + ['\n'];
      ghost var e := Entry(ms, buf[..numRead]);
      RecordJoins(old(tscript), e);
      RecordingAppend(entries, e);
      entries := entries + [e];
    }
  }

  // ---------- replaying ----------

  datatype End =
    | AtEof
    | BadNumber  // getInt() ends the program
    | BadDelay   // clock_nanosleep() fails
    | Overrun    // strlen() of the 100-byte buffer for the time, all 100 bytes of which are in use
    | Underrun   // reads in front of an empty array, which is undefined

  /** What the replayer finds in front of the memory of an empty array, where it looks for a
      backslash when a record's text begins with an 'n': C leaves that undefined; an allocator
      that keeps a block's size there has no backslash in it. */
  datatype Front = Undefined | NoBackslash

  datatype Replayed = Replayed(delays: seq<Timespec>, output: seq<char>, end: End)

  function Find(s: seq<char>, c: char): (i: nat)
    ensures i <= |s| && (i < |s| ==> s[i] == c) && c !in s[..i]
  {
    if s == [] || s[0] == c then 0 else 1 + Find(s[1..], c)
  }

  /** Storing a NUL at ms[strlen(ms)] changes nothing. */
  function DropNuls(s: seq<char>): seq<char> {
    if s == [] then []
    else
      var last := s[|s| - 1];
      DropNuls(s[..|s| - 1]) + if last == '\0' then [] else [last]
  }

  ghost function Behind(delays: seq<Timespec>, output: seq<char>, more: Replayed): Replayed {
    Replayed(delays + more.delays, output + more.output, more.end)
  }

  /** The characters before the blank, or before the end of the file, that another character
      follows: only they are looked at again with strlen(). */
  function Followed(rest: seq<char>): (n: nat)
    ensures n <= |rest|
  {
    var blank := Find(rest, ' ');
    if blank == |rest| > 0 then blank - 1 else blank
  }

  /** What one round of the main loop makes of the unread characters. */
  datatype Round = Stop(last: Replayed) | Go(delay: Timespec, text: seq<char>, next: seq<char>, ms: int)

  predicate ReadsFront(front: Front, text: seq<char>) {
    front.Undefined? && text != [] && text[0] == 'n'
  }

  function PlayRound(front: Front, rest: seq<char>, last: int): Round {
    var blank := Find(rest, ' ');
    if |DropNuls(rest[..Followed(rest)])| > 99 then Stop(Replayed([], [], Overrun))
    else if blank == |rest| then Stop(Replayed([], [], AtEof))
    else
      match GetInt(DropNuls(rest[..blank]))
      case None => Stop(Replayed([], [], BadNumber))
      case Some(ms) =>
        var delay := Delay(ms - last);
        if !ValidDelay(delay) then Stop(Replayed([], [], BadDelay))
        else
          var body := rest[blank + 1..];
          var newline := Find(body, '\n');
          var text := Decode(body[..newline]);
          if ReadsFront(front, body[..newline]) then Stop(Replayed([delay], [], Underrun))
          else if newline == |body| then Stop(Replayed([delay], text, AtEof))
          else Go(delay, text, body[newline + 1..], ms)
  }

  /** All that is left to do when `rest` is unread and the last time was `last`. */
  ghost function Play(front: Front, rest: seq<char>, last: int): Replayed
    decreases |rest|
  {
    match PlayRound(front, rest, last)
    case Stop(r) => r
    case Go(delay, text, next, ms) => Behind([delay], text, Play(front, next, ms))
  }

  // ---------- the results ----------

  ghost predicate Timed(entries: seq<Entry>, last: int) {
    entries == [] || (last <= entries[0].ms <= INT_MAX && Timed(entries[1..], entries[0].ms))
  }

  /** No record's text begins with an 'n', if that matters. */
  ghost predicate Defined(front: Front, entries: seq<Entry>) {
    forall i :: 0 <= i < |entries| ==> !ReadsFront(front, entries[i].text)
  }

  ghost function Delays(entries: seq<Entry>, last: int): seq<Timespec> {
    if entries == [] then [] else [Delay(entries[0].ms - last)] + Delays(entries[1..], entries[0].ms)
  }

  ghost function TextOf(entries: seq<Entry>): seq<char> {
    if entries == [] then [] else entries[0].text + TextOf(entries[1..])
  }

  ghost function MergedTextOf(entries: seq<Entry>): seq<char> {
    if entries == [] then [] else Merged(entries[0].text) + MergedTextOf(entries[1..])
  }

  lemma {:induction false} NoNulsToDrop(s: seq<char>)
    requires '\0' !in s
    ensures DropNuls(s) == s
  {
    if s != [] {
      NoNulsToDrop(s[..|s| - 1]);
    }
  }

  lemma {:induction false} FindIn(a: seq<char>, c: char, b: seq<char>)
    requires c !in a
    ensures Find(a + [c] + b, c) == |a|
  {
    if a == [] {
      assert a + [c] + b == [c] + b;
    } else {
      assert (a + [c] + b)[1..] == a[1..] + [c] + b;
      FindIn(a[1..], c, b);
    }
  }

  /** The time of a record is found before the blank, number or not. */
  lemma FieldParses(field: seq<char>, body: seq<char>)
    requires ' ' !in field && '\0' !in field && |field| <= 99
    ensures var rest := field + [' '] + body;
            && Find(rest, ' ') == |field| && rest[..|field|] == field && rest[|field| + 1..] == body
            && DropNuls(field) == field
  {
    hide Find, DropNuls;
    NoNulsToDrop(field);
    FindIn(field, ' ', body);
  }

  lemma HeadParses(number: seq<char>, ms: int, body: seq<char>)
    requires 0 <= ms <= INT_MAX && number == PrintInt(ms)
    ensures var rest := number + [' '] + body;
            && Find(rest, ' ') == |number| && rest[..|number|] == number && rest[|number| + 1..] == body
            && DropNuls(number) == number && |number| <= 99 && GetInt(number) == Some(ms)
  {
    hide GetInt, PrintInt, Find, DropNuls;
    PrintedIntIsRead(ms);
    FieldParses(number, body);
  }

  lemma BodyParses(text: seq<char>, rest: seq<char>)
    ensures var body := Encode(text) + ['\n'] + rest;
            && Find(body, '\n') == |Encode(text)| && body[..|Encode(text)|] == Encode(text)
            && body[|Encode(text)| + 1..] == rest
            && Decode(body[..|Encode(text)|]) == Merged(text)
  {
    hide Find, Encode, Decode, Merged;
    EncodedHasNoNewline(text);
    FindIn(Encode(text), '\n', rest);
    DecodeEncode(text);
  }

  lemma EncodedFront(front: Front, text: seq<char>)
    ensures ReadsFront(front, Encode(text)) <==> ReadsFront(front, text)
  {
  }

  lemma RecordSplits(e: Entry, rest: seq<char>)
    ensures RecordText(e) + rest == PrintInt(e.ms) + [' '] + (Encode(e.text) + ['\n'] + rest)
  {
    hide PrintInt, Encode;
  }

  /** One record is replayed as its pause and its text, and leaves the rest to do. */
  lemma PlayOne(front: Front, e: Entry, rest: seq<char>, last: int)
    requires 0 <= e.ms <= INT_MAX && last <= e.ms
    ensures PlayRound(front, RecordText(e) + rest, last)
            == if ReadsFront(front, e.text) then Stop(Replayed([Delay(e.ms - last)], [], Underrun))
               else Go(Delay(e.ms - last), Merged(e.text), rest, e.ms)
  {
    hide GetInt, PrintInt, Encode, Find, Decode, DropNuls, Merged, Delay, ValidDelay, RecordText, ReadsFront;
    RecordSplits(e, rest);
    HeadParses(PrintInt(e.ms), e.ms, Encode(e.text) + ['\n'] + rest);
    BodyParses(e.text, rest);
    DelayIsExact(e.ms - last);
    EncodedFront(front, e.text);
  }

  lemma PlayEmpty(front: Front, last: int)
    ensures PlayRound(front, [], last) == Stop(Replayed([], [], AtEof))
  {
  }

  /** A whole recording plays to its end, with its pauses and its merged text, if it never looks in
      front of an empty array. */
  lemma {:induction false} PlayRecording(front: Front, entries: seq<Entry>, last: int)
    requires 0 <= last && Timed(entries, last)
    ensures var r := Play(front, Recording(entries), last);
            if Defined(front, entries) then r == Replayed(Delays(entries, last), MergedTextOf(entries), AtEof)
            else r.end == Underrun
  {
    hide PlayRound, RecordText, Merged, Delay, ReadsFront;
    PlayEmpty(front, last);
    if entries != [] {
      PlayOne(front, entries[0], Recording(entries[1..]), last);
      PlayRecording(front, entries[1..], entries[0].ms);
      DefinedSplits(front, entries);
    }
    hide Defined;
  }

  lemma DefinedSplits(front: Front, entries: seq<Entry>)
    requires entries != []
    ensures Defined(front, entries) <==> !ReadsFront(front, entries[0].text) && Defined(front, entries[1..])
  {
    hide ReadsFront;
    assert forall i :: 0 <= i < |entries[1..]| ==> entries[1..][i] == entries[i + 1];
    assert Defined(front, entries[1..]) ==> forall i :: 0 < i < |entries| ==> entries[i] == entries[1..][i - 1];
  }

  // ---------- recordings that are cut off ----------

  lemma FindNone(s: seq<char>, c: char)
    requires c !in s
    ensures Find(s, c) == |s|
  {
  }

  /** What comes behind whole records is played where they end. */
  lemma {:induction false} PlayBehind(front: Front, entries: seq<Entry>, tail: seq<char>, last: int)
    requires 0 <= last && Timed(entries, last) && Defined(front, entries)
    ensures Play(front, Recording(entries) + tail, last)
            == Behind(Delays(entries, last), MergedTextOf(entries), Play(front, tail, LastMs(entries, last)))
    decreases |entries|
  {
    hide PlayRound, RecordText, Merged, Delay, ReadsFront;
    if entries == [] {
      assert [] + tail == tail;
    } else {
      var rest := Recording(entries[1..]) + tail;
      assert Recording(entries) + tail == RecordText(entries[0]) + rest;
      PlayOne(front, entries[0], rest, last);
      DefinedSplits(front, entries);
      PlayBehind(front, entries[1..], tail, entries[0].ms);
      BehindOne(Delay(entries[0].ms - last), Merged(entries[0].text), entries, last,
                Play(front, tail, LastMs(entries, last)));
    }
  }

  ghost function LastMs(entries: seq<Entry>, last: int): int {
    if entries == [] then last else LastMs(entries[1..], entries[0].ms)
  }

  lemma {:induction false} LastMsFits(entries: seq<Entry>, last: int)
    requires 0 <= last <= INT_MAX && Timed(entries, last)
    ensures last <= LastMs(entries, last) <= INT_MAX
  {
    if entries != [] {
      LastMsFits(entries[1..], entries[0].ms);
    }
  }

  lemma BehindOne(delay: Timespec, text: seq<char>, entries: seq<Entry>, last: int, more: Replayed)
    requires entries != [] && delay == Delay(entries[0].ms - last) && text == Merged(entries[0].text)
    ensures Behind([delay], text, Behind(Delays(entries[1..], entries[0].ms), MergedTextOf(entries[1..]), more))
            == Behind(Delays(entries, last), MergedTextOf(entries), more)
  {
    hide Delay, Merged;
    var delays, output := Delays(entries[1..], entries[0].ms), MergedTextOf(entries[1..]);
    assert [delay] + (delays + more.delays) == [delay] + delays + more.delays;
    assert text + (output + more.output) == text + output + more.output;
  }

  /** A last record whose newline has not been written yet is shown as far as it goes. */
  lemma PlayCut(front: Front, ms: int, text: seq<char>, last: int)
    requires 0 <= last <= ms <= INT_MAX
    ensures PlayRound(front, PrintInt(ms) + [' '] + Encode(text), last)
            == Stop(if ReadsFront(front, text) then Replayed([Delay(ms - last)], [], Underrun)
                    else Replayed([Delay(ms - last)], Merged(text), AtEof))
  {
    hide GetInt, PrintInt, Encode, Find, Decode, DropNuls, Merged, Delay, ValidDelay, ReadsFront;
    var body := Encode(text);
    HeadParses(PrintInt(ms), ms, body);
    DelayIsExact(ms - last);
    EncodedHasNoNewline(text);
    FindNone(body, '\n');
    assert body[..|body|] == body;
    DecodeEncode(text);
    EncodedFront(front, text);
  }

  /** What has been written of a chunk is the encoding of its beginning, or of that and a backslash
      where the recorder was about to write an 'n' for a newline. */
  lemma {:induction false} CutEncoding(text: seq<char>, k: nat) returns (seen: seq<char>)
    requires k <= |Encode(text)|
    ensures Encode(seen) == Encode(text)[..k]
    ensures seen <= text || (seen != [] && seen[|seen| - 1] == '\\' && |seen| <= |text|
                             && seen[..|seen| - 1] <= text && text[|seen| - 1] == '\n')
  {
    if k == 0 {
      seen := [];
    } else if text[0] == '\n' && k == 1 {
      seen := ['\\'];
      assert Encode(seen) == ['\\'] + Encode([]);
      assert Encode(text)[..1] == ['\\'];
    } else {
      var n := |Esc(text[0])|;
      var rest := CutEncoding(text[1..], k - n);
      seen := [text[0]] + rest;
      assert seen[1..] == rest;
      assert Encode(text)[..k] == Esc(text[0]) + Encode(text[1..])[..k - n];
      assert rest != [] ==> seen[..|seen| - 1] == [text[0]] + rest[..|rest| - 1];
    }
  }

  lemma PlayStops(front: Front, rest: seq<char>, last: int, r: Replayed)
    requires PlayRound(front, rest, last) == Stop(r)
    ensures Play(front, rest, last) == r
  {
  }

  /** What is played of a recording that ends inside a record's text: the pauses of all records, that
      one included, and the text of all, of that one as far as it goes; or up to the read in front of
      the array, where that is undefined. */
  ghost function CutReplay(front: Front, entries: seq<Entry>, ms: int, seen: seq<char>): Replayed {
    var delays := Delays(entries, 0) + [Delay(ms - LastMs(entries, 0))];
    if ReadsFront(front, seen) then Replayed(delays, MergedTextOf(entries), Underrun)
    else Replayed(delays, MergedTextOf(entries) + Merged(seen), AtEof)
  }

  lemma CutInTextReplays(front: Front, entries: seq<Entry>, ms: int, text: seq<char>, k: nat) returns (seen: seq<char>)
    requires Timed(entries, 0) && Defined(front, entries) && LastMs(entries, 0) <= ms <= INT_MAX
    requires k <= |Encode(text)|
    ensures Encode(seen) == Encode(text)[..k]
    ensures seen <= text || (seen != [] && seen[|seen| - 1] == '\\' && |seen| <= |text|
                             && seen[..|seen| - 1] <= text && text[|seen| - 1] == '\n')
    ensures Play(front, Recording(entries) + (PrintInt(ms) + [' '] + Encode(text)[..k]), 0)
            == CutReplay(front, entries, ms, seen)
  {
    seen := CutEncoding(text, k);
    CutAfter(front, entries, ms, seen);
  }

  lemma CutAfter(front: Front, entries: seq<Entry>, ms: int, seen: seq<char>)
    requires Timed(entries, 0) && Defined(front, entries) && LastMs(entries, 0) <= ms <= INT_MAX
    ensures Play(front, Recording(entries) + (PrintInt(ms) + [' '] + Encode(seen)), 0)
            == CutReplay(front, entries, ms, seen)
  {
    hide Play, PlayRound, PrintInt, Encode, Delay, Merged, Delays, MergedTextOf, Recording, ReadsFront, Timed, Defined;
    hide Behind, LastMs, CutReplay;
    var tail, last := PrintInt(ms) + [' '] + Encode(seen), LastMs(entries, 0);
    LastMsFits(entries, 0);
    PlayCut(front, ms, seen, last);
    PlayBehind(front, entries, tail, 0);
    var r := if ReadsFront(front, seen) then Replayed([Delay(ms - last)], [], Underrun)
             else Replayed([Delay(ms - last)], Merged(seen), AtEof);
    PlayStops(front, tail, last, r);
    CutIsBehind(front, entries, ms, seen);
  }

  lemma CutIsBehind(front: Front, entries: seq<Entry>, ms: int, seen: seq<char>)
    ensures var delay := Delay(ms - LastMs(entries, 0));
            CutReplay(front, entries, ms, seen)
            == Behind(Delays(entries, 0), MergedTextOf(entries),
                      if ReadsFront(front, seen) then Replayed([delay], [], Underrun)
                      else Replayed([delay], Merged(seen), AtEof))
  {
    hide Delay, LastMs, Delays, MergedTextOf, ReadsFront, Merged;
    assert MergedTextOf(entries) + [] == MergedTextOf(entries);
  }

  /** A recording that ends inside a time shows the records before it. */
  lemma CutInTimeReplays(front: Front, entries: seq<Entry>, field: seq<char>)
    requires Timed(entries, 0) && Defined(front, entries) && ' ' !in field && |field| <= 100
    ensures Play(front, Recording(entries) + field, 0) == Replayed(Delays(entries, 0), MergedTextOf(entries), AtEof)
  {
    PlayField(front, field, LastMs(entries, 0));
    PlayStops(front, field, LastMs(entries, 0), Replayed([], [], AtEof));
    PlayBehind(front, entries, field, 0);
    assert Delays(entries, 0) + [] == Delays(entries, 0) && MergedTextOf(entries) + [] == MergedTextOf(entries);
    hide PlayRound, Delays, MergedTextOf, Recording;
  }

  // ---------- the buffer for the time ----------

  lemma {:induction false} DropNulsShortens(s: seq<char>)
    ensures |DropNuls(s)| <= |s|
  {
    if s != [] {
      DropNulsShortens(s[..|s| - 1]);
    }
  }

  /** A last field without a blank: 100 characters fit the buffer, as nothing looks at it again. */
  lemma PlayField(front: Front, field: seq<char>, last: int)
    requires ' ' !in field
    ensures |field| <= 100 ==> PlayRound(front, field, last) == Stop(Replayed([], [], AtEof))
    ensures '\0' !in field ==>
      (PlayRound(front, field, last) == Stop(Replayed([], [], Overrun)) <==> |field| > 100)
  {
    hide DropNuls, Find;
    FindNone(field, ' ');
    var seen := field[..Followed(field)];
    DropNulsShortens(seen);
    if '\0' !in field {
      NoNulsToDrop(seen);
    }
  }

  /** A time of at least 100 characters overruns the buffer, and no shorter one does. */
  lemma LongTimeOverruns(front: Front, field: seq<char>, body: seq<char>, last: int)
    requires ' ' !in field && '\0' !in field
    ensures PlayRound(front, field + [' '] + body, last) == Stop(Replayed([], [], Overrun)) <==> |field| >= 100
  {
    hide DropNuls, Find, GetInt, Decode, Delay, ValidDelay;
    var rest := field + [' '] + body;
    FindIn(field, ' ', body);
    NoNulsToDrop(field);
    assert rest[..|field|] == field;
  }

  lemma {:induction false} MergedTextShrinks(entries: seq<Entry>)
    ensures |MergedTextOf(entries)| <= |TextOf(entries)|
    ensures |MergedTextOf(entries)| == |TextOf(entries)| <==>
            forall i :: 0 <= i < |entries| ==> PairFree(entries[i].text)
    ensures MergedTextOf(entries) == TextOf(entries) <==> forall i :: 0 <= i < |entries| ==> PairFree(entries[i].text)
  {
    if entries != [] {
      MergedTextShrinks(entries[1..]);
      MergedShrinks(entries[0].text);
      assert forall i :: 0 <= i < |entries[1..]| ==> entries[1..][i] == entries[i + 1];
      assert (forall i :: 0 <= i < |entries| ==> PairFree(entries[i].text)) <==>
        PairFree(entries[0].text) && forall i :: 0 <= i < |entries[1..]| ==> PairFree(entries[1..][i].text);
      hide PairFree, Merged;
    }
  }

  /** The replay comes to its end exactly when no chunk begins with an 'n', where that matters, and
      shows what was recorded exactly when, besides, none holds a backslash before an 'n'. */
  lemma RoundTripsExactly(front: Front, entries: seq<Entry>)
    requires Timed(entries, 0)
    ensures var r := Play(front, Recording(entries), 0);
            && (r.end == AtEof <==> Defined(front, entries))
            && (r.end == AtEof && r.output == TextOf(entries) <==>
                Defined(front, entries) && forall i :: 0 <= i < |entries| ==> PairFree(entries[i].text))
  {
    PlayRecording(front, entries, 0);
    MergedTextShrinks(entries);
  }

  ghost function TotalNsec(delays: seq<Timespec>): int {
    if delays == [] then 0 else delays[0].sec * 1_000_000_000 + delays[0].nsec + TotalNsec(delays[1..])
  }

  /** Every pause of a replay is valid and together they last until the last record's time. */
  lemma {:induction false} PausesAddUp(entries: seq<Entry>, last: int)
    requires 0 <= last && Timed(entries, last) && entries != []
    ensures forall i :: 0 <= i < |Delays(entries, last)| ==> ValidDelay(Delays(entries, last)[i])
    ensures TotalNsec(Delays(entries, last)) == (entries[|entries| - 1].ms - last) * 1_000_000
  {
    var e, rest := entries[0], Delays(entries[1..], entries[0].ms);
    DelayIsExact(e.ms - last);
    assert Delays(entries, last)[1..] == rest;
    if |entries| > 1 {
      PausesAddUp(entries[1..], e.ms);
    }
    hide ValidDelay, Delay;
  }

  // ---------- from the clock to the replay ----------

  /** What a Recorder records of reads at these times. */
  ghost function Session(start: Timespec, chunks: seq<(Timespec, seq<char>)>): seq<Entry> {
    if chunks == [] then [] else [Entry(ToInt(Millis(start, chunks[0].0)), chunks[0].1)] + Session(start, chunks[1..])
  }

  /** A clock that does not go back. */
  ghost predicate Clocked(start: Timespec, chunks: seq<(Timespec, seq<char>)>, after: Timespec) {
    chunks == [] ||
    (&& IsTime(chunks[0].0) && Elapsed(start, after) <= Elapsed(start, chunks[0].0)
     && Clocked(start, chunks[1..], chunks[0].0))
  }

  /** When the last read of the session was. */
  ghost function LastTime(chunks: seq<(Timespec, seq<char>)>): Timespec
    requires chunks != []
  {
    chunks[|chunks| - 1].0
  }

  lemma {:induction false} LastOfSession(start: Timespec, chunks: seq<(Timespec, seq<char>)>, after: Timespec)
    requires IsTime(start) && IsTime(after) && Elapsed(start, after) >= 0
    requires Clocked(start, chunks, after) && chunks != []
    ensures |Session(start, chunks)| == |chunks|
    ensures Session(start, chunks)[|chunks| - 1].ms == ToInt(Millis(start, LastTime(chunks)))
    ensures IsTime(LastTime(chunks)) && Elapsed(start, LastTime(chunks)) >= Elapsed(start, after)
  {
    if |chunks| > 1 {
      LastOfSession(start, chunks[1..], chunks[0].0);
      assert Session(start, chunks)[1..] == Session(start, chunks[1..]);
    }
    hide Elapsed, Millis, ToInt;
  }

  /** The times written down never go back if the last of them fits an int. */
  lemma {:induction false} SessionIsTimed(start: Timespec, chunks: seq<(Timespec, seq<char>)>, after: Timespec)
    requires IsTime(start) && IsTime(after) && Elapsed(start, after) >= 0 && Clocked(start, chunks, after)
    requires chunks != [] && Millis(start, LastTime(chunks)) <= INT_MAX
    ensures Timed(Session(start, chunks), Millis(start, after))
  {
    var now := chunks[0].0;
    LastOfSession(start, chunks, after);
    MillisWithinOne(start, now);
    MillisMonotone(start, after, now);
    if |chunks| > 1 {
      LastOfSession(start, chunks[1..], now);
      SessionIsTimed(start, chunks[1..], now);
    }
    MillisMonotone(start, now, LastTime(chunks));
    ToIntOf(Millis(start, now));
    hide Elapsed, Millis, ToInt;
  }

  /** A record with a negative time, or an earlier one than the last, ends the replay. */
  lemma PlayBad(front: Front, e: Entry, rest: seq<char>, last: int)
    requires 0 <= last <= INT_MAX && -INT_MAX - 1 <= e.ms < last
    ensures PlayRound(front, RecordText(e) + rest, last)
            == Stop(Replayed([], [], if e.ms < 0 then BadNumber else BadDelay))
  {
    hide GetInt, PrintInt, Encode, Find, Decode, DropNuls, Merged, Delay, ValidDelay, RecordText;
    RecordSplits(e, rest);
    if e.ms < 0 {
      NegativeIsRefused(e.ms);
      FieldParses(PrintInt(e.ms), Encode(e.text) + ['\n'] + rest);
    } else {
      HeadParses(PrintInt(e.ms), e.ms, Encode(e.text) + ['\n'] + rest);
      DelayIsExact(e.ms - last);
    }
  }

  lemma {:induction false} PlaysOnlyTimed(front: Front, entries: seq<Entry>, last: int)
    requires 0 <= last <= INT_MAX && forall i :: 0 <= i < |entries| ==> -INT_MAX - 1 <= entries[i].ms <= INT_MAX
    ensures Play(front, Recording(entries), last).end == AtEof ==> Timed(entries, last)
  {
    hide PlayRound, RecordText, Merged, Delay;
    if entries != [] {
      var rest := Recording(entries[1..]);
      if entries[0].ms < last {
        PlayBad(front, entries[0], rest, last);
      } else {
        PlayOne(front, entries[0], rest, last);
        PlaysOnlyTimed(front, entries[1..], entries[0].ms);
      }
    }
  }

  lemma {:induction false} SessionIsInts(start: Timespec, chunks: seq<(Timespec, seq<char>)>)
    ensures forall i :: 0 <= i < |Session(start, chunks)| ==> -INT_MAX - 1 <= Session(start, chunks)[i].ms <= INT_MAX
  {
    if chunks != [] {
      SessionIsInts(start, chunks[1..]);
    }
    hide Millis, ToInt;
  }

  /** The replay comes to its end and lasts, to less than 1 ms, as long as the session. */
  ghost predicate LastsAsLong(r: Replayed, elapsed: int) {
    r.end == AtEof && -1_000_000 < TotalNsec(r.delays) - elapsed < 1_000_000
  }

  /** A recorded session is replayed to its end, in the time it took, exactly when it is shorter
      than 2^31 ms and no chunk begins with an 'n', where that matters; then every pause is valid
      and it shows the merged text. */
  lemma SessionReplaysExactly(front: Front, start: Timespec, chunks: seq<(Timespec, seq<char>)>)
    requires IsTime(start) && Clocked(start, chunks, start) && chunks != []
    ensures var entries := Session(start, chunks); var r := Play(front, Recording(entries), 0);
            var fits := Millis(start, LastTime(chunks)) <= INT_MAX && Defined(front, entries);
            && (LastsAsLong(r, Elapsed(start, LastTime(chunks))) <==> fits)
            && (fits ==> r.output == MergedTextOf(entries))
            && (fits ==> forall i :: 0 <= i < |r.delays| ==> ValidDelay(r.delays[i]))
  {
    AtStart(start);
    hide Play, Recording, Session, Elapsed, Millis, ToInt, Timed, TotalNsec, ValidDelay, MergedTextOf, Delays, Defined;
    var entries, last := Session(start, chunks), LastTime(chunks);
    LastOfSession(start, chunks, start);
    MillisWithinOne(start, last);
    ToIntOf(Millis(start, last));
    if Millis(start, last) <= INT_MAX {
      SessionIsTimed(start, chunks, start);
    }
    SessionIsInts(start, chunks);
    PlaysOnlyTimed(front, entries, 0);
    if Timed(entries, 0) {
      PlayRecording(front, entries, 0);
      PausesAddUp(entries, 0);
    }
  }

  lemma AtStart(start: Timespec)
    ensures Elapsed(start, start) == 0 && Millis(start, start) == 0
  {
  }

  lemma PlayBadFirst(front: Front, e: Entry)
    requires -INT_MAX - 1 <= e.ms < 0
    ensures Play(front, Recording([e]), 0) == Replayed([], [], BadNumber)
  {
    assert Recording([e]) == RecordText(e) + [];
    PlayBad(front, e, [], 0);
    hide PlayRound, RecordText;
  }

  /** The text read after 2^31 ms, which is nearly 25 days, is never replayed. */
  lemma LongSessionIsLost(front: Front, text: seq<char>)
    ensures var now := Timespec(2_147_483, 648_000_000);
            && Millis(Timespec(0, 0), now) == INT_MAX + 1
            && Play(front, Recording(Session(Timespec(0, 0), [(now, text)])), 0) == Replayed([], [], BadNumber)
  {
    var now, e := Timespec(2_147_483, 648_000_000), Entry(-INT_MAX - 1, text);
    assert Session(Timespec(0, 0), [(now, text)]) == [e];
    hide Session, Millis;
    PlayBadFirst(front, e);
  }

  /** One chunk that begins with an 'n': the replayer looks in front of its array. */
  lemma FirstNIsUndefined(text: seq<char>)
    ensures Play(Undefined, Recording([Entry(0, ['n'] + text)]), 0).end == Underrun
  {
    var e := Entry(0, ['n'] + text);
    assert ReadsFront(Undefined, e.text);
    PlayRecording(Undefined, [e], 0);
    assert !Defined(Undefined, [e]) by { assert [e][0] == e; }
  }

  // ---------- the replayer's loop ----------

  lemma {:induction false} FindIs(s: seq<char>, c: char, i: nat)
    requires i <= |s| && c !in s[..i] && (i < |s| ==> s[i] == c)
    ensures Find(s, c) == i
  {
    if i > 0 {
      assert s[0] == s[..i][0];
      assert s[1..][..i - 1] == s[..i][1..];
      FindIs(s[1..], c, i - 1);
    }
  }

  lemma {:induction false} DropNulsGrows(s: seq<char>, i: nat)
    requires i <= |s|
    ensures |DropNuls(s[..i])| <= |DropNuls(s)|
  {
    if i < |s| {
      DropNulsGrows(s[..|s| - 1], i);
      assert s[..|s| - 1][..i] == s[..i];
    } else {
      assert s[..i] == s;
    }
  }

  lemma DecodeNext(text: seq<char>, k: nat)
    requires k < |text|
    ensures Decode(text[..k + 1]) == DecodeStep(Decode(text[..k]), text[k])
  {
    assert text[..k + 1] == text[..k] + [text[k]];
    DecodeAppend([], text[..k], [text[k]]);
    var out := Decode(text[..k]);
    assert DecodeFrom(out, [text[k]]) == DecodeFrom(DecodeStep(out, text[k]), []);
  }

  /** The loop that collects a record's time up to the blank. */
  method ReadTime(rest: seq<char>) returns (ms: seq<char>, blank: nat, overrun: bool)
    ensures overrun <==> |DropNuls(rest[..Followed(rest)])| > 99
    ensures !overrun ==> blank == Find(rest, ' ') && ms == DropNuls(rest[..blank])
  {
    ms, blank := [], 0;
    while blank < |rest| && rest[blank] != ' '
      invariant 0 <= blank <= |rest| && ' ' !in rest[..blank]
      invariant ms == DropNuls(rest[..blank]) && (blank > 0 ==> |DropNuls(rest[..blank - 1])| <= 99)
    {
      if |ms| > 99 {
        LongField(rest, blank);
        return ms, blank, true;
      }
      assert rest[..blank + 1][..blank] == rest[..blank];
      if rest[blank] != '\0' {
        ms := ms + [rest[blank]];
      }
      blank := blank + 1;
    }
    FindIs(rest, ' ', blank);
    return ms, blank, blank < |rest| && |ms| > 99;
  }

  lemma LongField(rest: seq<char>, blank: nat)
    requires blank < |rest| && ' ' !in rest[..blank] && |DropNuls(rest[..blank])| > 99
    ensures |DropNuls(rest[..Followed(rest)])| > 99
  {
    assert forall i :: 0 <= i < blank ==> rest[i] == rest[..blank][i];
    var seen := rest[..Followed(rest)];
    assert seen[..blank] == rest[..blank];
    DropNulsGrows(seen, blank);
  }

  /** The loop that decodes a record's text into a growing array, putting a newline over a
      backslash when an 'n' follows. */
  method ReadText(front: Front, body: seq<char>) returns (text: DynArray<char>, newline: nat, underrun: bool)
    ensures fresh(text) && fresh(text.data) && text.Valid()
    ensures underrun <==> ReadsFront(front, body[..Find(body, '\n')])
    ensures !underrun ==> newline == Find(body, '\n') && text.Contents() == Decode(body[..newline])
  {
    text := new DynArray<char>();
    newline := 0;
    ghost var end := Find(body, '\n');
    assert end > 0 ==> body[..end][0] == body[0];
    while newline < |body| && body[newline] != '\n'
      invariant 0 <= newline <= |body| && '\n' !in body[..newline]
      invariant fresh(text) && fresh(text.data) && text.Valid() && text.Contents() == Decode(body[..newline])
      invariant newline > 0 ==> text.size > 0 && !ReadsFront(front, body[..end])
    {
      var c := body[newline];
      if c == 'n' && text.size == 0 && front.Undefined? {
        FirstIsText(body);
        return text, newline, true;
      }
      DecodeNext(body, newline);
      if c == 'n' && text.size > 0 && text.data[text.size - 1] == '\\' {
        text.Set(text.size - 1, '\n');
      } else {
        text.Push(c);
      }
      newline := newline + 1;
    }
    FindIs(body, '\n', newline);
    return text, newline, false;
  }

  lemma FirstIsText(body: seq<char>)
    requires body != [] && body[0] != '\n'
    ensures Find(body, '\n') > 0
  {
  }

  /** One round of the main loop: the time, the pause, and the text, which is printed. */
  method ReadRecord(front: Front, rest: seq<char>, lastMs: int) returns (r: Round)
    ensures r == PlayRound(front, rest, lastMs)
  {
    hide GetInt, Find, Decode, DropNuls, Delay, ReadsFront;
    var ms, blank, overrun := ReadTime(rest);
    if overrun {
      return Stop(Replayed([], [], Overrun));
    }
    if blank == |rest| {
      return Stop(Replayed([], [], AtEof));
    }
    var current := GetInt(ms);
    if current.None? {
      return Stop(Replayed([], [], BadNumber));
    }
    var ts := Delay(current.value - lastMs);
    if !ValidDelay(ts) {
      return Stop(Replayed([], [], BadDelay));
    }
    var body := rest[blank + 1..];
    var text, newline, underrun := ReadText(front, body);
    if underrun {
      return Stop(Replayed([ts], [], Underrun));
    }
    var printed: seq<char>, i := [], 0;
    while i < text.size
      invariant 0 <= i <= text.size && printed == text.Contents()[..i]
    {
      printed := printed + [text.data[i]];
      i := i + 1;
    }
    if newline == |body| {
      return Stop(Replayed([ts], printed, AtEof));
    }
    return Go(ts, printed, body[newline + 1..], current.value);
  }

  lemma BehindBehind(delays: seq<Timespec>, output: seq<char>, delay: Timespec, text: seq<char>, more: Replayed)
    ensures Behind(delays, output, Behind([delay], text, more)) == Behind(delays + [delay], output + text, more)
  {
    assert delays + ([delay] + more.delays) == delays + [delay] + more.delays;
    assert output + (text + more.output) == output + text + more.output;
  }

  /** The main loop of replay_script.c, which reads the file one character at a time. */
  method Replay(front: Front, file: seq<char>) returns (r: Replayed)
    ensures r == Play(front, file, 0)
  {
    hide PlayRound;
    var rest, lastMs := file, 0;
    r := Replayed([], [], AtEof);
    while true
      invariant Play(front, file, 0) == Behind(r.delays, r.output, Play(front, rest, lastMs))
      decreases |rest|
    {
      var round := ReadRecord(front, rest, lastMs);
      RestShrinks(front, rest, lastMs);
      match round
      case Stop(last) =>
        return Replayed(r.delays + last.delays, r.output + last.output, last.end);
      case Go(delay, text, next, ms) =>
        BehindBehind(r.delays, r.output, delay, text, Play(front, next, ms));
        r := Replayed(r.delays + [delay], r.output + text, AtEof);
        rest, lastMs := next, ms;
    }
  }

  lemma RestShrinks(front: Front, rest: seq<char>, last: int)
    ensures PlayRound(front, rest, last).Go? ==> |PlayRound(front, rest, last).next| < |rest|
  {
  }
}
