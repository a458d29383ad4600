/** C strings: the bytes before the first NUL of a buffer. */
module CString {
  type CByte = b: int | 0 <= b < 256

  const NUL: CByte := 0

  ghost predicate NulFree(data: seq<CByte>) {
    forall i :: 0 <= i < |data| ==> data[i] != NUL
  }

  /** What printf("%s", buf) prints. */
  function CStr(buf: seq<CByte>): (r: seq<CByte>)
    ensures |r| <= |buf| && r == buf[..|r|] && NulFree(r)
    ensures |r| < |buf| ==> buf[|r|] == NUL
  {
    if buf == [] || buf[0] == NUL then [] else [buf[0]] + CStr(buf[1..])
  }

  lemma CStrOfCStr(buf: seq<CByte>)
    ensures CStr(CStr(buf)) == CStr(buf)
  {
    if |CStr(CStr(buf))| < |CStr(buf)| {
      assert false;
    }
  }

  lemma NulFreeAppend(a: seq<CByte>, b: seq<CByte>)
    requires NulFree(a) && NulFree(b)
    ensures NulFree(a + b)
  {
  }

  /** The buffer after writing the bytes and a NUL at its start: read() and buf[n] = 0, or strcpy(). */
  function Store(buf: seq<CByte>, bytes: seq<CByte>): (r: seq<CByte>)
    requires |bytes| < |buf|
    ensures |r| == |buf| && r[..|bytes|] == bytes && r[|bytes|] == NUL
  {
    bytes + [NUL] + buf[|bytes| + 1..]
  }

  /** A stored string ends at its own first NUL; what else the buffer holds does not matter. */
  lemma {:induction false} CStrOfStored(buf: seq<CByte>, bytes: seq<CByte>)
    requires |bytes| < |buf| && buf[..|bytes|] == bytes && buf[|bytes|] == NUL
    ensures CStr(buf) == CStr(bytes)
    ensures NulFree(bytes) ==> CStr(buf) == bytes
  {
    if bytes != [] {
      assert buf[0] == buf[..|bytes|][0];
      if bytes[0] != NUL {
        assert buf[1..][..|bytes| - 1] == buf[..|bytes|][1..];
        CStrOfStored(buf[1..], bytes[1..]);
      }
    }
  }

  /** One NUL, and nothing of what follows is printed. */
  lemma NulCutsOff(rest: seq<CByte>)
    ensures CStr([NUL] + rest) == []
  {
  }

  // ---------- chunk by chunk ----------

  ghost function Join(chunks: seq<seq<CByte>>): seq<CByte> {
    if chunks == [] then [] else Join(chunks[..|chunks| - 1]) + chunks[|chunks| - 1]
  }

  /** What printf("%s", buf) prints of one chunk after the other. */
  ghost function Printed(chunks: seq<seq<CByte>>): seq<CByte> {
    if chunks == [] then [] else Printed(chunks[..|chunks| - 1]) + CStr(chunks[|chunks| - 1])
  }

  lemma OneMore(chunks: seq<seq<CByte>>, chunk: seq<CByte>)
    ensures Join(chunks + [chunk]) == Join(chunks) + chunk
    ensures Printed(chunks + [chunk]) == Printed(chunks) + CStr(chunk)
  {
    assert (chunks + [chunk])[..|chunks|] == chunks;
  }

  /** The n bytes of the input behind those of the chunks. */
  ghost function NextChunk(input: seq<CByte>, chunks: seq<seq<CByte>>, n: nat): seq<CByte> {
    var from := |Join(chunks)|;
    if from + n <= |input| then input[from..from + n] else []
  }

  /** Three bytes with a NUL between two others, in one chunk: the last one is not printed. */
  lemma BehindANul(a: CByte, b: CByte)
    requires a != NUL
    ensures Printed([[a, NUL, b]]) == [a]
  {
    assert [a, NUL, b][1..] == [NUL, b];
    OneMore([], [a, NUL, b]);
    assert [] + [[a, NUL, b]] == [[a, NUL, b]];
  }
}
