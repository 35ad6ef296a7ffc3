/**
 * main.rs, run_bash_pty_with_task: the loop that forwards the output of a bash task, batches it into
 * logs and keeps its beginning for evaluation. Output is a sequence of bytes, so every cut is legal.
 */
module BashOutput {
  import opened Basics

  type Bytes = seq<bv8>

  const MAX_ACCUMULATED: nat := 8192
  const U32: nat := 0x1_0000_0000

  /** The number n as a u32 counter shows it. */
  function Wrapped(n: nat): nat {
    n % U32
  }

  function NextU32(n: nat): nat {
    (n + 1) % U32
  }

  lemma NextIndex(n: nat)
    ensures NextU32(Wrapped(n)) == Wrapped(n + 1)
  {
    var q, r := n / U32, n % U32;
    assert n == q * U32 + r;
    if r + 1 == U32 { assert n + 1 == (q + 1) * U32; } else { assert n + 1 == q * U32 + (r + 1); }
  }

  /** A chunk as streamed, with its index. */
  datatype Delta = Delta(index: nat, bytes: Bytes)

  /** Every chunk in order, numbered from 0. */
  function Streamed(chunks: seq<Bytes>): (ds: seq<Delta>)
    ensures |ds| == |chunks| && forall i :: 0 <= i < |ds| ==> ds[i] == Delta(Wrapped(i), chunks[i])
  {
    seq(|chunks|, i requires 0 <= i < |chunks| => Delta(Wrapped(i), chunks[i]))
  }

  lemma StreamedAppend(chunks: seq<Bytes>, chunk: Bytes)
    ensures Streamed(chunks + [chunk]) == Streamed(chunks) + [Delta(Wrapped(|chunks|), chunk)]
  {
  }

  function Concat(chunks: seq<Bytes>): Bytes {
    if chunks == [] then [] else Concat(Front(chunks)) + Last(chunks)
  }

  function Beginning(output: Bytes): Bytes {
    if |output| <= MAX_ACCUMULATED then output else output[..MAX_ACCUMULATED]
  }

  lemma ConcatAppend(chunks: seq<Bytes>, chunk: Bytes)
    ensures Concat(chunks + [chunk]) == Concat(chunks) + chunk
  {
    assert Front(chunks + [chunk]) == chunks;
  }

  /** The bytes of all chunks, one after the other: a chunk alone is itself, and nothing comes between. */
  lemma {:induction false} ConcatJoins(a: seq<Bytes>, b: seq<Bytes>)
    ensures Concat(a + b) == Concat(a) + Concat(b)
    ensures |a| == 1 ==> Concat(a) == a[0]
  {
    if b == [] {
      assert a + b == a;
    } else {
      assert (a + b)[..|a + b| - 1] == a + Front(b);
      ConcatJoins(a, Front(b));
    }
    if |a| == 1 { assert a[..0] == [] && Concat(a[..0]) == []; }
  }

  method Accumulate(kept: Bytes, text: Bytes, ghost output: Bytes) returns (accumulated: Bytes)
    requires kept == Beginning(output)
    ensures accumulated == Beginning(output + text)
  {
    BeginningAppend(output, text);
    hide Beginning;
    accumulated := kept;
    if |accumulated| < MAX_ACCUMULATED {
      var remaining := MAX_ACCUMULATED - |accumulated|;
      if |text| <= remaining {
        accumulated := accumulated + text;
      } else {
        accumulated := accumulated + text[..remaining];
      }
    }
  }

  method BufferLog(written: seq<Bytes>, buffered: Bytes, text: Bytes, due: bool)
    returns (logs: seq<Bytes>, logBuffer: Bytes)
    ensures Concat(logs) + logBuffer == Concat(written) + buffered + text
    ensures |logs| <= |written| + 1
  {
    logs, logBuffer := written, buffered + text;
    assert Concat(written) + buffered + text == Concat(written) + (buffered + text);
    if due {
      ConcatAppend(logs, logBuffer);
      logs := logs + [logBuffer];
      logBuffer := [];
    }
  }

  /** `due[i]` tells whether the flush interval has passed when chunk i has been buffered. For any
      chunks and any timing the logs hold the whole output, the streams every chunk in order, and the
      preview its first 8192 bytes. */
  method Collect(chunks: seq<Bytes>, due: seq<bool>, hasTask: bool)
    returns (dashboard: seq<Delta>, room: seq<Delta>, logs: seq<Bytes>, accumulated: Bytes)
    requires |due| == |chunks|
    ensures |dashboard| == |chunks|
    ensures forall i :: 0 <= i < |chunks| ==> dashboard[i] == Delta(i % 0x1_0000_0000, chunks[i])
    ensures room == if hasTask then dashboard else []
    ensures Concat(logs) == if hasTask then Concat(chunks) else []
    ensures |logs| <= |chunks| + 1
    ensures accumulated <= Concat(chunks)
    ensures |accumulated| == if |Concat(chunks)| <= 8192 then |Concat(chunks)| else 8192
  {
    var chunkIndex, logBuffer: Bytes := 0, [];
    dashboard, room, logs, accumulated := [], [], [], [];
    for i := 0 to |chunks|
      invariant chunkIndex == Wrapped(i)
      invariant dashboard == Streamed(chunks[..i])
      invariant room == if hasTask then dashboard else []
      invariant Concat(logs) + logBuffer == if hasTask then Concat(chunks[..i]) else []
      invariant |logs| <= i
      invariant accumulated == Beginning(Concat(chunks[..i]))
    {
      var text := chunks[i];
      assert chunks[..i + 1] == chunks[..i] + [text];
      ConcatAppend(chunks[..i], text);
      StreamedAppend(chunks[..i], text);
      hide Concat, Beginning, NextU32, Wrapped, Streamed;
      dashboard := dashboard + [Delta(chunkIndex, text)];
      if hasTask {
        room := room + [Delta(chunkIndex, text)];
      }
      accumulated := Accumulate(accumulated, text, Concat(chunks[..i]));
      if hasTask {
        logs, logBuffer := BufferLog(logs, logBuffer, text, due[i]);
      }
      NextIndex(i);
      chunkIndex := NextU32(chunkIndex);
    }
    assert chunks[..|chunks|] == chunks;
    if hasTask && logBuffer != [] {
      ConcatAppend(logs, logBuffer);
      logs := logs + [logBuffer];
    }
  }

  /** Appending to the kept beginning and cutting again is cutting the whole. */
  lemma BeginningAppend(output: Bytes, text: Bytes)
    ensures var kept := Beginning(output);
            && |kept| <= MAX_ACCUMULATED
            && (|kept| == MAX_ACCUMULATED ==> Beginning(output + text) == kept)
            && (|kept| < MAX_ACCUMULATED ==>
              Beginning(output + text) ==
              if |text| <= MAX_ACCUMULATED - |kept| then kept + text else kept + text[..MAX_ACCUMULATED - |kept|])
  {
    if |output| > MAX_ACCUMULATED {
      assert (output + text)[..MAX_ACCUMULATED] == output[..MAX_ACCUMULATED];
    } else if |output| == MAX_ACCUMULATED {
      assert output[..MAX_ACCUMULATED] == output;
      assert (output + text)[..MAX_ACCUMULATED] == output;
      if text == [] { assert output + text == output; }
    } else if |text| > MAX_ACCUMULATED - |output| {
      assert (output + text)[..MAX_ACCUMULATED] == output + text[..MAX_ACCUMULATED - |output|];
    }
  }
}
