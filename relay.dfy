/**
 * doHandleData(src, dst): one direction of a relayed session.
 *
 * Before each read the loop renews src's 30-second read deadline, reads up to
 * 1024 bytes into a buffer it reuses, writes whatever it read to dst before it
 * looks at the read's error, and stops at the first read error or the first
 * write failure. dst is closed once when the loop exits (a deferred Close).
 *
 * The source is a script of read results. Once the script is used up the
 * source says nothing more, so the deadline expires: that read returns no bytes
 * and an error. The destination accepts writes until its `failFrom`-th write
 * call; that call and every later one fail and deliver nothing.
 */
module Relay {
  import opened Bytes

  const BufSize := 1024

  /** One result of src.Read: the bytes it returned, and whether it also returned an error. */
  datatype ReadResult = ReadResult(bytes: seq<byte>, failed: bool)

  datatype Stop = ReadFailed | WriteFailed

  /**
   * One run of the loop: what reached dst, how many read and write calls it
   * made, why it stopped, and the scripted reads it left untaken.
   */
  datatype Trace = Trace(output: seq<byte>, readCalls: nat, writeCalls: nat, stop: Stop, left: seq<ReadResult>)

  /** Whether dst's write call number `w` (counting from 0) succeeds. */
  predicate WriteOk(failFrom: Option<nat>, w: nat)
  {
    failFrom.None? || w < failFrom.value
  }

  /** What the next src.Read returns: the next scripted result, or, past the script, the expired deadline. */
  function NextRead(script: seq<ReadResult>): ReadResult
  {
    if script == [] then ReadResult([], true) else script[0]
  }

  /** The script once the next read has been taken. */
  function Rest(script: seq<ReadResult>): seq<ReadResult>
  {
    if script == [] then [] else script[1..]
  }

  /** What is left of the script after `k` reads. */
  function After(script: seq<ReadResult>, k: nat): seq<ReadResult>
  {
    if k >= |script| then [] else script[k..]
  }

  /** The loop over the scripted reads, with `w` write calls already made on dst. */
  function Run(script: seq<ReadResult>, failFrom: Option<nat>, w: nat): (t: Trace)
    ensures 1 <= t.readCalls <= |script| + 1 && t.writeCalls <= t.readCalls
    decreases |script|
  {
    var r := NextRead(script);
    if |r.bytes| > 0 && !WriteOk(failFrom, w) then Trace([], 1, 1, WriteFailed, Rest(script))
    else
      var wrote := if |r.bytes| > 0 then 1 else 0;
      if r.failed then Trace(r.bytes, 1, wrote, ReadFailed, Rest(script))
      else
        var rest := Run(script[1..], failFrom, w + wrote);
        Trace(r.bytes + rest.output, 1 + rest.readCalls, wrote + rest.writeCalls, rest.stop, rest.left)
  }

  /** The reads the loop leaves untaken are the script after the reads it made. */
  lemma {:induction false} RunLeaves(script: seq<ReadResult>, failFrom: Option<nat>, w: nat)
    ensures var t := Run(script, failFrom, w); t.left == After(script, t.readCalls)
    decreases |script|
  {
    var r := NextRead(script);
    if !(|r.bytes| > 0 && !WriteOk(failFrom, w)) && !r.failed {
      var wrote := if |r.bytes| > 0 then 1 else 0;
      RunLeaves(script[1..], failFrom, w + wrote);
      var k := Run(script[1..], failFrom, w + wrote).readCalls;
      if k < |script[1..]| {
        assert script[1..][k..] == script[1 + k..];
      }
    }
  }

  // ---------------------------------------------------------------------------
  // An independent description of what reaches dst.

  /** The non-empty chunks returned by the reads up to and including the first read that failed. */
  function Delivered(script: seq<ReadResult>): seq<seq<byte>>
  {
    if script == [] then []
    else
      var head := if |script[0].bytes| > 0 then [script[0].bytes] else [];
      if script[0].failed then head else head + Delivered(script[1..])
  }

  function Flatten(chunks: seq<seq<byte>>): seq<byte>
  {
    if chunks == [] then [] else chunks[0] + Flatten(chunks[1..])
  }

  lemma FlattenCons(c: seq<byte>, d: seq<seq<byte>>, k: nat)
    requires k <= |d|
    ensures Flatten(([c] + d)[..1 + k]) == c + Flatten(d[..k])
  {
    assert ([c] + d)[..1 + k] == [c] + d[..k];
    assert ([c] + d[..k])[1..] == d[..k];
  }

  /** How many of `k` write calls succeed when `w` calls have already been made. */
  function Allowed(failFrom: Option<nat>, w: nat, k: nat): nat
  {
    match failFrom
    case None => k
    case Some(m) => if m <= w then 0 else Min(k, m - w)
  }

  /** How many reads it takes to reach the first read error (the expired deadline if none is scripted). */
  function ReadsUntilError(script: seq<ReadResult>): nat
  {
    if script == [] || script[0].failed then 1 else 1 + ReadsUntilError(script[1..])
  }

  /** How many reads it takes to return the non-empty chunk with index `k` (counting from 0). */
  function ReadsToChunk(script: seq<ReadResult>, k: nat): nat
  {
    if script == [] then 1
    else if |script[0].bytes| > 0 then (if k == 0 then 1 else 1 + ReadsToChunk(script[1..], k - 1))
    else 1 + ReadsToChunk(script[1..], k)
  }

  /**
   * dst receives the delivered chunks, in order, up to the first failed write:
   * a chunk returned together with a read error is still written, empty reads
   * cause no write, and the loop stops at the first failure of either kind: at
   * the read that failed, or at the read whose chunk could not be written.
   */
  lemma {:induction false} RunDelivers(script: seq<ReadResult>, failFrom: Option<nat>, w: nat)
    ensures var d := Delivered(script); var ok := Allowed(failFrom, w, |d|); var t := Run(script, failFrom, w);
      && ok <= |d|
      && t.output == Flatten(d[..ok])
      && t.stop == (if ok < |d| then WriteFailed else ReadFailed)
      && t.writeCalls == (if ok < |d| then ok + 1 else |d|)
    decreases |script|
  {
    if script != [] {
      var r := script[0];
      var d := Delivered(script);
      if |r.bytes| > 0 && !WriteOk(failFrom, w) {
        assert d[..0] == [];
      } else if r.failed {
        if |r.bytes| > 0 {
          assert d[..1] == [r.bytes];
        } else {
          assert d[..0] == [];
        }
      } else {
        var wrote := if |r.bytes| > 0 then 1 else 0;
        RunDelivers(script[1..], failFrom, w + wrote);
        var d' := Delivered(script[1..]);
        var ok' := Allowed(failFrom, w + wrote, |d'|);
        if |r.bytes| > 0 {
          assert d == [r.bytes] + d';
          assert Allowed(failFrom, w, |d|) == 1 + ok';
          FlattenCons(r.bytes, d', ok');
        } else {
          assert d == d';
        }
      }
    }
  }

  /**
   * The loop reads up to the first failure and no further: up to the first
   * failed read, or up to the read whose chunk could not be written.
   */
  lemma {:induction false} RunReads(script: seq<ReadResult>, failFrom: Option<nat>, w: nat)
    ensures var d := Delivered(script); var ok := Allowed(failFrom, w, |d|); var t := Run(script, failFrom, w);
      && t.readCalls <= ReadsUntilError(script)
      && (t.stop == ReadFailed ==> t.readCalls == ReadsUntilError(script))
      && (t.stop == WriteFailed ==> t.readCalls == ReadsToChunk(script, ok))
    decreases |script|
  {
    if script != [] {
      var r := script[0];
      if !(|r.bytes| > 0 && !WriteOk(failFrom, w)) && !r.failed {
        var wrote := if |r.bytes| > 0 then 1 else 0;
        RunReads(script[1..], failFrom, w + wrote);
        var d := Delivered(script);
        var d' := Delivered(script[1..]);
        if |r.bytes| > 0 {
          assert d == [r.bytes] + d';
          assert Allowed(failFrom, w, |d|) == 1 + Allowed(failFrom, w + wrote, |d'|);
        } else {
          assert d == d';
        }
      }
    }
  }

  /** The source connection: the results its reads will return, in order, and the calls counted on it. */
  class Source {
    var script: seq<ReadResult>
    var deadlines: nat
    var readCalls: nat

    /** src.Read never returns more bytes than the buffer holds. */
    predicate Valid()
      reads this
    {
      forall i | 0 <= i < |script| :: |script[i].bytes| <= BufSize
    }

    constructor (script: seq<ReadResult>)
      requires forall i | 0 <= i < |script| :: |script[i].bytes| <= BufSize
      ensures Valid() && this.script == script && deadlines == 0 && readCalls == 0
    {
      this.script := script;
      deadlines, readCalls := 0, 0;
    }

    /** src.SetReadDeadline(time.Now().Add(30 * time.Second)), counted. */
    method SetReadDeadline()
      modifies this`deadlines
      ensures deadlines == old(deadlines) + 1
    {
      deadlines := deadlines + 1;
    }

    /** src.Read(buf): the next scripted result; past the script, the deadline expires with nothing read. */
    method Read(buf: array<byte>) returns (n: nat, failed: bool)
      requires Valid() && buf.Length == BufSize
      modifies this`script, this`readCalls, buf
      ensures Valid() && readCalls == old(readCalls) + 1
      ensures script == Rest(old(script))
      ensures n == |NextRead(old(script)).bytes| && buf[..n] == NextRead(old(script)).bytes
      ensures failed == NextRead(old(script)).failed
    {
      readCalls := readCalls + 1;
      var r := NextRead(script);
      n, failed := |r.bytes|, r.failed;
      var j := 0;
      while j < n
        invariant 0 <= j <= n && buf[..j] == r.bytes[..j]
        modifies buf
      {
        buf[j] := r.bytes[j];
        j := j + 1;
      }
      if script != [] {
        script := script[1..];
      }
    }
  }

  /** The destination connection: what it has received, and the calls counted on it. */
  class Sink {
    var output: seq<byte>
    var writeCalls: nat
    var closes: nat
    const failFrom: Option<nat>

    constructor (failFrom: Option<nat>)
      ensures output == [] && writeCalls == 0 && closes == 0 && this.failFrom == failFrom
    {
      this.failFrom := failFrom;
      output, writeCalls, closes := [], 0, 0;
    }

    /** dst.Write(b): the whole of `b`, or an error and nothing. */
    method Write(b: seq<byte>) returns (ok: bool)
      modifies this`output, this`writeCalls
      ensures ok == WriteOk(failFrom, old(writeCalls)) && writeCalls == old(writeCalls) + 1
      ensures output == if ok then old(output) + b else old(output)
    {
      ok := WriteOk(failFrom, writeCalls);
      writeCalls := writeCalls + 1;
      if ok {
        output := output + b;
      }
    }

    /** dst.Close(), counted. */
    method Close()
      modifies this`closes
      ensures closes == old(closes) + 1
    {
      closes := closes + 1;
    }
  }

  /**
   * One pass of doHandleData's loop body: renew the deadline, read, write what
   * was read. `running` says whether the loop goes on; the loop's remaining
   * trace is then the trace of the rest of the script.
   */
  method Pass(src: Source, dst: Sink, buf: array<byte>) returns (running: bool, ghost delivered: seq<byte>, ghost wrote: nat)
    requires src.Valid() && buf.Length == BufSize
    modifies src, dst, buf
    ensures src.Valid() && dst.closes == old(dst.closes)
    ensures src.readCalls == old(src.readCalls) + 1 && src.deadlines == old(src.deadlines) + 1
    ensures dst.output == old(dst.output) + delivered && dst.writeCalls == old(dst.writeCalls) + wrote
    ensures running ==> src.script == Rest(old(src.script))
    ensures var t := Run(old(src.script), dst.failFrom, old(dst.writeCalls));
      if running then
        var rest := Run(src.script, dst.failFrom, dst.writeCalls);
        t == Trace(delivered + rest.output, 1 + rest.readCalls, wrote + rest.writeCalls, rest.stop, rest.left)
      else
        t.output == delivered && t.readCalls == 1 && t.writeCalls == wrote && t.left == src.script
  {
    src.SetReadDeadline();
    var n, failed := src.Read(buf);
    running, delivered, wrote := true, [], 0;
    if n > 0 {
      var ok := dst.Write(buf[..n]);
      wrote := 1;
      if !ok {
        running := false;
      } else {
        delivered := buf[..n];
      }
    }
    if running && failed {
      running := false;
    }
  }

  /** doHandleData's loop, on the buffer it reuses. */
  method Loop(src: Source, dst: Sink, buf: array<byte>)
    requires src.Valid() && buf.Length == BufSize
    modifies src, dst, buf
    ensures var t := Run(old(src.script), dst.failFrom, old(dst.writeCalls));
      && dst.output == old(dst.output) + t.output
      && dst.writeCalls == old(dst.writeCalls) + t.writeCalls
      && src.readCalls == old(src.readCalls) + t.readCalls
      && src.deadlines == old(src.deadlines) + t.readCalls
      && src.script == t.left
      && dst.closes == old(dst.closes)
  {
    ghost var all := Run(src.script, dst.failFrom, dst.writeCalls);
    ghost var pending := all;
    ghost var produced: seq<byte> := [];
    ghost var k, wk := 0, 0;
    var running := true;
    while running
      invariant src.Valid() && dst.closes == old(dst.closes)
      invariant src.readCalls == old(src.readCalls) + k && src.deadlines == old(src.deadlines) + k
      invariant dst.writeCalls == old(dst.writeCalls) + wk && dst.output == old(dst.output) + produced
      invariant all.output == produced + pending.output
      invariant all.readCalls == k + pending.readCalls && all.writeCalls == wk + pending.writeCalls
      invariant running ==> pending == Run(src.script, dst.failFrom, dst.writeCalls)
      invariant all.left == pending.left
      invariant !running ==> pending.output == [] && pending.readCalls == 0 && pending.writeCalls == 0
      invariant !running ==> pending.left == src.script
      decreases if running then |src.script| + 1 else 0
    {
      ghost var delivered, wrote;
      running, delivered, wrote := Pass(src, dst, buf);
      produced, k, wk := produced + delivered, k + 1, wk + wrote;
      if running {
        pending := Run(src.script, dst.failFrom, dst.writeCalls);
      } else {
        pending := Trace([], 0, 0, pending.stop, pending.left);
      }
    }
  }

  /**
   * doHandleData(src, dst). What reaches dst and how many calls are made are
   * those of `Run`; the deadline is set once per read, the source is left with
   * the reads not taken, and dst is closed once.
   */
  method HandleData(src: Source, dst: Sink)
    requires src.Valid()
    modifies src, dst
    ensures var t := Run(old(src.script), dst.failFrom, old(dst.writeCalls));
      && dst.output == old(dst.output) + t.output
      && dst.writeCalls == old(dst.writeCalls) + t.writeCalls
      && src.readCalls == old(src.readCalls) + t.readCalls
      && src.deadlines == old(src.deadlines) + t.readCalls
      && src.script == After(old(src.script), t.readCalls)
      && dst.closes == old(dst.closes) + 1
  {
    var buf := new byte[BufSize];
    RunLeaves(src.script, dst.failFrom, dst.writeCalls);
    Loop(src, dst, buf);
    dst.Close();
  }
}
