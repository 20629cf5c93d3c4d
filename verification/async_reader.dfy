/** The background reader of `run_async`: a thread that reads the child's
    output line by line and puts every line on a queue, up to and including
    the empty string that marks the end of the stream. Only its sequential
    loop is modelled; the stream and the queue are the two objects it works
    on. */
module AsyncReading {

  /** A text stream read with `readline`: `pending` holds the results the
      next calls return, in order; once they are used up, every call returns
      the empty string, as a stream at its end does. */
  class TextStream {
    var pending: seq<string>

    constructor (results: seq<string>)
      ensures pending == results
    {
      pending := results;
    }

    /** `readline`: the next result, or "" at the end of the stream. */
    method ReadLine() returns (line: string)
      modifies this
      ensures old(pending) == [] ==> line == "" && pending == []
      ensures old(pending) != [] ==> line == old(pending)[0] && pending == old(pending)[1..]
    {
      if pending == [] {
        line := "";
      } else {
        line := pending[0];
        pending := pending[1..];
      }
    }
  }

  /** The unbounded FIFO queue the reader fills (`queue.Queue`). */
  class LineQueue {
    var items: seq<string>

    constructor ()
      ensures items == []
    {
      items := [];
    }

    /** `put`: appends one item at the back. */
    method Put(x: string)
      modifies this
      ensures items == old(items) + [x]
    {
      items := items + [x];
    }
  }

  /** The readline results the reader consumes from a stream with pending
      results `results`: each of them up to and including the first empty
      one, or all of them followed by the "" of the exhausted stream. */
  function Consumed(results: seq<string>): (r: seq<string>)
    ensures |r| > 0 && r[|r| - 1] == ""
    ensures |r| <= |results| + 1
  {
    if results == [] then [""]
    else if results[0] == "" then [""]
    else [results[0]] + Consumed(results[1..])
  }

  /** The last consumed result is the only empty one: the reader stops at
      the first "" it reads. */
  lemma {:induction false} OnlyLastConsumedIsEmpty(results: seq<string>)
    ensures forall i :: 0 <= i < |Consumed(results)| - 1 ==> Consumed(results)[i] != ""
  {
    if results != [] && results[0] != "" {
      OnlyLastConsumedIsEmpty(results[1..]);
      var r := Consumed(results);
      forall i | 0 <= i < |r| - 1
        ensures r[i] != ""
      {
        if i > 0 {
          assert r[i] == Consumed(results[1..])[i - 1];
        }
      }
    }
  }

  /** What is left on the stream once the reader stops. */
  function Unread(results: seq<string>): seq<string>
  {
    if results == [] then []
    else if results[0] == "" then results[1..]
    else Unread(results[1..])
  }

  /** What is left on the stream is a suffix of its results, and something
      is left only when the reader met an empty result. */
  lemma {:induction false} UnreadIsSuffix(results: seq<string>)
    ensures |Unread(results)| <= |results|
    ensures Unread(results) == results[|results| - |Unread(results)|..]
    ensures Unread(results) != [] ==> "" in results
  {
    if results != [] && results[0] != "" {
      UnreadIsSuffix(results[1..]);
      assert results[1..][|results| - 1 - |Unread(results)|..]
          == results[|results| - |Unread(results)|..];
    }
  }

  /** The reader never reads past the first empty result: what it consumes
      followed by what is left is the stream itself; without an empty result
      it consumes everything and then the "" of the exhausted stream. */
  lemma {:induction false} ConsumedThenUnread(results: seq<string>)
    ensures "" in results ==> Consumed(results) + Unread(results) == results
    ensures "" !in results ==> Consumed(results) == results + [""] && Unread(results) == []
  {
    if results != [] && results[0] != "" {
      ConsumedThenUnread(results[1..]);
      assert results == [results[0]] + results[1..];
    }
  }

  /** The consumed results are the stream's results up to and including
      position `k` of its first empty result. */
  lemma {:induction false} ConsumedUpToFirstEmpty(results: seq<string>, k: nat)
    requires k < |results| && results[k] == ""
    requires forall i :: 0 <= i < k ==> results[i] != ""
    ensures Consumed(results) == results[..k + 1]
    ensures Unread(results) == results[k + 1..]
  {
    if k > 0 {
      ConsumedUpToFirstEmpty(results[1..], k - 1);
      assert results[1..][..k] == results[1..k + 1];
      assert results[..k + 1] == [results[0]] + results[1..k + 1];
      assert results[1..][k..] == results[k + 1..];
    }
  }

  /** One `readline` step: an empty result ends the reading, any other is
      consumed and the reading goes on with the rest. */
  lemma ReadStep(results: seq<string>)
    ensures results == [] ==> Consumed(results) == [""] && Unread(results) == []
    ensures results != [] && results[0] == "" ==>
              Consumed(results) == [""] && Unread(results) == results[1..]
    ensures results != [] && results[0] != "" ==>
              Consumed(results) == [results[0]] + Consumed(results[1..])
              && Unread(results) == Unread(results[1..])
  {
  }

  /** The reader thread, holding the stream it reads (`fil`) and the queue it
      fills (`q`). */
  class AsyncReader {
    const fil: TextStream
    const q: LineQueue

    constructor (fil: TextStream, q: LineQueue)
      ensures this.fil == fil && this.q == q
    {
      this.fil := fil;
      this.q := q;
    }

    /** `run`: reads line after line and puts each on the queue, stopping
        right after the first empty line has been put. */
    method Run()
      modifies fil, q
      ensures q.items == old(q.items) + Consumed(old(fil.pending))
      ensures fil.pending == Unread(old(fil.pending))
    {
      ghost var start, queued := fil.pending, q.items;
      ghost var read: seq<string> := [];
      var output := "empty";
      while output != ""
        invariant q.items == queued + read
        invariant output != "" ==>
                    read + Consumed(fil.pending) == Consumed(start)
                    && Unread(fil.pending) == Unread(start)
        invariant output == "" ==> read == Consumed(start) && fil.pending == Unread(start)
        decreases if output != "" then |fil.pending| + 1 else 0
      {
        ReadStep(fil.pending);
        output := fil.ReadLine();
        q.Put(output);
        read := read + [output];
      }
    }
  }

  /** A real text stream yields non-empty lines until its end: the reader
      then queues all of them, in order, followed by one "", and leaves the
      stream exhausted. */
  lemma TextStreamFullyQueued(lines: seq<string>)
    requires forall i :: 0 <= i < |lines| ==> lines[i] != ""
    ensures Consumed(lines) == lines + [""]
    ensures Unread(lines) == []
  {
    ConsumedThenUnread(lines);
  }
}
