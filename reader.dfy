/** `PtyReader` of src-rust/src/lib.rs: the non-blocking read state machine
    over a session's read channel, with a latched `done` flag. */
module Reader {
  import opened Messages

  /** What one read returns and the reader's state after it. */
  datatype ReadResult = ReadResult(reply: Message, done: bool, queue: seq<Message>)

  /** The specification of one non-blocking read, given the latched flag,
      the messages pending on the channel, and the late batch that reaches
      the channel during the pause that follows an `End`. Once `done` is set
      the channel is never touched again. Without an `End` the whole batch is
      handed out as one `Data`, possibly empty. With an `End` the flag latches
      and the data of both batches is handed out, unless there is none, in
      which case the read reports `End`. */
  function ReadSpec(done: bool, queue: seq<Message>, late: seq<Message>): ReadResult {
    if done then ReadResult(End, true, queue)
    else if End !in queue then ReadResult(Data(Payload(queue)), false, [])
    else if HasData(queue + late) then ReadResult(Data(Payload(queue + late)), true, [])
    else ReadResult(End, true, [])
  }

  class PtyReader {
    /** The messages pending on the read channel `rx_read`, oldest first. */
    var queue: seq<Message>
    /** The latched end flag (`done: Cell<bool>`). */
    var done: bool

    /** `PtyReader::new`: the flag starts cleared; the channel may already
        hold messages sent by the threads spawned before the reader exists. */
    constructor (pending: seq<Message>)
      ensures queue == pending && !done
    {
      queue := pending;
      done := false;
    }

    /** A send on the read channel by one of the background threads. */
    method Deliver(m: Message)
      modifies this
      ensures queue == old(queue) + [m] && done == old(done)
    {
      queue := queue + [m];
    }

    /** `PtyReader::read`; `late` stands for the messages the second
        `try_iter` finds after the 100 ms pause, which only happens once an
        `End` has been drained. */
    method Read(late: seq<Message>) returns (m: Message)
      modifies this
      ensures ReadResult(m, done, queue) == ReadSpec(old(done), old(queue), late)
    {
      if done {
        return End;
      }
      var msgs := queue;
      queue := [];
      if End in msgs {
        done := true;
        msgs := msgs + late;
        var kept := Retain(msgs);
        DropEndsKeepsData(msgs);
        msgs := kept;
        if msgs == [] {
          return End;
        }
      }
      if msgs == [] {
        return Data("");
      }
      var combined := Join(msgs);
      m := Data(combined);
    }
  }

  /** Once the flag is set a read reports `End` and changes nothing. */
  lemma ReadWhenDone(queue: seq<Message>, late: seq<Message>)
    ensures ReadSpec(true, queue, late) == ReadResult(End, true, queue)
  {
  }

  /** An empty channel without an end signal gives the empty `Data`, which is
      distinct from `End`, and the flag stays cleared. */
  lemma NothingYet(late: seq<Message>)
    ensures ReadSpec(false, [], late) == ReadResult(Data(""), false, [])
  {
  }

  /** Draining an `End` latches the flag and empties the channel. */
  lemma EndLatches(done: bool, queue: seq<Message>, late: seq<Message>)
    requires End in queue
    ensures ReadSpec(done, queue, late).done
    ensures !done ==> ReadSpec(done, queue, late).queue == []
  {
  }

  /** A read reports `End` only from a latched flag, or when an `End` was
      drained and neither batch held any data; otherwise it hands out the
      data, so no pending output is swallowed by the end signal. */
  lemma ReadEndIff(queue: seq<Message>, late: seq<Message>)
    ensures ReadSpec(false, queue, late).reply == End
        <==> End in queue && !HasData(queue) && !HasData(late)
  {
    HasDataAppend(queue, late);
  }

  /** The payload of a `Data` reply is the concatenation of the payloads of
      the drained batch followed, when an `End` was drained, by those of the
      late batch. */
  lemma ReadPayload(queue: seq<Message>, late: seq<Message>)
    requires ReadSpec(false, queue, late).reply.Data?
    ensures ReadSpec(false, queue, late).reply.text
         == Payload(queue) + (if End in queue then Payload(late) else "")
  {
    if End in queue {
      PayloadAppend(queue, late);
    }
  }

  /** One step of a caller's polling: messages that arrive on the channel,
      then a read with its late batch. */
  datatype Poll = Poll(arrivals: seq<Message>, late: seq<Message>)

  /** The replies a sequence of polls obtains. */
  function Replies(done: bool, queue: seq<Message>, polls: seq<Poll>): (rs: seq<Message>)
    ensures |rs| == |polls|
    decreases |polls|
  {
    if polls == [] then []
    else
      var r := ReadSpec(done, queue + polls[0].arrivals, polls[0].late);
      [r.reply] + Replies(r.done, r.queue, polls[1..])
  }

  /** The messages a sequence of polls takes off the channel: every batch up
      to and including the first one that holds an `End`, with that poll's
      late batch. */
  function Consumed(done: bool, queue: seq<Message>, polls: seq<Poll>): seq<Message>
    decreases |polls|
  {
    if done || polls == [] then []
    else
      var q := queue + polls[0].arrivals;
      if End in q then q + polls[0].late
      else q + Consumed(false, [], polls[1..])
  }

  /** `End` is sticky: once the flag is set, every later read reports `End`. */
  lemma {:induction false} LatchedRepliesEnd(queue: seq<Message>, polls: seq<Poll>)
    ensures forall i :: 0 <= i < |polls| ==> Replies(true, queue, polls)[i] == End
    decreases |polls|
  {
    if polls != [] {
      var q := queue + polls[0].arrivals;
      LatchedRepliesEnd(q, polls[1..]);
      var rs := Replies(true, queue, polls);
      assert rs == [End] + Replies(true, q, polls[1..]);
      forall i | 0 <= i < |polls| ensures rs[i] == End {
        if i > 0 { assert rs[i] == Replies(true, q, polls[1..])[i - 1]; }
      }
    }
  }

  /** After a poll whose drained batch holds an `End`, all later polls
      report `End`. */
  lemma EndIsFinal(done: bool, queue: seq<Message>, polls: seq<Poll>)
    requires |polls| > 0 && End in queue + polls[0].arrivals
    ensures forall i :: 1 <= i < |polls| ==> Replies(done, queue, polls)[i] == End
  {
    var r := ReadSpec(done, queue + polls[0].arrivals, polls[0].late);
    LatchedRepliesEnd(r.queue, polls[1..]);
    var rs := Replies(done, queue, polls);
    assert rs == [r.reply] + Replies(true, r.queue, polls[1..]);
    forall i | 1 <= i < |polls| ensures rs[i] == End {
      assert rs[i] == Replies(true, r.queue, polls[1..])[i - 1];
    }
  }

  lemma AllEndNoPayload(rs: seq<Message>)
    requires forall i :: 0 <= i < |rs| ==> rs[i] == End
    ensures Payload(rs) == ""
  {
    NoDataNoPayload(rs);
  }

  /** No output is lost or reordered: the data handed out by a sequence of
      polls is exactly the data of the messages they take off the channel. */
  lemma {:induction false} NoOutputLost(done: bool, queue: seq<Message>, polls: seq<Poll>)
    ensures Payload(Replies(done, queue, polls)) == Payload(Consumed(done, queue, polls))
    decreases |polls|
  {
    if polls == [] {
    } else if done {
      LatchedRepliesEnd(queue, polls);
      AllEndNoPayload(Replies(done, queue, polls));
    } else {
      var q := queue + polls[0].arrivals;
      var late := polls[0].late;
      var r := ReadSpec(false, q, late);
      var rest := Replies(r.done, r.queue, polls[1..]);
      assert Replies(done, queue, polls) == [r.reply] + rest;
      PayloadCons(r.reply, rest);
      if End in q {
        LatchedRepliesEnd(r.queue, polls[1..]);
        AllEndNoPayload(rest);
        if r.reply == End {
          HasDataAppend(q, late);
          NoDataNoPayload(q + late);
        }
      } else {
        NoOutputLost(false, [], polls[1..]);
        PayloadAppend(q, Consumed(false, [], polls[1..]));
      }
    }
  }
}
