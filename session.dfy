/** `Pty` of src-rust/src/lib.rs: one session, holding its reader and the
    sending end of the write channel that feeds the writer thread. */
module Session {
  import opened Wrappers
  import opened Messages
  import opened Errors
  import Reader

  class Pty {
    /** The read state machine over the read channel. */
    const reader: Reader.PtyReader
    /** Every string handed to the writer thread through `tx_write`, in order. */
    var sent: seq<string>
    /** Whether the writer thread still holds the receiving end of the write
        channel; it drops it when a write to the terminal fails. */
    var writerAlive: bool

    /** The session `Pty::create` assembles once the child has been spawned:
        `pending` is whatever the reader and waiter threads have already sent. */
    constructor (pending: seq<Message>)
      ensures fresh(reader) && reader.queue == pending && !reader.done
      ensures sent == [] && writerAlive
    {
      reader := new Reader.PtyReader(pending);
      sent := [];
      writerAlive := true;
    }

    /** `Pty::read`: a pass-through to the reader. */
    method Read(late: seq<Message>) returns (m: Message)
      modifies reader
      ensures Reader.ReadResult(m, reader.done, reader.queue)
           == Reader.ReadSpec(old(reader.done), old(reader.queue), late)
    {
      m := reader.Read(late);
    }

    /** `Pty::write`: the send succeeds exactly when the writer thread still
        listens, and then queues the string behind all earlier ones. */
    method Write(data: string) returns (o: Outcome<Error>)
      modifies this
      ensures writerAlive == old(writerAlive)
      ensures o == (if old(writerAlive) then Pass else Fail(Disconnected))
      ensures sent == (if old(writerAlive) then old(sent) + [data] else old(sent))
    {
      if writerAlive {
        sent := sent + [data];
        o := Pass;
      } else {
        o := Fail(Disconnected);
      }
    }

    /** The writer thread leaving its loop after a failed write to the
        terminal, which drops the receiving end of the write channel. */
    method WriterStopped()
      modifies this
      ensures !writerAlive && sent == old(sent)
    {
      writerAlive := false;
    }
  }
}
