/** The FFI layer of src-rust/src/lib.rs: each entry point multiplexes its
    outcome into a small status (0 success, -1 error, 99 process exit, the
    last only from `pty_read`) and writes results through out-pointers. The
    native side's live allocations are tracked by address so that the release
    rules can be stated; address 0 is the null pointer. */
module Ffi {
  import opened Wrappers
  import opened Messages
  import opened CText
  import opened Errors
  import Reader
  import Session

  newtype byte = x: int | 0 <= x < 256

  /** A status and the null-terminated text to hand out through the result
      slot; `None` leaves the slot untouched. */
  datatype Reply = Reply(status: int, text: Option<seq<char>>)

  /** The status selection of `pty_read` over what `Pty::read` gave. */
  function ReadReply(r: Result<Message, Error>): (rep: Reply)
    ensures rep.status == 99 <==> r == Success(End)
    ensures rep.status == 99 ==> rep.text == None
    ensures rep.status != 99 ==> rep.text.Some? && NUL in rep.text.value
    ensures rep.status == 0 <==> r.Success? && r.value.Data? && NUL !in r.value.text
    ensures rep.status == 0 ==> DecodeText(rep.text.value) == r.value.text
    ensures r.Success? && r.value.Data? && NUL in r.value.text ==>
              rep.status == -1 &&
              DecodeText(rep.text.value) == Describe(NulInData(FirstNul(r.value.text)))
    ensures r.Failure? ==> rep.status == -1 && rep.text == Some(ErrorCString(r.error))
  {
    match r
    case Success(Data(d)) =>
      (match CStringNew(d)
       case Success(buf) => Reply(0, Some(buf))
       case Failure(pos) => Reply(-1, Some(ErrorCString(NulInData(pos)))))
    case Success(End) => Reply(99, None)
    case Failure(e) => Reply(-1, Some(ErrorCString(e)))
  }

  /** The status selection of the entry points that only succeed or fail:
      0 with nothing to hand out, or -1 with the error's message. */
  function StatusReply(o: Outcome<Error>): (rep: Reply)
    ensures rep.status == 0 <==> o.Pass?
    ensures rep.status == -1 <==> o.Fail?
    ensures rep.text.Some? <==> o.Fail?
    ensures o.Fail? ==> NUL in rep.text.value &&
                        (NUL !in Describe(o.error) ==> DecodeText(rep.text.value) == Describe(o.error))
  {
    match o
    case Pass => Reply(0, None)
    case Fail(e) => Reply(-1, Some(ErrorCString(e)))
  }

  /** Exit is reported again and again: once a read has produced status 99,
      every `pty_read` of any later sequence of polls on the session produces
      99, whatever then arrives. */
  lemma ExitStatusRepeats(done: bool, queue: seq<Message>, late: seq<Message>, polls: seq<Reader.Poll>)
    requires ReadReply(Success(Reader.ReadSpec(done, queue, late).reply)).status == 99
    ensures var r := Reader.ReadSpec(done, queue, late);
            forall i :: 0 <= i < |polls| ==>
              ReadReply(Success(Reader.Replies(r.done, r.queue, polls)[i])).status == 99
  {
    var r := Reader.ReadSpec(done, queue, late);
    assert r.reply == End;
    assert r.done;
    Reader.LatchedRepliesEnd(r.queue, polls);
  }

  /** A successful read hands out exactly the data the reader combined. */
  lemma ReadStatusZeroCarriesPayload(queue: seq<Message>, late: seq<Message>)
    requires ReadReply(Success(Reader.ReadSpec(false, queue, late).reply)).status == 0
    ensures var rep := ReadReply(Success(Reader.ReadSpec(false, queue, late).reply));
            DecodeText(rep.text.value) == Payload(queue) + (if End in queue then Payload(late) else "")
  {
    Reader.ReadPayload(queue, late);
  }

  /** The native side of the boundary: the allocations it has handed to the
      caller and not yet taken back, keyed by address. */
  class Library {
    /** Live `CString`s (terminator included), released by `free_string`. */
    var strings: map<nat, seq<char>>
    /** Live byte regions leaked from a `Vec<u8>`, released by `free_data`. */
    var regions: map<nat, seq<byte>>
    /** Live boxed sessions, released by `pty_close`. */
    var sessions: map<nat, Session.Pty>
    /** The next address to hand out; every live address lies below it. */
    var next: nat

    ghost predicate Valid()
      reads this
    {
      && 0 < next
      && (forall a :: a in strings ==> 0 < a < next)
      && (forall a :: a in regions ==> 0 < a < next)
      && (forall a :: a in sessions ==> 0 < a < next)
      && strings.Keys !! regions.Keys
      && strings.Keys !! sessions.Keys
      && regions.Keys !! sessions.Keys
      && (forall a, b :: a in sessions && b in sessions && a != b ==>
            sessions[a] != sessions[b] && sessions[a].reader != sessions[b].reader)
    }

    constructor ()
      ensures Valid() && strings == map[] && regions == map[] && sessions == map[]
    {
      strings, regions, sessions := map[], map[], map[];
      next := 1;
    }

    /** `into_raw` of a fresh `CString`: a new live string at a new address. */
    method StoreString(buf: seq<char>) returns (a: nat)
      requires Valid()
      modifies this
      ensures Valid()
      ensures a == old(next) && a != 0 && a !in old(strings)
      ensures strings == old(strings)[a := buf]
      ensures regions == old(regions) && sessions == old(sessions)
    {
      a := next;
      strings := strings[a := buf];
      next := next + 1;
    }

    /** `pty_create`: `created` is the outcome of decoding the command and of
        `Pty::create`, and `pending` what the new session's threads have
        already sent when the reader is built. The result slot receives the
        session handle on success and an error string otherwise. */
    method PtyCreate(created: Outcome<Error>, pending: seq<Message>) returns (status: int, result: nat)
      requires Valid()
      modifies this
      ensures Valid() && regions == old(regions) && result == old(next) && result != 0
      ensures status == StatusReply(created).status
      ensures created.Pass? ==>
                && result !in old(sessions) && strings == old(strings)
                && sessions.Keys == old(sessions.Keys) + {result}
                && (forall a :: a in old(sessions) ==> sessions[a] == old(sessions[a]))
                && fresh(sessions[result]) && fresh(sessions[result].reader)
                && sessions[result].reader.queue == pending && !sessions[result].reader.done
                && sessions[result].sent == [] && sessions[result].writerAlive
      ensures created.Fail? ==>
                && sessions == old(sessions)
                && strings == old(strings)[result := ErrorCString(created.error)]
    {
      match created
      case Pass =>
        var pty := new Session.Pty(pending);
        result := next;
        sessions := sessions[result := pty];
        next := next + 1;
        status := 0;
      case Fail(e) =>
        result := StoreString(ErrorCString(e));
        status := -1;
    }

    /** `pty_read` on a live session; `late` is the reader's late batch. */
    method PtyRead(ptr: nat, late: seq<Message>) returns (status: int, result: Option<nat>)
      requires Valid() && ptr in sessions
      modifies this, sessions[ptr].reader
      ensures Valid() && sessions == old(sessions) && regions == old(regions)
      ensures var r := Reader.ReadSpec(old(sessions[ptr].reader.done), old(sessions[ptr].reader.queue), late);
              var rep := ReadReply(Success(r.reply));
              && sessions[ptr].reader.done == r.done && sessions[ptr].reader.queue == r.queue
              && status == rep.status
              && (rep.text.None? ==> result == None && strings == old(strings) && next == old(next))
              && (rep.text.Some? ==> result == Some(old(next)) && old(next) !in old(strings)
                                     && strings == old(strings)[old(next) := rep.text.value])
      ensures old(sessions[ptr].reader.done) ==>
                status == 99 && result == None && strings == old(strings)
                && sessions[ptr].reader.queue == old(sessions[ptr].reader.queue)
      ensures status == 99 ==> sessions[ptr].reader.done
    {
      var pty := sessions[ptr];
      var m := pty.Read(late);
      var rep := ReadReply(Success(m));
      status := rep.status;
      if rep.text.Some? {
        var a := StoreString(rep.text.value);
        result := Some(a);
      } else {
        result := None;
      }
    }

    /** `pty_write`: `data` is the caller's memory at the data pointer, `None`
        for a null pointer, and `utf8Error` the complaint of the UTF-8 check
        of the text before its terminator, if it has one. A null pointer is
        refused before the session is looked at. */
    method PtyWrite(ptr: nat, data: Option<seq<char>>, utf8Error: Option<string>)
      returns (status: int, error: Option<nat>)
      requires Valid()
      requires data.Some? ==> ptr in sessions && NUL in data.value
      modifies this, if data.Some? then {sessions[ptr]} else {}
      ensures Valid() && sessions == old(sessions) && regions == old(regions)
      ensures status == 0 || status == -1
      ensures status == 0 <==> error == None
      ensures status == 0 ==> strings == old(strings)
      ensures data.None? ==>
                status == -1 && error == Some(old(next))
                && strings == old(strings)[old(next) := ErrorCString(NullDataPointer)]
      ensures data.Some? ==>
                var pty := sessions[ptr];
                && pty.writerAlive == old(pty.writerAlive)
                && (status == 0 <==> utf8Error == None && old(pty.writerAlive))
                && pty.sent == (if status == 0 then old(pty.sent) + [DecodeText(data.value)] else old(pty.sent))
                && (utf8Error.Some? ==>
                      strings == old(strings)[old(next) := ErrorCString(External(utf8Error.value))])
                && (utf8Error.None? && !old(pty.writerAlive) ==>
                      strings == old(strings)[old(next) := ErrorCString(Disconnected)])
      ensures error.Some? ==> error == Some(old(next)) && old(next) !in old(strings)
    {
      if data.None? {
        var a := StoreString(ErrorCString(NullDataPointer));
        return -1, Some(a);
      }
      var pty := sessions[ptr];
      var text := DecodeText(data.value);
      var sendResult: Outcome<Error>;
      if utf8Error.Some? {
        sendResult := Fail(External(utf8Error.value));
      } else {
        sendResult := pty.Write(text);
      }
      var rep := StatusReply(sendResult);
      status := rep.status;
      if rep.text.Some? {
        var a := StoreString(rep.text.value);
        error := Some(a);
      } else {
        error := None;
      }
    }

    /** `pty_get_size` on a live session: `query` is the serialized size, or
        the failure of the size query or of its serialization. On failure the
        data slot is set to null and the length slot to 0. */
    method PtyGetSize(ptr: nat, query: Result<seq<byte>, Error>)
      returns (status: int, data: nat, len: nat, error: Option<nat>)
      requires Valid() && ptr in sessions
      modifies this
      ensures Valid() && sessions == old(sessions)
      ensures status == (if query.Success? then 0 else -1)
      ensures query.Success? ==>
                && data == old(next) && data != 0 && data !in old(regions)
                && len == |query.value| && error == None
                && regions == old(regions)[data := query.value] && strings == old(strings)
      ensures query.Failure? ==>
                && data == 0 && len == 0 && error == Some(old(next))
                && strings == old(strings)[old(next) := ErrorCString(query.error)]
                && regions == old(regions)
    {
      match query
      case Success(bytes) =>
        data := next;
        regions := regions[data := bytes];
        next := next + 1;
        len := |bytes|;
        status, error := 0, None;
      case Failure(e) =>
        var a := StoreString(ErrorCString(e));
        error := Some(a);
        data, len := 0, 0;
        status := -1;
    }

    /** `pty_resize` on a live session: `resized` is the outcome of decoding
        the size and of the terminal's resize. */
    method PtyResize(ptr: nat, resized: Outcome<Error>) returns (status: int, error: Option<nat>)
      requires Valid() && ptr in sessions
      modifies this
      ensures Valid() && sessions == old(sessions) && regions == old(regions)
      ensures status == StatusReply(resized).status
      ensures resized.Pass? ==> error == None && strings == old(strings)
      ensures resized.Fail? ==>
                error == Some(old(next)) && strings == old(strings)[old(next) := ErrorCString(resized.error)]
    {
      var rep := StatusReply(resized);
      status := rep.status;
      if rep.text.Some? {
        var a := StoreString(rep.text.value);
        error := Some(a);
      } else {
        error := None;
      }
    }

    /** `pty_close`: a null handle is ignored; a live one is retired. */
    method PtyClose(ptr: nat)
      requires Valid() && (ptr == 0 || ptr in sessions)
      modifies this
      ensures Valid()
      ensures sessions == old(sessions) - {ptr}
      ensures strings == old(strings) && regions == old(regions) && next == old(next)
    {
      if ptr == 0 {
        return;
      }
      sessions := sessions - {ptr};
    }

    /** `free_string`: a null pointer is ignored; a live string is released. */
    method FreeString(ptr: nat)
      requires Valid() && (ptr == 0 || ptr in strings)
      modifies this
      ensures Valid()
      ensures strings == old(strings) - {ptr}
      ensures regions == old(regions) && sessions == old(sessions) && next == old(next)
    {
      if ptr != 0 {
        strings := strings - {ptr};
      }
    }

    /** `free_data`: a null pointer is ignored; a live region is released,
        given the length it was handed out with. */
    method FreeData(ptr: nat, len: nat)
      requires Valid() && (ptr == 0 || (ptr in regions && len == |regions[ptr]|))
      modifies this
      ensures Valid()
      ensures regions == old(regions) - {ptr}
      ensures strings == old(strings) && sessions == old(sessions) && next == old(next)
    {
      if ptr != 0 {
        regions := regions - {ptr};
      }
    }
  }
}
