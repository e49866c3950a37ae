/** The messages that the background threads put on a session's read channel,
    and the functions that say what a batch of them holds. */
module Messages {

  /** `Message` of src-rust/src/lib.rs: a chunk of output text, or the
      signal that the child (or the output reader) has finished. */
  datatype Message = Data(text: string) | End

  /** The text a single message contributes to the output. */
  function PayloadOf(m: Message): string {
    if m.Data? then m.text else ""
  }

  /** The in-order concatenation of the `Data` payloads of a batch; `End`
      messages contribute nothing. */
  function Payload(ms: seq<Message>): string {
    if ms == [] then "" else Payload(ms[..|ms| - 1]) + PayloadOf(ms[|ms| - 1])
  }

  /** Whether a batch holds at least one `Data` message. */
  predicate HasData(ms: seq<Message>) {
    exists i :: 0 <= i < |ms| && ms[i].Data?
  }

  /** The batch with every `End` removed and the `Data` messages kept in order. */
  function DropEnds(ms: seq<Message>): seq<Message> {
    if ms == [] then []
    else DropEnds(ms[..|ms| - 1]) + (if ms[|ms| - 1].Data? then [ms[|ms| - 1]] else [])
  }

  lemma {:induction false} PayloadAppend(a: seq<Message>, b: seq<Message>)
    ensures Payload(a + b) == Payload(a) + Payload(b)
    decreases |b|
  {
    if b == [] {
      assert a + b == a;
    } else {
      var c := b[..|b| - 1];
      assert (a + b)[..|a + b| - 1] == a + c;
      assert (a + b)[|a + b| - 1] == b[|b| - 1];
      PayloadAppend(a, c);
    }
  }

  lemma PayloadCons(m: Message, ms: seq<Message>)
    ensures Payload([m] + ms) == PayloadOf(m) + Payload(ms)
  {
    PayloadAppend([m], ms);
    assert [m][..0] == [];
  }

  lemma HasDataAppend(a: seq<Message>, b: seq<Message>)
    ensures HasData(a + b) <==> HasData(a) || HasData(b)
  {
    if HasData(a + b) {
      var i :| 0 <= i < |a + b| && (a + b)[i].Data?;
      if i < |a| { assert a[i].Data?; } else { assert b[i - |a|].Data?; }
    }
    if HasData(a) {
      var i :| 0 <= i < |a| && a[i].Data?;
      assert (a + b)[i].Data?;
    }
    if HasData(b) {
      var i :| 0 <= i < |b| && b[i].Data?;
      assert (a + b)[|a| + i].Data?;
    }
  }

  /** Removing the `End` messages removes all of them, loses no output, and
      leaves an empty batch exactly when there was no data at all. */
  lemma {:induction false} DropEndsKeepsData(ms: seq<Message>)
    ensures End !in DropEnds(ms)
    ensures Payload(DropEnds(ms)) == Payload(ms)
    ensures DropEnds(ms) == [] <==> !HasData(ms)
    decreases |ms|
  {
    if ms != [] {
      var init, last := ms[..|ms| - 1], ms[|ms| - 1];
      assert ms == init + [last];
      DropEndsKeepsData(init);
      var tail: seq<Message> := if last.Data? then [last] else [];
      PayloadAppend(DropEnds(init), tail);
      assert Payload(tail) == PayloadOf(last) by {
        if last.Data? { assert tail[..0] == []; }
      }
      HasDataAppend(init, [last]);
      assert HasData([last]) <==> last.Data? by {
        if last.Data? { assert [last][0].Data?; }
      }
    }
  }

  /** A batch without data contributes no output. */
  lemma NoDataNoPayload(ms: seq<Message>)
    requires !HasData(ms)
    ensures Payload(ms) == ""
  {
    DropEndsKeepsData(ms);
  }

  /** `msgs.retain(|msg| !matches!(msg, Message::End))`: the loop that keeps
      the `Data` messages of the collected batch, in order. */
  method Retain(msgs: seq<Message>) returns (kept: seq<Message>)
    ensures kept == DropEnds(msgs)
  {
    kept := [];
    var i := 0;
    while i < |msgs|
      invariant 0 <= i <= |msgs|
      invariant kept == DropEnds(msgs[..i])
    {
      assert msgs[..i + 1][..i] == msgs[..i];
      if msgs[i].Data? {
        kept := kept + [msgs[i]];
      }
      i := i + 1;
    }
    assert msgs[..|msgs|] == msgs;
  }

  /** The `map` and `join("")` over an `End`-free batch: the caller promises
      that every `End` is gone (the source reaches `unreachable!` otherwise). */
  method Join(msgs: seq<Message>) returns (combined: string)
    requires End !in msgs
    ensures combined == Payload(msgs)
  {
    combined := "";
    var i := 0;
    while i < |msgs|
      invariant 0 <= i <= |msgs|
      invariant combined == Payload(msgs[..i])
    {
      assert msgs[..i + 1][..i] == msgs[..i];
      assert msgs[i] != End by { assert msgs[i] in msgs; }
      combined := combined + msgs[i].text;
      i := i + 1;
    }
    assert msgs[..|msgs|] == msgs;
  }
}
