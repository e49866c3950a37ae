/** The failures the boundary reports, and the text each carries. */
module Errors {
  import opened CText

  datatype Error =
    | NullDataPointer           // `pty_write` was handed a null data pointer
    | NulInData(position: nat)  // output text with an interior NUL (`NulError`)
    | Disconnected              // the writer thread's end of the write channel is gone
    | External(description: string)
      // raised by code outside this model: JSON decoding, `portable_pty`,
      // the environment, UTF-8 validation; `description` is its message

  // The fixed messages are written as concatenations of short literals so
  // that the verifier can inspect their characters one word at a time.

  /** The message `pty_write` gives for a null data pointer. */
  const NullDataMessage: string :=
    "pty_write " + "received " + "null " + "data " + "pointer"

  /** The message `pty_read` puts before the `NulError` text. */
  const NulPrefix: string :=
    "Failed to " + "create " + "CString " + "from " + "read " + "data: "

  /** The text of a `NulError` up to its position. */
  const NulErrorText: string :=
    "nul " + "byte " + "found " + "in " + "provided " + "data " + "at " + "position: "

  /** The text of a failed send on a disconnected channel. */
  const DisconnectedMessage: string :=
    "sending " + "on " + "a " + "disconnected " + "channel"

  /** The human-readable message of an error. A foreign error keeps its own
      message; the message of a NUL in the output names the position, which
      can be read back from the digits after the fixed text. */
  function Describe(e: Error): (s: string)
    ensures e.External? ==> s == e.description
    ensures e.NullDataPointer? ==> s == NullDataMessage
    ensures e.Disconnected? ==> s == DisconnectedMessage
    ensures e.NulInData? ==>
              var k := |NulPrefix + NulErrorText|;
              && k < |s| && s[..k] == NulPrefix + NulErrorText
              && (forall i :: k <= i < |s| ==> '0' <= s[i] <= '9')
              && DigitsValue(s[k..]) == e.position
              && (|s| == k + 1 || s[k] != '0')
  {
    match e
    case NullDataPointer => NullDataMessage
    case NulInData(p) =>
      var fixed := NulPrefix + NulErrorText;
      var s := fixed + Decimal(p);
      assert s[..|fixed|] == fixed && s[|fixed|..] == Decimal(p);
      s
    case Disconnected => DisconnectedMessage
    case External(d) => d
  }

  /** The message of every error the model itself raises can be read back
      through a null-terminated buffer. */
  lemma OwnMessagesHaveNoNul(e: Error)
    requires !e.External?
    ensures NUL !in Describe(e)
  {
    match e
    case NullDataPointer =>
      assert NUL !in NullDataMessage;
    case NulInData(p) =>
      var d := Decimal(p);
      assert NUL !in d by {
        forall i | 0 <= i < |d| ensures d[i] != NUL { }
      }
      assert NUL !in NulPrefix;
      assert NUL !in NulErrorText;
    case Disconnected =>
      assert NUL !in DisconnectedMessage;
  }

  /** The null-terminated error string handed to the caller. */
  function ErrorCString(e: Error): (buf: seq<char>)
    ensures NUL in buf
    ensures NUL !in Describe(e) ==> DecodeText(buf) == Describe(e)
    ensures !e.External? ==> DecodeText(buf) == Describe(e)
  {
    var s := Describe(e);
    var buf := s + [NUL];
    assert buf[|s|] == NUL;
    assert NUL !in s ==> FirstNul(buf) == |s|;
    if !e.External? then
      OwnMessagesHaveNoNul(e);
      buf
    else buf
  }
}
