# deno-pty-ffi: the native read state machine and its FFI boundary

This is a Dafny model of the native library `src-rust/src/lib.rs`. The library lets a
managed-runtime caller drive a pseudoterminal session through C-ABI entry points.
The model covers two parts:

- **The non-blocking reader (`PtyReader::read`).** Background threads put `Message`s
  (`Data(text)` or `End`) on a channel. Each read drains the channel. When an `End`
  is drained, the reader latches its `done` flag and drains a second, late batch (in
  the source this batch arrives during a 100 ms pause). It then drops every `End`.
  It returns one of three things: the concatenated data, the empty `Data("")`
  meaning "nothing yet", or `End`. Once `done` is set, the reader never touches the
  channel again.
- **The boundary (`pty_create`, `pty_read`, `pty_write`, `pty_get_size`, `pty_resize`,
  `pty_close`, `free_string`, `free_data`).** Each entry point returns a status:
  `0` success, `-1` error, and `99` (only from `pty_read`) process exit. Results go
  through out-slots. The native side's live allocations are tracked as maps from
  address to content: C strings, byte regions and sessions. Address 0 is the null
  pointer. The callers' safety obligations (live handles, matching lengths, no double
  release) are preconditions.

Modules:

- `Wrappers`: Option, Result and Outcome.
- `Messages`: the message type, the payload of a batch, and the retain and join loops.
- `Reader`: the `PtyReader` class, the specification function `ReadSpec`, and lemmas
  about single reads and about sequences of polls.
- `CText`: null-terminated text (`CString::new`, `CStr::from_ptr`).
- `Errors`: error kinds and their messages.
- `Session`: the `Pty` class.
- `Ffi`: the status selection and the `Library` class holding the entry points.

Inputs the model cannot compute are passed in as parameters:

- the late batch;
- the outcome of JSON decoding plus `Pty::create`;
- the UTF-8 check of written text;
- the serialized size, or the failure to get it;
- the outcome of a resize.

Behaviour of `lib.rs` worth knowing, all of it in the model:

- After exit, `pty_read` returns 99 on every later call and leaves the result
  slot untouched. It does not hand out an exit code.
- A read with nothing pending still allocates an empty C string, which the caller
  must free.
- Output that reaches the read channel after the second drain that follows an
  `End` is never read: the flag is latched and the channel is not touched again.
  `Reader.Consumed` encodes this and `Reader.NoOutputLost` proves the output is
  exactly the data of what was consumed.
- `pty_write` does not check whether the process has exited. It forwards the text
  into the write channel whenever the writer thread still listens.
- A second `pty_close` on a non-null, already retired handle is undefined behaviour
  in `lib.rs`. The model excludes it by precondition.
- Output containing a NUL makes `pty_read` return -1, and the drained output is then
  gone from the reader. `ReadReply` states the -1 status and message, and
  `Library.PtyRead` states that the reader's channel is then empty.

## Model

| member | source | states |
|---|---|---|
| `Messages.PayloadAppend` | src-rust/src/lib.rs:58 | the payload of two batches in sequence is the first's followed by the second's (what `extend` preserves) |
| `Messages.DropEndsKeepsData` | src-rust/src/lib.rs:60-64 | removing `End`s removes every one of them, keeps the concatenated payload unchanged, and leaves an empty batch exactly when there was no `Data` |
| `Messages.Retain` | src-rust/src/lib.rs:61 | the retain loop keeps exactly the `Data` messages, in order |
| `Messages.Join` | src-rust/src/lib.rs:76-87 | over an End-free batch (the `unreachable!` arm excluded) the map/join loop yields the in-order concatenation of the payloads |
| `Reader.PtyReader.constructor` | src-rust/src/lib.rs:37-42 | a new reader has its flag cleared and its channel holding whatever was already sent |
| `Reader.PtyReader.Deliver` | src-rust/src/lib.rs:146 | a send appends one message to the channel and leaves the flag alone (the sends at lib.rs:146, lib.rs:164 and lib.rs:185) |
| `Reader.PtyReader.Read` | src-rust/src/lib.rs:44-90 | the reply, the new flag and the new channel contents are those `ReadSpec` gives for the old flag, the old channel and the late batch |
| `Reader.ReadWhenDone` | src-rust/src/lib.rs:45-47 | with the flag set, a read reports `End` and leaves channel and flag unchanged |
| `Reader.NothingYet` | src-rust/src/lib.rs:70-73 | an empty channel without an end signal gives `Data("")`, not `End`, and the flag stays cleared |
| `Reader.EndLatches` | src-rust/src/lib.rs:51-52 | draining an `End` sets the flag and leaves the channel empty |
| `Reader.ReadEndIff` | src-rust/src/lib.rs:63-68 | from a cleared flag, a read reports `End` exactly when an `End` was drained and neither batch held data, so pending output is never swallowed |
| `Reader.ReadPayload` | src-rust/src/lib.rs:58-61 | a `Data` reply carries the drained batch's payload followed, when an `End` was drained, by the late batch's |
| `Reader.LatchedRepliesEnd` | src-rust/src/lib.rs:45-47 | once the flag is set, every read of any later sequence of polls reports `End` |
| `Reader.EndIsFinal` | src-rust/src/lib.rs:51-57 | after a poll whose drained batch holds an `End`, every later poll reports `End` |
| `Reader.NoOutputLost` | src-rust/src/lib.rs:44-90 | over any sequence of polls, the data handed out is exactly the in-order data of the messages taken off the channel |
| `CText.FirstNul` | src-rust/src/lib.rs:348 | the scan stops at a terminator with no terminator before it |
| `CText.DecodeText` | src-rust/src/lib.rs:348 | the borrowed text is NUL-free and is exactly what precedes the first terminator |
| `CText.CStringNew` | src-rust/src/lib.rs:294-305 | `CString::new` succeeds exactly when the text has no NUL, and the resulting buffer reads back as the text; otherwise it fails at the first NUL |
| `CText.Decimal` | src-rust/src/lib.rs:302 | the decimal rendering of a position is a non-empty string of digits, without a leading zero, that denotes the position |
| `Errors.Describe` | src-rust/src/lib.rs:302 | a foreign error keeps its own message; the message for a NUL in the output is the fixed prefix and `NulError` text followed by digits, without a leading zero, that denote the position ; the null data pointer and disconnected channel errors carry the fixed texts of lib.rs:340 and of the failed send at lib.rs:221 |
| `Ffi.Library.StoreString` | src-rust/src/lib.rs:297 | `into_raw` of a fresh `CString` makes a new, non-null live string at an address no live string used, and changes nothing else |
| `Errors.OwnMessagesHaveNoNul` | src-rust/src/lib.rs:221-222 | the messages this library composes itself (null data pointer at lib.rs:340, NUL in output at lib.rs:302, disconnected channel at lib.rs:221) contain no NUL |
| `Errors.ErrorCString` | src-rust/src/lib.rs:271 | an error string is terminated and reads back as the error's message whenever the message has no NUL |
| `Session.Pty.constructor` | src-rust/src/lib.rs:201-207 | a new session has a fresh reader over the pending messages, an empty write history and a listening writer thread |
| `Session.Pty.Read` | src-rust/src/lib.rs:215-217 | a pass-through: the reader steps exactly as `ReadSpec` says |
| `Session.Pty.Write` | src-rust/src/lib.rs:219-222 | the send succeeds exactly when the writer thread listens, and then appends the text to what it will write |
| `Session.Pty.WriterStopped` | src-rust/src/lib.rs:192-197 | once a terminal write fails, the writer thread no longer listens |
| `Ffi.ReadReply` | src-rust/src/lib.rs:292-316 | status 99 exactly for `End`, with the slot untouched; status 0 exactly for NUL-free data, whose buffer reads back as the data; NUL in the data gives -1 with the `NulError` message; a reader error gives -1 with its message |
| `Ffi.StatusReply` | src-rust/src/lib.rs:265-274 | status 0 with nothing written exactly on success, -1 with the error's message exactly on failure |
| `Ffi.ExitStatusRepeats` | src-rust/src/lib.rs:308-311 | once `pty_read` has returned 99, every `pty_read` of any later sequence of polls on the session returns 99, whatever arrives in between |
| `Ffi.ReadStatusZeroCarriesPayload` | src-rust/src/lib.rs:293-298 | a status-0 read hands out exactly the drained payload, followed by the late batch's after an `End` |
| `Ffi.Library.PtyCreate` | src-rust/src/lib.rs:250-275 | on success a fresh session is live at the handle written to the slot; on failure the slot holds a new error string and no session is added |
| `Ffi.Library.PtyRead` | src-rust/src/lib.rs:290-317 | the session's reader steps as `ReadSpec` says, the status is `ReadReply`'s, and a result string is allocated exactly when the status is not 99; a latched session answers 99 without touching its channel |
| `Ffi.Library.PtyWrite` | src-rust/src/lib.rs:333-365 | a null data pointer gives -1 and an error string without reaching the session; otherwise status 0 exactly when the text is valid and the send succeeds, in which case the text before the terminator is queued |
| `Ffi.Library.PtyGetSize` | src-rust/src/lib.rs:385-419 | on success a new region with the size's bytes and its length are handed out; on failure an error string is written, the data slot is null and the length 0 |
| `Ffi.Library.PtyResize` | src-rust/src/lib.rs:435-454 | status 0 with nothing written on success, -1 with a new error string on failure |
| `Ffi.Library.PtyClose` | src-rust/src/lib.rs:461-474 | a null handle changes nothing; a live handle is retired and nothing else changes |
| `Ffi.Library.FreeString` | src-rust/src/lib.rs:484-490 | a null pointer changes nothing; a live string is released and nothing else changes |
| `Ffi.Library.FreeData` | src-rust/src/lib.rs:501-509 | a null pointer changes nothing; a live region, given its own length, is released and nothing else changes |

## Left out

- The three threads `Pty::create` spawns (child wait, the 8 KB reader loop with its UTF-8 conversion, the writer loop) are concurrency and OS I/O. Their sends are modelled by `PtyReader.Deliver`, the creation-time `pending` batch and `Pty.WriterStopped`.
- The 100 ms `std::thread::sleep` is replaced by the `late` parameter of `Read`. Messages that arrive while no `End` has been drained reach the channel through `Deliver`.
- The `portable_pty` calls (`openpty`, `spawn_command`, `resize`, `get_size`, `kill`) belong to a foreign library. `pty_close`'s best-effort kill of the child is therefore left out, and so is the size the terminal keeps.
- JSON encoding and decoding of `Command` and `PtySize` (serde_json) and `utils.rs`'s `cstr_to_type` wrap a library the model cannot see. They appear only as the outcomes passed to `PtyCreate`, `PtyGetSize` and `PtyResize`.
- `utils::boxed_error_to_cstring`, which `lib.rs` imports, is not modelled. The model renders an error as its message followed by a terminator.
- Errors.ErrorCString: does not say what `boxed_error_to_cstring` does with a message that itself contains a NUL; that function is not modelled (see the line above).
- Text is modelled as characters, not UTF-8 bytes. The UTF-8 check of `CStr::to_str` in `pty_write` is the `utf8Error` parameter.
- CText.CStringNew: the failure position is a character index, while Rust's `NulError` reports a byte offset. For output with non-ASCII characters before the NUL, the position in the `pty_read` -1 message therefore differs: for "é" followed by NUL the model says 1 and Rust says 2.
- Raw pointer validity and the `Box::into_raw`/`from_raw`, `forget` and `Vec::from_raw_parts` memory operations are reduced to the live-allocation maps of `Library`. Using a pointer that is not live is undefined behaviour in the source and is excluded by preconditions.
- Status codes are unbounded integers rather than `i8`. Every value the code uses (0, -1, 99) fits.
- `Pty::clone_reader` and the derived `Clone` of `PtyReader` are left out. They are dead code outside the tests.
- The tests at the end of `lib.rs` spawn real processes on ten threads.
- The caller-side TypeScript wrapper's closed-handle tracking, write swallowing after exit and polling loop are outside `lib.rs`.
