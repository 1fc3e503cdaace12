# lspit: a Dafny model of the client's protocol core

lspit is a small command-line client for the Go language server (gopls). It
starts the server, performs the LSP handshake, sends one `didOpen` and one
positional query (hover, definition or references), prints the answer, and
shuts the server down. This project models the parts of that client that carry
logic and proves properties about them:

- **Content-Length framing** (`framing.dfy`). The encoder writes
  `Content-Length: <n>\r\n\r\n<payload>`. The decoder is the header loop and
  body read of `readLoop`. It trims each header line and stops at the first
  blank one. Only `Content-Length:` lines set the length, and the last such
  line wins. The length starts at 0 for every frame. Exactly that many bytes
  are read as the body.
- **Go library pieces** (`text.dfy`, `base.dfy`): ASCII `strings.TrimSpace`,
  `TrimPrefix`, `TrimSuffix`, `SplitN(_, _, 2)`, `strconv.Atoi` (64-bit,
  including its range errors), `%d` formatting, and 64-bit wrap-around.
- **Request ids and response correlation** (`correlation.dfy`). This covers
  `getNextID`, `registerResponse`, the dispatch step of `readLoop`, and the
  caller's receive on its channel. They are modelled as one sequential state
  machine: a counter, a table from awaited id to channel, and the channels'
  one-element buffers.
- **The reader loop** (`readloop.dfy`): frames are read one after another and
  each decoded payload is dispatched.
- **Position conversion** (`position.dfy`): 1-based on the command line and in
  the output, 0-based on the wire, with Go's 64-bit `int` arithmetic.
- **Result formatters** (`format.dfy`). `displayHoverInfo` and
  `displayLocations` are pure functions from a decoded response to the lines
  printed.
- **The message trace of a session** (`session.dfy`): `Initialize`, the three
  queries and `Close`, as the sequence of requests and notifications written.
- **Command-line validation** (`cli.dfy`): `parsePosition`, the command
  aliases and the argument counts in `main`.

Three behaviours of the code that a reader of the LSP base protocol might not
expect:

- A header without a usable `Content-Length` is not a transport error. A
  missing line leaves the length at 0, and so does a value that is not an
  integer (`12x`, `1.5`). The frame's payload is then empty. An empty payload
  is not valid JSON, so the reader skips it.
- A length whose digits overflow 64 bits is read as the largest (or smallest)
  `int`, not as 0. `Atoi`'s error is ignored, but its clamped value is kept.
  `make` cannot allocate that many bytes, so the reader then panics and takes
  the process down. Any length above 2^48, the allocation limit on 64-bit
  Linux, does the same (`Framing.MaxAlloc`).
- `main` leaves through `os.Exit(1)` on every error after the server has been
  started. That skips the deferred `Close`, so on those paths neither
  `shutdown` nor `exit` is sent. `Cli.Main` records which errors are detected
  only after the server was started and initialised.

## Model

| member | source | states |
|---|---|---|
| Text.TrimSpace | client.go:390 | the result is empty exactly when the line is all white space, and otherwise has no white space at either end; a line with no white space at its ends is unchanged |
| Text.TrimSpaceInfix | client.go:390 | the line is the result with white space on either side, so together with the above the result is exactly the line with its white space removed at both ends |
| Text.TrimPrefix | client.go:482 | with the prefix present, the prefix followed by the result is the input; otherwise the input is returned unchanged |
| Text.TrimSuffix | client.go:448 | with the suffix present, the result followed by the suffix is the input; otherwise the input is returned unchanged |
| Text.SplitOnce | client.go:396 | without the separator the line is one part; with it there are two parts, split at the first separator, which together with the separator rebuild the line |
| Text.Decimal | client.go:367 | `%d` of a length: non-empty, all digits, no leading zero, and its digits read back as the number |
| Text.FormatInt | client.go:486 | `%d` of any integer: a decimal literal of that value, with a minus sign exactly when it is negative and no leading zero |
| Text.Atoi | client.go:398 | no error exactly for a signed decimal literal whose value fits 64 bits, and then that value; 0 on a syntax error; the bound on the literal's side on a range error; a literal never reports a syntax error; leading digits past 64 bits give a range error; a non-literal whose leading digits fit (`12x`, `1.5`, `abc`) gives 0 with a syntax error |
| Text.AtoiFormatInt | client.go:398 | every 64-bit integer printed in decimal is read back by Atoi exactly, without error |
| Base.Wrap64 | client.go:484-485 | Go's `int` arithmetic: the result is a 64-bit value, equal to the exact one when that fits and congruent to it modulo 2^64 |
| Framing.ReadLine | client.go:385-388 | nothing exactly when no line feed is left; otherwise the line up to and including the first line feed, then the rest of the stream |
| Framing.EncodeFrame | client.go:366-370 | a frame is the header `Content-Length: ` followed by the canonical decimal of the payload's length (no sign, no leading zero), with no line feed in it, then CR LF CR LF, then the payload itself |
| Framing.UpdateLength | client.go:395-399 | a line starting with `Content-Length:` sets the length to Atoi of the trimmed text after the field name (the first colon is the field's own, so the split always yields two parts); any other line leaves the length as it was |
| Framing.EncodeFrameDeclaresLength | client.go:367 | the header of an encoded frame, everything before the blank line, is a `Content-Length:` line whose value the reader takes to be the payload's length |
| Framing.LengthHeaderValue | client.go:367 | the header line of a frame starts with `Content-Length:` and declares exactly the payload length |
| Framing.EncodedHeaderBlock | client.go:366-370 | a frame's header block is the one `Content-Length` line, and the bytes after the blank line are left as they were |
| Framing.ReadHeader | client.go:383-401 | the header loop agrees with a reference reading: collect trimmed lines up to the first blank one; the length is the last `Content-Length:` line's value, or the starting value when there is none; nothing when the stream ends first |
| Framing.ReadFrame | client.go:382-407 | a frame's length is read afresh from its own header block with 0 as the start; a negative length, or one above the allocation limit, panics; a body shorter than the length stops the reader; otherwise exactly the length's worth of bytes is the payload and the rest of the stream is the remainder |
| Framing.DecodeEncode | client.go:366-407 | decoding an encoded frame gives the payload back and leaves whatever follows untouched, for every payload a Go byte slice can hold, including the empty one |
| Framing.CutFrameIsClosed | client.go:385-407 | every proper prefix of a frame stops the reader without yielding a message |
| Framing.ShortBody | client.go:404-407 | a frame whose body is shorter than its declared length is not read: the reader stops, or panics first when the length is above the allocation limit |
| Framing.NoLengthLine | client.go:383 | a header block without a `Content-Length:` line declares length 0 |
| Framing.LastLengthLineWins | client.go:395-399 | of several `Content-Length:` lines the last one decides the length |
| Framing.UnparsableLength | client.go:395-405 | a `Content-Length:` value that is not an integer literal gives an empty payload and leaves the stream after the blank line in place, unless its leading digits overflow 64 bits, when the reader panics |
| Framing.OverflowingLengthPanics | client.go:398-404 | a `Content-Length:` value whose digits exceed Go's `int` is read as the largest `int`, and the reader panics allocating it |
| Correlation.Init | client.go:57-58 | a fresh client counts from 1, awaits nothing and has no channels, and satisfies the channel invariant |
| Correlation.NextId | client.go:334-340 | returns the counter and moves it on by one; the id returned is not awaited yet |
| Correlation.Register | client.go:342-348 | a new empty channel is recorded for the id, replacing any earlier entry; the channel invariant is kept |
| Correlation.Deliver | client.go:420-427 | an awaited id's channel receives the result and its entry is removed, with every other channel unchanged; for an id nobody awaits, nothing changes |
| Correlation.Dispatch | client.go:409-427 | unparsable payloads, messages without an id and messages for ids nobody awaits leave the state unchanged; otherwise entries are only removed, never added or redirected |
| Correlation.Receive | client.go:184 | a receive gets the result its channel holds and empties the channel; an empty channel yields nothing, and the caller keeps waiting |
| Correlation.AwaitedIdGetsFirstReply | client.go:420-427 | exactly-once delivery: while an id is awaited, its channel receives the result of the first message with that id and nothing else; the entry is gone exactly when such a message arrived |
| Correlation.UnnamedSlotUntouched | client.go:422-424 | a channel that no table entry names is never written by the reader |
| Correlation.Run | client.go:334-340 | under any interleaving of id issues, registrations, deliveries and receives, the ids handed out are consecutive from the counter, so strictly increasing and never repeated |
| ReadLoop.Drain | client.go:372-428 | reading and dispatching a stream keeps the channel invariant and the counter |
| ReadLoop.DrainEncoded | client.go:366-428 | the reader recovers every message written, in order, dispatching each as if handed the decoded payloads directly, and stops when the output ends |
| Position.ToWire | client.go:170-171 | for 1-based positions the wire position is (line-1, col-1), never negative, and converting it back gives the original |
| Position.FromWire | client.go:484-485 | each wire coordinate, negative ones included, is shown plus one, and one equal to the largest `int` wraps round to the smallest, as in Go; a wire position with both coordinates non-negative and below the largest `int` is shown as a valid 1-based position |
| Position.WireRoundTrip | client.go:484-485 | showing a wire position and converting it back gives the same wire position |
| Format.StripFences | client.go:446-448 | by the opening fences present: none, only a closing fence is removed; an untagged one, it and then a closing fence are removed; a go-tagged one, it, an untagged one right after it, and then a closing fence are removed; a value with no fence at either end is unchanged |
| Format.UnfenceGoBlock | client.go:446-448 | a go-tagged code block is shown as its text, unless the text itself starts with a second fence |
| Format.UnfenceBareBlock | client.go:447-448 | an untagged code block is always shown as its text |
| Format.FormatItems | client.go:451-460 | at most one line per array element, each line some element's string or string value; when every element has one, line i is element i's |
| Format.FormatItemsAppend | client.go:451-460 | array elements are printed in order: the lines of a concatenation are the lines of its parts |
| Format.FormatItemsSingle | client.go:453-458 | a string element prints itself and an object element its string value, unstripped; anything else prints nothing |
| Format.FormatHover | client.go:433-464 | null contents print the no-hover message; a string prints verbatim; an object prints its fence-stripped value, or nothing without one; an array prints `FormatItems` of its elements; any other value prints nothing |
| Format.HoverExamples | client.go:433-461 | a go-fenced value prints without its fences; a mixed array prints one line per element, in order |
| Format.FormatLocations | client.go:475-487 | no locations prints the not-found message; otherwise one line per location, in input order |
| Format.LocationLine | client.go:480-486 | the line is the path without `file://`, a colon, the shown line and a colon and the shown column, each as `%d` prints it; it is read back as that path and position, whatever colons the path holds |
| Format.HoverReport | client.go:186-198 | a result that does not decode is an error; otherwise the hover lines are printed |
| Format.LocationsReport | client.go:247-262 | a result that does not decode is an error; otherwise at least one line is printed |
| Session.Start | client.go:51-60 | a new client keeps the workspace root it was given, has written nothing, awaits nothing and issues ids from 1 |
| Session.Initialize | client.go:92-133 | `initialize` is registered before it is sent, with the `file://` root; `initialized` follows exactly when the reply to that id arrived; request ids stay increasing |
| Session.RunQuery | client.go:136-330 | an unreadable file sends nothing; otherwise `didOpen` with the file's text precedes the request, which carries a fresh id and the 0-based position (`includeDeclaration` only for references); the answer is the first reply to that id |
| Session.Close | client.go:69-88 | `shutdown` with a fresh id and then `exit` are written; the shutdown id is not registered |
| Session.ShutdownReplyDropped | client.go:69-77 | the reply to `shutdown` changes nothing when it arrives |
| Session.WholeSession | main.go:40-65 | handshake, one query and close write exactly initialize(1), initialized, didOpen, the query(2), shutdown(3) and exit, in that order |
| Cli.ParseCommand | main.go:54-104 | `hover`/`type`, `definition`/`def` and `references`/`refs` select the three queries; any other name is unknown |
| Cli.ParsePosition | main.go:118-131 | a bad line is reported before the column is examined; then a bad column; then a value below 1; on success both parsed values, each at least 1 |
| Cli.ParsePositionFormatInt | main.go:118-131 | every valid position, printed in decimal, is parsed back exactly |
| Cli.Main | main.go:10-104 | fewer than two arguments is a usage error; then the first failing step decides the error, in main's order: path, file, workspace, server start, handshake, unknown command, missing line and column, and the position's own error unchanged; success needs all of them to pass; command and position errors are detected only after the server has been started and initialised |
| Cli.ShortCommandRejected | main.go:56-59 | a known command without line and column is a usage error naming that command |

## Left out

- Process and I/O plumbing is not modelled: starting gopls, the pipes, `cmd.Wait`, `os.ReadFile`, `filepath.Abs`, `os.Stat` and `findGitRoot`. Their outcomes are inputs: the file's content as an option, and `Cli.Env`.
- Concurrency is not modelled: the goroutine, the mutex and the `done` channel. The caller and the reader are one sequential state machine whose steps may interleave in any order (`Correlation.Run`). A blocked receive is the `Waiting` outcome.
- JSON encoding and decoding are left to abstract datatypes. These are `Session.Params`, `Correlation.Incoming`, `Format.HoverContents` and `Format.Decoded`. The parser of the reader is a parameter of `ReadLoop.Drain`.
- The fixed capabilities object of `initialize` is not modelled. `Session.InitializeParams` carries only the root URI.
- Write errors on the server's input are not modelled. Hover returns early when writing `didOpen` fails; Definition and References ignore that error.
- Printing is not modelled: `printUsage`, `Println` and `Fprintf`. The formatters return the lines they print. A string that itself contains newlines is one element of the result.
- Memory exhaustion for a declared length at or below the allocation limit is not modelled: such a length is taken to be allocatable. A negative length, or one above 2^48, panics (`Framing.Panicked`). The limit is that of 64-bit Linux; other platforms have other limits.
- utils.go is not part of this model.
- Text.TrimSpace: trims ASCII white space only. `strings.TrimSpace` also trims Unicode spaces encoded in UTF-8, because the model treats each octet as one char and does not decode UTF-8.
- Correlation.NextId: the counter is unbounded. Go's `int` counter would wrap after 2^63 - 1 requests, which one short-lived session never reaches.
- Cli.Main: stops where the query is called. The exit status after a query error, and the skipped `Close` on those paths, are not part of its result.
