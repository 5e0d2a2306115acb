# gonet: connection, trigger table and message envelope

gonet is a small Go messaging library. A `Connection` holds a transport
protocol name, a fixed read length and a table of *triggers*, i.e. command
names mapped to handler functions. A sender wraps a command and data in a
`Message`, exports it as JSON and writes it to a socket. A listener reads one
fixed-length, zero-filled buffer and trims the zero bytes off it. It then
unmarshals the message, and `ResolveMessageTriggers` runs the handler
registered for the message's command on its data.

This project models `gonet.go` in Dafny:

- `wrappers.dfy` (module `Wrappers`): `Option`, which stands for Go's nil function value, and `Result`, which stands for the paths where the Go code ends the process.
- `envelope.dfy` (module `Envelope`): the `Message` value, the zero trim `bytes.Trim(data, "\x00")`, the JSON codec taken as an abstract `marshal`/`unmarshal` pair, decoding, and the receive buffer that `Listen` fills.
- `connection.dfy` (module `Gonet`): the `Connection` class with its `triggers` map field. `Trigger` updates the map in place. Lookup, resolution and the socket-free parts of `Send` and `Listen` are functions.

Design decisions:

- A handler is a total function `seq<byte> -> seq<byte>`. The table maps to `Option<Handler>` because Go accepts `Trigger(cmd, nil)`, and the lookup then treats that command like a missing one.
- Every fatal path is a `Failure` value: `log.Fatal`/`os.Exit` in `lookupTriggers`, `check(err)` after `json.Unmarshal`, and the run-time panic of `make([]byte, Length)` for a negative `Length`.
- JSON is a parameter `json: Json`. What the proofs need from it is stated as predicates:
  - `RoundTrips`: unmarshal undoes marshal.
  - `Framed`: marshal's output is non-empty and neither ends in 0x00.
  - `NoZeroBytes` and `RejectsPrefixes`: properties of JSON text, used only to show that a truncated envelope is rejected.
- `bytes.Trim(data, "\x00")` removes 0x00 from both ends, right end first and then left, so leading zeros are stripped too.
- `Listen` only returns the decoded `Message`; resolving it is a separate call to `ResolveMessageTriggers`.

## Model

| member | source | states |
|---|---|---|
| `Gonet.Connection.constructor` | gonet.go:32-39 | NewConnection keeps the given protocol and length and starts with an empty trigger table |
| `Gonet.Connection.Trigger` | gonet.go:50-52 | after Trigger(cmd, f) the table maps cmd to f even if cmd was registered before; no other key is added, every other entry is unchanged, and protocol and length are untouched |
| `Gonet.Connection.LookupTriggers` | gonet.go:85-94 | returns the stored handler exactly when cmd is present with a non-nil handler; otherwise fails with UnknownCommand (the fatal exit); it reads the table and changes nothing |
| `Gonet.Connection.ResolveMessageTriggers` | gonet.go:97-99 | succeeds exactly when the message's command has a non-nil handler, and the result is that handler applied to the message data; otherwise UnknownCommand |
| `Gonet.Connection.Send` | gonet.go:72-82 | the bytes written to the socket decode back to NewMessage(cmd, data) under the JSON hypotheses |
| `Gonet.Connection.Listen` | gonet.go:56-69 | a negative Length fails as the buffer allocation does; otherwise the result is the decoding of just the first min(\|incoming\|, Length) incoming bytes, because the zero fill is trimmed away |
| `Gonet.ListenRoundTrip` | gonet.go:61-66 | an exported message no longer than Length is received as exactly that message |
| `Gonet.ListenFitsExactly` | gonet.go:61-66 | given JSON's own properties, the message is received intact if and only if its envelope fits in Length bytes; a longer one is cut and fails as MalformedEnvelope |
| `Gonet.TriggerTwice` | gonet.go:50-52 | Trigger(c, h1) then Trigger(c, h2) makes resolving a message for c yield h2(data), leaves other entries as they were, and changes only the trigger table |
| `Gonet.SendListenResolve` | gonet.go:97-99 | a message sent for a registered command is received intact by a listener whose buffer is long enough, and resolves to the handler's output on the data sent |
| `Gonet.EchoScenario` | gonet.go:50-99 | with an "echo" trigger that returns its input, sending data and then listening and resolving gives that data back |
| `Envelope.NewMessage` | gonet.go:118-120 | the message carries exactly the given command and data |
| `Envelope.Export` | gonet.go:125-127 | under the JSON hypotheses the exported bytes are non-empty, have no 0x00 at either end, and decode back to the message |
| `Envelope.Decode` | gonet.go:130-135 | decoding succeeds exactly when the trimmed bytes unmarshal, it then returns the message they unmarshal to, and its only failure is MalformedEnvelope |
| `Envelope.DecodePadded` | gonet.go:130-135 | decoding zeros(a) + e + zeros(b) gives the same result as decoding e, for all a, b |
| `Envelope.TrimRightEnd` | gonet.go:132 | the right-end scan stops at a byte that is not 0x00, or at 0, having skipped only 0x00 bytes |
| `Envelope.TrimLeftStart` | gonet.go:132 | the left-end scan stops at a byte that is not 0x00, or at the end, having skipped only 0x00 bytes |
| `Envelope.TrimZeros` | gonet.go:132 | the trimmed bytes are no longer than the input and have no 0x00 at either end |
| `Envelope.TrimSlice` | gonet.go:132 | the index scan returns bounds start <= stop, the sub-slice between them is the trim, and only 0x00 bytes lie outside it |
| `Envelope.TrimZerosSlice` | gonet.go:132 | the trim is a contiguous sub-slice of its input with only 0x00 bytes removed on either side |
| `Envelope.TrimZerosUnique` | gonet.go:132 | any sub-slice with only zeros outside it and no zero at either end is the trim, so the trim is fully determined by these border conditions |
| `Envelope.TrimZerosIdempotent` | gonet.go:132 | trimming twice is the same as trimming once |
| `Envelope.TrimZerosOfUnpadded` | gonet.go:132 | bytes with no 0x00 at either end are left unchanged |
| `Envelope.TrimZerosEmbedded` | gonet.go:132 | bytes placed anywhere inside a run of zeros trim to what they trim to alone |
| `Envelope.TrimZerosPadded` | gonet.go:132 | zero padding before and after does not change the trim |
| `Envelope.ReceiveBuffer` | gonet.go:61-62 | a negative length fails; otherwise the buffer has exactly Length bytes, holding the incoming bytes followed by zeros when they fit and only their first Length bytes when they do not |
| `Envelope.Zeros` | gonet.go:61 | the zero fill of a fresh buffer has the requested length and holds only 0x00 |

## Left out

- Socket I/O in `Listen` and `Send` (gonet.go:56-82) is not modelled: `net.Listen`, `Accept`, `Read`, `Dial`, `Write`, `Close` and the address and protocol arguments. `Listen` takes the bytes the peer wrote as the parameter `incoming`, and `Send` returns the bytes it would write.
- Gonet.Connection.Listen: a single `Read` may return fewer bytes than the peer wrote, and a read error (EOF on an empty connection, for one) is fatal in Go. The model assumes one read delivers the first min(|incoming|, Length) bytes.
- The errors that `Send` drops from `Export` and `Write` (gonet.go:75, gonet.go:80) are not modelled. Marshalling a `Message` is total in the model.
- The internals of `encoding/json` are left out because it is a foreign library: field names, base64 of `[]byte`, and which texts are rejected. `Json` is an abstract pair, and what the proofs need of it is stated by `RoundTrips`, `Framed`, `NoZeroBytes` and `RejectsPrefixes`.
- The process control in `check`, `log.Fatal` and `os.Exit` (gonet.go:12-16, gonet.go:90-91) is modelled as a `Failure` result, not as termination.
- Handlers are total, pure functions. A Go handler that panics, has side effects or does not return is not modelled.
- Gonet.Connection.constructor: Go's `Connection` is a struct that is copied by value, and the copies share one map. This aliasing is not modelled; the class models one shared table. A zero-value `Connection{}` has a nil map, and `Trigger` on it would panic. Only connections built by `NewConnection` are modelled.
- Go's platform-width `int` for `Length` is unbounded here. The allocation failure of an oversized buffer is not modelled.
- Commands are modelled as Unicode strings (`seq<char>`), while Go strings are arbitrary byte strings. A Go command that is not valid UTF-8 cannot be represented. `json.Marshal` (gonet.go:126) replaces invalid UTF-8 bytes with U+FFFD, so in Go `RoundTrips` holds only for messages whose command is valid UTF-8. A trigger registered under such a command can never be reached by Send, then Listen, then `ResolveMessageTriggers`; the model does not capture that case.
- Concurrent use of the trigger table is not modelled. The table is built on one thread before use.
- client/client.go is not part of this model: it is a TLS dial, a write and a read, and its only logic is the slice `buf[:n]`. gonet_test.go drives an HTTP/TLS server package that is not in the shown sources, so it is not part of this model either. Certificate generation and the TLS server bootstrap are not in the shown sources.
