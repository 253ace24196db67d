# line-server model

A Dafny model of the core of `line-server-exercise`. This is a TCP server
that serves the lines of a text file by index. Clients send `GET n`, `QUIT`
or `SHUTDOWN`, one command per line. The model covers the two parts of
`src/lib.rs` that carry the logic:

- **`handle_client`**: the per-connection session. It reads a line, strips one
  trailing `'\n'`, upper-cases the rest and dispatches on its prefix, in the
  order `GET`, `SHUTDOWN`, `QUIT`.
  - A `GET` line is split on single spaces, and its second token is parsed as a
    `u16` with Rust's `parse::<u16>` rules.
  - The answer is one of:
    - `Ok\r\n<line>\r\n`;
    - an out-of-range error naming the index and the number of lines;
    - a parse error that echoes the Rust error text and the token.
  - Any other line gets the invalid-command error.
  - `SHUTDOWN` ends the session and sends `Shutdown` to the coordinator.
    `QUIT` ends it and sends `Quit(client_id)`.
- **`LineServer::run`**: the coordinator loop. It keeps a registry
  `client_id → task` and a `u16` counter, and reacts to one event at a time:
  - An accepted connection is registered under the current counter, and the
    counter is incremented.
  - `Quit(id)` removes that entry and awaits its task.
  - `Shutdown` returns `Ok`.
  - A failed accept, a failed receive or a failed task makes `run` return an
    error.

The modules follow this structure:

- `wrappers.dfy` (`Wrappers`): `Option` and `Result`.
- `text.dfy` (`Text`): the pieces of the Rust standard library the session
  relies on, written out. They are ASCII upper-casing, `split(' ')`,
  `parse::<u16>` with its three error kinds and their display texts, and
  decimal formatting.
- `session.dfy` (`Session`):
  - `Dispatch` handles one raw line;
  - `Serve` is the specification of a whole session over the replies of its
    lines;
  - `HandleClient` is the session loop, proved to produce exactly `Serve`'s
    writes and message.
- `coordinator.dfy` (`Coordinator`):
  - `Next` and `RunFrom` are the step and run functions of the registry;
  - `LineServer` is the class whose fields `threads` and `clientId` are updated
    in place by `Accept`, `Deliver` and `Handle`;
  - `Run` is the event loop, proved equal to `RunFrom`.

A failed `accept` is fatal: the code applies `?` to the accept result
(`src/lib.rs:56`), so the error ends `run` rather than being logged and
skipped. `ChannelAndAcceptErrorsAreFatal` states this.

The counter `client_id += 1` (`src/lib.rs:66`) is modelled with release-build
wrap-around (`NextId`). Ids are proved fresh while fewer than 65536
connections have been accepted. After the wrap an accept can reuse an id that
is still registered, which replaces that entry (`AcceptAfterWrapReusesId`).
The overwritten session's later `Quit(0)` then removes the new session 0 and
awaits it (`src/lib.rs:76`); the real loop is suspended until that session
ends and accepts or receives nothing meanwhile, not even `Shutdown`, whereas
`Next` continues at once (the join outcome is fixed when a task is accepted).

## Model

| member | source | states |
|---|---|---|
| Text.Upper | src/lib.rs:106 | upper-casing leaves no lower-case letter and changes each character at most by case: it is the same letter, or a lower-case letter turned into its own capital |
| Text.UpperSameUpToCase | src/lib.rs:106 | two strings upper-case to the same text exactly when they differ only in the case of their ASCII letters |
| Text.UpperIdempotent | src/lib.rs:106 | upper-casing twice is the same as once |
| Text.UpperConcat | src/lib.rs:106 | upper-casing works character by character, so it distributes over concatenation |
| Text.StartsWith | src/lib.rs:109 | no contract: `str::starts_with`, the prefix test of the dispatch at lines 109, 132 and 136 |
| Text.Split | src/lib.rs:110 | `split(' ')` always yields at least one piece, even on the empty string |
| Text.SplitPieces | src/lib.rs:110 | no piece contains the separator |
| Text.SplitWithoutSeparator | src/lib.rs:110 | a string without the separator splits into itself alone |
| Text.SplitAtSeparator | src/lib.rs:110-114 | the text up to the first separator is the first piece, and the rest is split the same way |
| Text.JoinSplit | src/lib.rs:110 | joining the pieces with the separator gives back the original string, so splitting loses nothing |
| Text.Decimal | src/lib.rs:124 | the decimal text of a number is non-empty, all digits, and has no leading zero; 0 is written `0` |
| Text.HornerDecimal | src/lib.rs:124 | reading the decimal text back gives the number (round trip) |
| Text.ParseDigits | src/lib.rs:116 | the digit scan never reports the empty-string error |
| Text.ParseDigitsValue | src/lib.rs:116 | on all-digit input the scan yields the decimal value when it is below 65536 and the overflow error otherwise |
| Text.ParseDigitsRejects | src/lib.rs:116 | input with a non-digit is never accepted |
| Text.ParseDigitsStopsAtNonDigit | src/lib.rs:116 | a non-digit after digits that still fit gives the invalid-digit error, whatever follows it |
| Text.ParseDigitsStopsAtOverflow | src/lib.rs:116 | digits that no longer fit give the overflow error, whatever follows them |
| Text.ErrorDetail | src/lib.rs:128 | no contract: the display texts of `ParseIntError` for the empty, invalid-digit and overflow kinds, echoed by `GetBadToken` and the `SampleGetNotANumber` lemma |
| Text.ParseU16 | src/lib.rs:116 | no contract of its own: `parse::<u16>` on a token (the empty error, a lone sign, one optional `+`, then the digit scan); `ParseU16Spec`, `ParseU16InvalidDigit`, `ParseU16Overflow`, `LeadingNonDigit` and `ParseDecimal` characterise it |
| Text.ParseU16Spec | src/lib.rs:116 | `parse::<u16>` succeeds exactly on an optional `+` followed by digits worth less than 65536, with that value; it gives the empty error exactly on the empty token; too-large all-digit text overflows; and a lone `+` or `-` is an invalid digit |
| Text.ParseU16InvalidDigit | src/lib.rs:116 | a token whose digits still fit when the first non-digit comes (`1a2`, `+x`) is an invalid digit |
| Text.ParseU16Overflow | src/lib.rs:116 | a token whose leading digits no longer fit is an overflow, whatever follows (`70000x`) |
| Text.LeadingNonDigit | src/lib.rs:116 | a token that starts with neither a digit nor `+`, such as the negative `-5` or the word `aoeu`, is an invalid digit |
| Text.ParseDecimal | src/lib.rs:116-124 | parsing the decimal text of a `u16` gives it back (round trip) |
| Session.Normalize | src/lib.rs:102-106 | a terminated line loses exactly its last character and has no lower-case letter; an unterminated line becomes the empty command |
| Session.NormalizeStripsOneLineFeed | src/lib.rs:102-106 | putting the removed line feed back gives the upper-cased raw line |
| Session.OkResponse | src/lib.rs:120 | no contract: the `Ok\r\n<line>\r\n` answer, fixed on the sample store by `SampleGetFirst` |
| Session.OutOfRangeResponse | src/lib.rs:124 | no contract: the out-of-range error naming the index and the line count, fixed on the sample store by `SampleGetOutOfRange` |
| Session.BadIndexResponse | src/lib.rs:128 | no contract: the parse error answer echoing the error text and the token, fixed on the sample store by `SampleGetNotANumber` |
| Session.InvalidCommandResponse | src/lib.rs:142 | no contract: the invalid-command error echoing the command, fixed on the sample store by `SampleInvalidCommand` |
| Session.GetResponse | src/lib.rs:110-129 | no contract: the `GET` branch's answer; `GetLineTokens`, `GetByIndex`, `GetBadToken` and `GetCommand` characterise it |
| Session.Dispatch | src/lib.rs:109-143 | a line that ends the session writes nothing |
| Session.NormalizedPrefix | src/lib.rs:102-109 | a prefix test on the normalised command equals the same test on the upper-cased raw line |
| Session.DispatchIgnoresCase | src/lib.rs:102-109 | two lines that differ only in the case of their letters are handled identically |
| Session.UnterminatedIsInvalid | src/lib.rs:102-104 | a line without a final line feed becomes the empty command, which the last branch (lines 140-142) answers as invalid |
| Session.UpperNoSpace | src/lib.rs:106-110 | upper-casing adds no space, so the token boundaries of a line survive it |
| Session.GetLineTokens | src/lib.rs:109-114 | a line whose first word starts with `GET` in any case (so `GETX` too), followed by a space, a token and optionally more space-separated text, reaches the `GET` branch with the upper-cased token as its second token |
| Session.GetByIndex | src/lib.rs:116-125 | for any such line whose upper-cased token parses to `n` (`7`, `007`, `+7`), the answer is line `n` when it exists and otherwise the out-of-range error with `n` and the line count; the session continues |
| Session.GetByDecimal | src/lib.rs:116-125 | `GET n` in any case with `n` in decimal answers line `n` or the out-of-range error |
| Session.GetNonNumeric | src/lib.rs:127-129 | `GET` with a word or a negative number (`GET aoeu`, `GET -5`) gets the invalid-digit error echoing the upper-cased token |
| Session.GetBadToken | src/lib.rs:127-129 | for any such line whose upper-cased token fails to parse, the answer is the parse error text with the upper-cased token, and the session continues |
| Session.GetCarriageReturn | src/lib.rs:127-129 | a `"\r\n"`-terminated `GET n` is rejected as an invalid digit, echoing the digits and `'\r'` |
| Session.ShutdownCommand | src/lib.rs:132-135 | a line ends the session with `Shutdown` exactly when it is terminated and its upper-cased form starts with `SHUTDOWN` |
| Session.QuitCommand | src/lib.rs:136-139 | a line ends the session with `Quit` exactly when it is terminated and its upper-cased form starts with `QUIT` |
| Session.GetCommand | src/lib.rs:109-114 | every `GET`-prefixed line continues the session, and one without a space gets no answer |
| Session.OtherCommand | src/lib.rs:140-142 | any other terminated line gets the invalid-command error echoing the normalised command |
| Session.Replies | src/lib.rs:98-106 | each input line, taken on its own, gets one reply; `Serve` uses only those up to the first ending command |
| Session.Serve | src/lib.rs:98-145 | a session sends nothing, `Shutdown` or `Quit` of its own id, and writes at most one response per line |
| Session.ServeUpToFirstEnd | src/lib.rs:98-145 | a session writes the responses of the lines before the first ending command and then sends that command's message; without one it writes all and sends nothing |
| Session.ServeAnswers | src/lib.rs:98-131 | when every line is answered, the session writes those answers in order and sends nothing |
| Session.GetRequestAt | src/lib.rs:116-121 | the request `GET k` for an existing line `k` is answered with that line, in a store of up to 65536 lines |
| Session.ServeEveryLine | src/lib.rs:116-121 | in a store of up to 65536 lines, asking `GET 0`, `GET 1`, … in order returns every line of the file in order |
| Session.HandleClient | src/lib.rs:88-146 | the session loop writes exactly the responses, and sends exactly the message, that `Serve` prescribes |
| Session.SampleGetFirst | src/lib.rs:116-121 | on the store `the`, `quick brown`, `fox`, `jumps`, `GET 0` answers `Ok\r\nthe\r\n` |
| Session.SampleGetSecond | src/lib.rs:102-121 | lower-case `get 1` answers the second line |
| Session.SampleGetOutOfRange | src/lib.rs:122-125 | `GET 999` reports that only 4 lines are available |
| Session.SampleDecimals | src/lib.rs:124 | 999 and 4 are written `999` and `4` |
| Session.SampleGetNotANumber | src/lib.rs:127-129 | `GET abc` reports an invalid digit and echoes `ABC` |
| Session.SampleInvalidCommand | src/lib.rs:140-142 | `FOO` is answered with the invalid-command error echoing `FOO` |
| Session.ControlMessage | src/lib.rs:132-139 | no contract: `SHUTDOWN` sends `Shutdown` and `QUIT` sends `Quit` with the session's own id; `Serve`'s contract and `SessionQuitRetiresItself` use it |
| Coordinator.Next | src/lib.rs:54-83 | no contract: one iteration of the loop; `NextKeepsInv`, `AcceptFreshId`, `QuitRemovesOnlyId`, `QuitOfFailedSession`, `QuitUnknownId`, `OnlyShutdownIsDone` and `ChannelAndAcceptErrorsAreFatal` characterise it |
| Coordinator.NextId | src/lib.rs:66 | the counter advances by one modulo 65536 |
| Coordinator.RunFrom | src/lib.rs:53-84 | a run that stops has consumed at least one and at most all events |
| Coordinator.Accepts | src/lib.rs:55-67 | counts the accept events, the count by which `RunKeepsInv` advances the invariant; its contract is only the bound that the count does not exceed the events |
| Coordinator.NextKeepsInv | src/lib.rs:61-79 | one step keeps the registry invariant: the counter is the number of accepts modulo 65536, every entry is keyed by its own id, and every key is below the counter while there have been fewer than 65536 accepts |
| Coordinator.AcceptFreshId | src/lib.rs:61-66 | while fewer than 65536 clients have been accepted, an accept registers the new task under an unused id, grows the registry by one and raises the counter |
| Coordinator.AcceptAfterWrapReusesId | src/lib.rs:65-66 | after exactly 65536 accepts the counter is back at 0, and an accept while id 0 is still registered replaces that entry |
| Coordinator.QuitRemovesOnlyId | src/lib.rs:74-76 | `Quit(id)` for a task that returned removes exactly that entry and changes nothing else |
| Coordinator.QuitOfFailedSession | src/lib.rs:74-76 | awaiting a removed task that failed ends `run` with that failure |
| Coordinator.QuitUnknownId | src/lib.rs:74-79 | `Quit` for an unregistered id changes nothing and the loop continues |
| Coordinator.QuitTwice | src/lib.rs:74-79 | after a `Quit(id)` that continues, the id is gone and a second `Quit(id)` is a no-op |
| Coordinator.OnlyShutdownIsDone | src/lib.rs:70-72 | a step returns `Ok` exactly on `Shutdown` |
| Coordinator.ChannelAndAcceptErrorsAreFatal | src/lib.rs:56-69 | a failed accept and a failed receive each end `run` with an error |
| Coordinator.RunKeepsInv | src/lib.rs:45-84 | a run that is still going keeps the registry invariant, counting every accept |
| Coordinator.StillRunningNoShutdown | src/lib.rs:53-84 | a run that has not returned has seen no `Shutdown`, no failed accept and no failed receive |
| Coordinator.RunReturnsOkOnlyOnShutdown | src/lib.rs:53-84 | a run that stops returns `Ok` exactly when the last event it consumed is `Shutdown`, and no earlier event was a `Shutdown` or a fatal error |
| Coordinator.SessionQuitRetiresItself | src/lib.rs:74-76 | the `Quit` a session sends (lines 136-139), once received, removes exactly that session's own entry |
| Coordinator.LineServer.constructor | src/lib.rs:45-46 | the server starts with an empty registry and counter 0 |
| Coordinator.LineServer.Accept | src/lib.rs:61-66 | inserts the new task under the current counter, which was unused while fewer than 65536 accepts have happened, and advances the counter |
| Coordinator.LineServer.Deliver | src/lib.rs:68-82 | handles a received message exactly as the step function prescribes, updating the registry in place |
| Coordinator.LineServer.Handle | src/lib.rs:54-83 | handles any event exactly as the step function prescribes |
| Coordinator.Run | src/lib.rs:53-84 | the event loop returns what `RunFrom` prescribes from the empty registry |

## Left out

- Sockets: the TCP listener, `read_line`, `write_all` and `shutdown` are left out. A session is given its input lines as a sequence and returns what it writes.
- `write` at `src/lib.rs:141` may be partial. The model writes the whole invalid-command response.
- End of input: at end of stream `read_line` returns 0 and the real session keeps answering the empty invalid command until a read or write on the connection fails (a peer that has closed its socket resets the connection), which ends the session with an error and without `Quit` (see the I/O-errors line); a peer that stops reading makes the session block on a full send buffer instead. The model ends the session when its input runs out (`Serve` with no message sent).
- I/O errors end a session with an error, and are left out. These are read errors, including input that is not valid UTF-8, which `read_line` rejects (`src/lib.rs:100`); write errors; a failed `stream.shutdown` (`src/lib.rs:134` and `src/lib.rs:137`); and a failed `tx.send`. A session that fails before it sends `Quit` stays registered, and its failure never reaches `run` — unless, after the counter wraps, an older session with the same id later sends its `Quit`: the failed session was inserted over the older one's entry (`src/lib.rs:65`), so that `Quit` removes and awaits the failed session (`src/lib.rs:75-76`) and `run` returns its error.
- Concurrency: the `tokio::select!` race between accept and receive is modelled as a given sequence of events.
  - Spawning and joining tasks are not modelled. The result of awaiting a task (`JoinOutcome`) is fixed when it is accepted.
  - When `run` returns, other sessions are left running. The model does not follow them.
- The broadcast channel's capacity of 1000, lagging and closing are left out. Every receive error is one `ReceiveFailed` event.
- Loading the line file: lines are given as a sequence, and an error opening or reading the file is not modelled. The same goes for command-line parsing, the default port, `src/main.rs` and all logging, including the messages at `src/lib.rs:111-113` and `src/lib.rs:78`.
- Upper-casing covers ASCII letters only. Rust's `to_uppercase` also maps other Unicode letters, some into several characters.
- Coordinator.NextId: follows release-build wrap-around. A debug build panics on the 65536th accept instead.
- The ordering between a session's `shutdown` of its stream and its message to the coordinator is not modelled.
- Stores longer than 65536 lines: an index is a `u16`, so `ServeEveryLine` is stated for stores of at most 65536 lines. In a longer store, the lines from index 65536 on can never be fetched: `GET 65536` gets the overflow parse error (`src/lib.rs:127-128`), not the out-of-range error.
- The indexing expectations in `src/tests.rs` disagree with `src/lib.rs:118` and `src/lib.rs:124`. The model follows `src/lib.rs`, where line `n` is the `n`th zero-based line and the count in the out-of-range error is the number of lines.
