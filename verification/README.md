# Verified models of the `net/` libraries

This project models the protocol and parsing libraries under `net/` of the flexswitch tree in Dafny and
proves what they are for. Nothing here runs the original program. Each module follows one part of the source:

- `Utf8`, `Punycode`, `PunycodeLaws`: the Punycode encoder and decoder of `net/idna`, in int32 arithmetic, with the exact
  condition under which a label survives both, and what its numbers are by RFC 3492.
- `Flow`, `Streams`, `WriteSched`, `Priority`, `Body`, `ServerLaws`, `Ledger`, `Lives`, `Server`, `Wiring`, `Connection`: the HTTP/2
  server core of `net/http2`. Flow-control windows, the frame scheduler with its queue pool, the priority forest, request bodies, the
  serve loop as a state machine whose runs keep the laws of the stream table and of both directions of flow control and
  whose history explains every counter and the life of every stream, and how these parts fit each other.
- `Frames`, `FrameLaws`, `Framer`, `ConnPool`: HTTP/2 frames as bytes, the layout of every kind, the order in which they may
  come, header blocks cut into frames, and the client's connection index.
- `HtmlSyntax`, `HtmlLaws`, `HtmlTags`, `HtmlMarkup`, `HtmlTokenizer`, `HtmlEscape`, `HtmlReferences`, `HtmlRoundTrip`,
  `HtmlNode`: the HTML tokenizer of `net/html` as functions of the whole input, what these mean, in characters, and the
  buffered program that refines them; character references decoded in place, escaping, and the node tree.
- `Context`: the cancellation tree of `net/context`.
- `Interfaces`, `Icmp`, `IcmpLaws`: checksum, multipart bodies and interface information of `net/icmp`.
- `Machine`, `ByteSeqs`: 32-bit integers and byte buffers, shared by the others.

Code that changes state is modelled by classes and methods with loops, proved against functions on values; the laws are
lemmas about those functions. `dafny verify dfyconfig.toml` checks everything.

Three conventions recur. A method whose name is that of a source function is its body, branch by branch. Parameters and
fields marked `ghost` (sets of all objects, histories, positions in the input) exist for the proofs only. Where a
property that the source or its comments suggest is not true of the code, the code is kept and the exact condition is
proved: `Flow.AddKeepsPromiseIff`, `Punycode.RoundTrip`, `Frames.RoundTrip`, `HtmlLaws.RawTextExact`, `HtmlLaws.ScriptExact`,
`HtmlLaws.CommentExact`, `HtmlReferences.NumericExact`, `Interfaces.InfoRoundTrip` and `Icmp.MultipartRoundTrip` are of this
kind.

## Where the code and its comments differ

- `net/http2/flow.go:41-42` promises that `add` fails only above 2^31-1. On a negative window it refuses
  every increment, unless the sum is below the least int32 and wraps. So the server resets a stream whose window a
  SETTINGS change made negative as soon as the peer opens it again (`Server.NegativeWindowRefused`).
- `net/http2/server.go:1293-1295` takes it for granted that an open stream has a body. It has none if its request headers
  did not decode: the connection is then being shut down, but frames are still taken up, and DATA for the stream makes
  the serve loop panic (`Server.DataWithoutBody`). `net/http2/server.go:1435-1436` and `net/http2/server.go:1494-1515`
  dereference nil for CONTINUATION on a stream that is not in the table, for trailers with a field that is not allowed
  and for trailers on a stream without a body. `Server.ServerConn.Serve` says that the loop fails at these events and at
  no other event of the model.
- `net/idna/punycode.go:123` tests for overflow after the int32 addition; the decoder also refuses deltas that the
  encoder writes for long labels. The model keeps both.
- `net/http2/frame.go` writes some frames that its own parsers refuse or read differently: HEADERS without a fragment,
  dependencies and last streams with the reserved bit, settings with an initial window above 2^31-1.
- `net/icmp/multipart.go:79-84` keeps only the low byte of the datagram's length.
- `net/html/token.go:345-351` does not look again at the byte behind a `<` in raw text, so that some end tags are run
  over; `HtmlLaws.RawTextExact` says which. `net/html/token.go:626-640` does not count the byte behind `--!` as a dash, so
  that some closings of comments are run over; `HtmlLaws.CommentExact` says which.
- `net/html/token.go:663-752` takes what could still become a keyword out of a token's data when the input ends within it,
  so that `<!DOCT` at the end is an empty comment, while `<!>` at the end is a comment that says `>`;
  `HtmlMarkup.DeclarationExact` keeps both.
- `net/html/escape.go:106-109` means to leave references without digits alone, but its count also leaves alone those of one
  decimal digit without a semicolon (`HtmlReferences.OneDigitLeft`), and replaces `&#x;`, which has none.
- `net/icmp/interface.go:140-163` reads only the family of an address of an unknown family, not the address
  (`IcmpLaws.AddressExact`).

## Model

| member | source | states |
|---|---|---|
| `Punycode.RoundTrip` | net/idna/punycode.go:31-200 | decoding an encoded label gives the label back if and only if it is all ASCII or no guard of the decoder refuses one of its deltas; the condition is computed from the code points alone |
| `Punycode.ShortLabelsSurvive` | net/idna/punycode.go:31-200 | every label of at most 139 code points, so every label within the DNS limit, survives encoding and decoding |
| `Punycode.LongLabelLost` | net/idna/punycode.go:78-88 | 1025 times U+00E9: a label for which the round trip fails |
| `Punycode.HeavyLabelLost` | net/idna/punycode.go:60-76 | 400 times the letter a and then U+10FFFF: a label of only 401 code points for which it fails, because the decoder refuses the weight of the last digit |
| `Punycode.ScanSim` | net/idna/punycode.go:127-157 | the encoder in mid-scan and the decoder, fed what it writes next, pass through the same point, position and bias, insertion by insertion |
| `Punycode.RoundSim` | net/idna/punycode.go:115-160 | the same over whole rounds: after all rounds the decoder holds the code points of the label in order, and consumed all digits |
| `Punycode.VarRoundTrip` | net/idna/punycode.go:50-77 | a delta written as a variable-length integer is read back as that delta and leaves the digits behind it alone, exactly while its weights fit int32 |
| `Punycode.LightFits` | net/idna/punycode.go:60-76 | a delta below a fixed bound never makes a weight overflow, whatever the bias |
| `Punycode.BiasBound` | net/idna/punycode.go:187-200 | the bias always lies between 0 and 202, whatever delta and number of points it adapts to |
| `Punycode.Adapt` | net/idna/punycode.go:187-200 | the loop in int32 arithmetic computes the bias whose closed form is PunycodeLaws.BiasClosed |
| `Punycode.ReadVar` | net/idna/punycode.go:50-77 | the inner decoding loop in int32 arithmetic either computes the mathematical value of the integer or refuses; no wrapped value gets out |
| `Punycode.InsertPoint` | net/idna/punycode.go:78-88 | one insertion in int32 arithmetic: the code point lies in 128..0x10FFFF and its place inside the output, or decoding fails |
| `Punycode.InsertAll` | net/idna/punycode.go:43-89 | the outer decoding loop is the recursive decoder of section 6.2 of RFC 3492 with the program's refusals |
| `Punycode.DecodeAt` | net/idna/punycode.go:38-90 | basic code points are copied up to the last hyphen, then the insertions are run |
| `Punycode.Decode` | net/idna/punycode.go:31-91 | decode computes the specified result or error for every byte string; what the digits mean is PunycodeLaws.ReadExact, and where a code point goes InsertMeans |
| `Punycode.DecodedPoints` | net/idna/punycode.go:78-88 | every code point of a decoded label was among the basic ones or lies between the starting point 128 and 0x10FFFF |
| `Punycode.DecodedLength` | net/idna/punycode.go:43-89 | no label of more than 1024 code points comes out of the insertions |
| `Punycode.WriteVar` | net/idna/punycode.go:138-152 | the digit loop writes the generalized variable-length integer of section 3.3 of RFC 3492 |
| `Punycode.LeastAtLeast` | net/idna/punycode.go:116-121 | the minimum loop finds the least code point that is still to be handled |
| `Punycode.Scan` | net/idna/punycode.go:127-157 | one pass over the label emits the deltas of one code point, or fails on int32 overflow as the program does |
| `Punycode.CopyBasic` | net/idna/punycode.go:103-114 | the basic code points are copied in order behind the prefix, and the others counted |
| `Punycode.Rounds` | net/idna/punycode.go:115-160 | the outer encoding loop handles the remaining code points in increasing order |
| `Punycode.Encode` | net/idna/punycode.go:98-162 | encode computes the specified label or error for every prefix and string; what the label looks like is PunycodeLaws.LabelShape and WrittenValue, and when it decodes to the string Punycode.RoundTrip |
| `Punycode.EncodeDigit` | net/idna/punycode.go:176-184 | an encoded digit decodes to itself, and is never the hyphen that ends the basic code points |
| `Utf8.DecodeEncodeRune` | net/idna/punycode.go:78-90 | a code point written as UTF-8 is read back as itself, whatever follows it |
| `Utf8.RunesOfFromRunes` | net/idna/punycode.go:78-90 | ranging over the UTF-8 text of a sequence of runes gives the runes, with those that are not code points replaced |
| `PunycodeLaws.BiasClosed` | net/idna/punycode.go:187-200 | the bias in closed form, with the numbers of section 5 of RFC 3492: the delta over 700 the first time and over 2 afterwards, plus its share per point; divided by 35 as often as it takes, and no more, to come down to 455; 36 for each division, plus 36 times the rest over the rest plus 38 |
| `PunycodeLaws.Alphabet` | net/idna/punycode.go:164-173 | the digits are the letters in either case for 0 to 25 and the decimal digits for 26 to 35, and no other byte is one |
| `PunycodeLaws.WrittenDigit` | net/idna/punycode.go:176-184 | a digit is written as a lower-case letter or a decimal digit |
| `PunycodeLaws.WrittenValue` | net/idna/punycode.go:138-152 | the digits that are written stand for the delta, in the mixed base of section 3.3 of RFC 3492: the sum of each digit times the product of 36 less the thresholds before it; only the last is below its threshold |
| `PunycodeLaws.ReadValue` | net/idna/punycode.go:50-77 | conversely, whatever is read as an integer are digits with that value, and reading goes on behind them |
| `PunycodeLaws.ReadExact` | net/idna/punycode.go:50-77 | digits that make up one integer are read as its value, added to the running total, unless that is above 2^31-1 or a weight is 59652323 or more: then, and only then, they are refused |
| `PunycodeLaws.InsertMeans` | net/idna/punycode.go:78-88 | a total is a code point and a place: as many places are passed as there are, code point by code point; it is refused exactly beyond U+10FFFF and behind 1024 code points |
| `PunycodeLaws.LabelShape` | net/idna/punycode.go:98-162 | an encoded label is the prefix, the ASCII characters in order, a hyphen if there are any, and then, exactly if there are others, digits |
| `PunycodeLaws.LabelInFull` | net/idna/punycode.go:31-162 | one label in full, both ways: the text U+00E4 U+00F6 and "4ca0b" |
| `Utf8.DecodeRuneExact` | net/idna/punycode.go:78-90 | what is read off bytes is the code point whose UTF-8 form stands there; if no code point's does, one byte is read as U+FFFD |
| `Flow.AddKeepsPromiseIff` | net/http2/flow.go:41-50 | add does what its comment promises, for every increment, if and only if the window is not negative; on a negative window the room left wraps, and every increment is refused unless the sum is below the least int32 |
| `Flow.Window.Available` | net/http2/flow.go:23-29 | the lesser of a stream's window and its connection's |
| `Flow.Window.Take` | net/http2/flow.go:31-39 | both windows go down by what is taken, and neither below zero: the panic is unreachable |
| `Flow.Window.Add` | net/http2/flow.go:43-50 | the window after an increment, in int32 arithmetic, and whether it was accepted |
| `WriteSched.WriteScheduler.Add` | net/http2/writesched.go:83-90 | a frame joins the end of its stream's queue or of the control queue; every queue's history still adds up |
| `WriteSched.WriteScheduler.StreamQueue` | net/http2/writesched.go:92-102 | a stream has one queue, made from the pool when it has none, with what was queued kept |
| `WriteSched.WriteScheduler.GetEmptyQueue` | net/http2/writesched.go:71-79 | a queue from the pool is empty and in use nowhere else |
| `WriteSched.WriteScheduler.PutEmptyQueue` | net/http2/writesched.go:64-69 | the pool holds only empty queues that are in use nowhere, each once |
| `WriteSched.WriteScheduler.Take` | net/http2/writesched.go:107-147 | take fails exactly when no control frame is queued and every stream's head is DATA with a closed window; what was taken followed by what is queued is, for every stream, what was added, in order; control frames come first and DATA last; windows pay exactly for the DATA taken |
| `WriteSched.WriteScheduler.Choose` | net/http2/writesched.go:121-146 | a stream that can send is found if there is one, and one whose frame costs nothing before any that pays |
| `WriteSched.WriteScheduler.FirstCanSend` | net/http2/writesched.go:128-155 | canSend collects streams with open windows and is empty again afterwards |
| `WriteSched.WriteScheduler.FindNoCost` | net/http2/writesched.go:121-126 | a frame that costs nothing is found if any stream has one at its head |
| `WriteSched.WriteScheduler.StreamWritableBytes` | net/http2/writesched.go:161-178 | a stream can write DATA exactly if both its windows are open |
| `WriteSched.WriteScheduler.TakeFrom` | net/http2/writesched.go:180-228 | the head frame whole, or a chunk of its DATA that fits frame size and windows, without end of stream and without a report; the chunk and the rest make up the frame |
| `WriteSched.WriteScheduler.TakeChunk` | net/http2/writesched.go:198-217 | the rest of a split frame stays at the head with its end of stream and its report |
| `WriteSched.WriteScheduler.TakeHead` | net/http2/writesched.go:222-227 | a queue that runs empty leaves the table for the pool |
| `WriteSched.WriteScheduler.ForgetStream` | net/http2/writesched.go:230-243 | everything queued for the stream goes, nothing else does |
| `WriteSched.ConservedAdd` | net/http2/writesched.go:83-90 | adding keeps the history of a queue balanced |
| `WriteSched.ConservedTake` | net/http2/writesched.go:107-228 | taking a frame or a chunk keeps the history of every queue balanced |
| `WriteSched.ConservedForget` | net/http2/writesched.go:230-243 | forgetting a stream clears its account and no other |
| `WriteSched.ChunkUnits` | net/http2/writesched.go:198-217 | splitting DATA moves octets, in order, and nothing else |
| `Priority.Forest.Run` | net/http2/server.go:1523-1557 | over every run of opened, closed and reprioritized streams the parent pointers of all streams ever made stay free of cycles |
| `Priority.AdjustStreamPriority` | net/http2/server.go:1523-1557 | over the pointers themselves: the stream has the parent that was named, or none if that is not open; if that was below it, it now has the parent that the stream had; with an exclusive change the other open children of the new parent now hang from the stream; every other pointer is as it was, the weight is the one that was sent, and the pointers are still a forest (section 5.3.3 of RFC 7540); nothing moves if a stream is made to depend on itself or is not open |
| `Priority.IsAncestor` | net/http2/server.go:1543-1548 | the walk up the parents ends, and tells whether a stream is above |
| `Priority.Reparent` | net/http2/server.go:1539-1549 | the same over the pointers for the first half: a stream made to depend on one of its own dependents first gives it its place, and no other pointer changes |
| `Priority.AdjustedRearranges` | net/http2/server.go:1523-1557 | the function that specifies the change does what section 5.3.3 of RFC 7540 says of pointers |
| `Priority.MoveUnder` | net/http2/server.go:1545-1549 | setting one parent pointer, to a stream that is not below, leaves a forest |
| `Priority.AdoptSiblings` | net/http2/server.go:1550-1556 | the loop over the open streams, in any order, hands exactly the siblings to an exclusive stream |
| `Priority.ExclusiveIsAlone` | net/http2/server.go:1550-1556 | after an exclusive change on an open parent or on stream 0 no other open stream has that parent (section 5.3.1 of RFC 7540) |
| `Priority.AncestryAcyclic` | net/http2/server.go:1543-1548 | in such a forest a walk upward never returns and ends after as many steps as there are ancestors |
| `Priority.MoveKeepsAncestry` | net/http2/server.go:1543-1549 | moving a stream under one that is not below it leaves a forest |
| `Priority.Forest.Reprioritize` | net/http2/server.go:1523-1557 | one change of priority on the connection's streams |
| `Priority.Forest.OpenStream` | net/http2/server.go:1387-1405 | a new stream is a root and disturbs nobody |
| `Body.FixedBuffer.Read` | net/http2/fixed_buffer.go:25-36 | reading moves the front of the contents out, wherever they lie in the buffer |
| `Body.FixedBuffer.Len` | net/http2/fixed_buffer.go:39-41 | the number of unread bytes |
| `Body.FixedBuffer.Write` | net/http2/fixed_buffer.go:45-60 | writing appends as much as the capacity allows, sliding the unread bytes when they are in the way; it fails exactly when something does not fit |
| `Body.FixedBuffer.Slide` | net/http2/fixed_buffer.go:46-50 | sliding keeps the contents |
| `Body.Pipe.Read` | net/http2/pipe.go:34-56 | a break is seen at once, a close only when everything written has been read |
| `Body.Pipe.Write` | net/http2/pipe.go:62-73 | nothing is written after a close; the buffer decides otherwise |
| `Body.Pipe.CloseWithError` | net/http2/pipe.go:91-108 | the first close decides, later ones change nothing |
| `Body.Pipe.BreakWithError` | net/http2/pipe.go:82-108 | the first break decides, and drops code that a close left to be run |
| `Server.ServerConn.Run` | net/http2/server.go:675-760 | over every run of frames, frame errors, writes and handler acts, up to the event at which the loop fails if it comes to one, the laws of the stream table, of the limit on streams and of both directions of flow control hold, no closed stream is ever open again, and the history of the run explains every counter: a window is what was granted less what was released, and what a handler has read followed by what is unread is what the peer sent and was stored, byte for byte; over the same history every stream lives as section 5.1 of RFC 7540 says (Lives.Lived): after the peer has ended it, it is never open again and all DATA for it is an error of the stream, and it was closed, reset or held to be whole only by an entry that says so |
| `Server.ServerConn.Serve` | net/http2/server.go:1026-1133 | one turn of the loop keeps all of that, errors included, and adds one entry to the history; the loop fails if and only if DATA comes for the open stream whose request headers never came to a good end, CONTINUATION for a stream that is not in the table, or trailers end with a field that is not allowed or on a stream without a body; at DATA it fails only once the connection is being shut down; what the entry says happens to every stream happens, and nothing else (Lives.Moves) |
| `Server.LegalFrames` | net/http2/frame.go:468-502 | which frames a turn is for: any, with the numbers that fit their fields, while no header block is unfinished; and while one is, only CONTINUATION frames of its stream |
| `Server.ServerConn.constructor` | net/http2/server.go:203-227 | a new connection has no streams, windows of 65535 and an empty history |
| `Server.ServerConn.State` | net/http2/server.go:444-460 | a stream is idle exactly above the largest identifier, and in the table exactly if neither idle nor closed |
| `Server.ServerConn.CloseStream` | net/http2/server.go:1179-1195 | a stream leaves the table once; the panic on an idle or closed stream is unreachable |
| `Server.ServerConn.ResetStream` | net/http2/server.go:1014-1021 | a stream error closes the stream if it is in the table and touches no other |
| `Server.ServerConn.ProcessResetStream` | net/http2/server.go:1160-1177 | RST_STREAM closes the stream, and is a connection error exactly on an idle one |
| `Server.ServerConn.OpenStream` | net/http2/server.go:1387-1416 | a new stream has fresh windows, no body yet, an identifier never seen before, and a place in the table |
| `Server.ServerConn.ProcessHeaders` | net/http2/server.go:1351-1417 | which HEADERS open a stream, which begin trailers, which are errors or ignored; no identifier is opened twice |
| `Server.ServerConn.ProcessBlock` | net/http2/server.go:1442-1492 | where a request's headers end: beyond the advertised number of streams, or malformed, the stream is to be reset; otherwise it gets its body and its declared length |
| `Server.ServerConn.ProcessTrailer` | net/http2/server.go:1419-1431 | trailers come once, and must end the stream |
| `Server.ServerConn.ProcessTrailerBlock` | net/http2/server.go:1494-1515 | the end of trailers closes the body, as a whole one exactly if as much has come as was declared, and half-closes the stream; where the block did not decode that is a connection error, and where a field is not allowed or there is no body the source fails |
| `ServerLaws.TrailerBlockKeeps` | net/http2/server.go:1494-1515 | whatever comes of the trailers' block, the laws hold |
| `ServerLaws.TrailerBlockPanics` | net/http2/server.go:1494-1515 | when exactly the end of trailers fails |
| `Server.ServerConn.ProcessContinuation` | net/http2/server.go:1433-1440 | CONTINUATION goes to the trailers or to the request's headers; for a stream that is not in the table the source fails |
| `Server.ServerConn.ServeHeaders` | net/http2/server.go:1026-1076 | after every HEADERS or CONTINUATION, whatever comes of it, no more streams than advertised have a request (section 5.1.2 of RFC 7540); which of them the loop fails at |
| `Server.ServerConn.ServeBadFrame` | net/http2/server.go:1026-1076 | a stream error of the frame reader, which may come at any time, resets its stream and keeps the laws |
| `Server.ServerConn.ProcessWindowUpdate` | net/http2/server.go:1135-1158 | an increment is added to the stream's or the connection's window if and only if that window is not negative and the sum is at most 2^31-1; otherwise it is an error, which on a negative window section 6.9.1 of RFC 7540 does not ask for |
| `Server.NegativeWindowRefused` | net/http2/server.go:1135-1158 | a run of the server that shows it: a request, 100 bytes of the answer, an initial window of 0, and the WINDOW_UPDATE of 100 is refused |
| `Server.ServerConn.ProcessSettingInitialWindowSize` | net/http2/server.go:1250-1276 | every window in the table moves by the difference, possibly below zero, and the window law holds for the new value; it is an error exactly if some window is negative already or would become too large |
| `ServerLaws.AcceptedIff` | net/http2/flow.go:41-50 | of the increments that a peer can ask for, add accepts exactly those that leave a window that was not negative at most 2^31-1, and adds them exactly |
| `ServerLaws.ShiftAll` | net/http2/server.go:1262-1274 | the loop over the table, in any order, up to the first window that refuses |
| `ServerLaws.ShiftSend` | net/http2/server.go:1250-1276 | a change of the initial window that reaches every stream keeps every window equal to initial window plus increments less bytes released |
| `ServerLaws.ShiftRefusedIff` | net/http2/server.go:1262-1274 | which windows refuse the change |
| `Server.ServerConn.TakeData` | net/http2/writesched.go:180-228 | DATA released within both windows leaves both at zero or above, even after SETTINGS drove windows negative |
| `Server.ServerConn.ProcessData` | net/http2/server.go:1278-1322 | which DATA is stored, where the source fails for want of a body, and that everything else is an error on its stream; received bytes are charged to both windows exactly if they were within them |
| `ServerLaws.ReceiveData` | net/http2/server.go:1278-1339 | the checks of processData in their order, the one for a body included, and the stream they leave, that endStream half-closes; which DATA is stored is said without them by ServerLaws.DataAccepted |
| `ServerLaws.DataAccepted` | net/http2/server.go:1278-1322 | DATA is stored if and only if its stream is open, with a body, without trailers, and the bytes are within the declared length and, if there are any, within both windows and before the body was closed |
| `ServerLaws.RequestAccepted` | net/http2/server.go:1351-1492 | headers in one frame open a stream if and only if the connection is not being shut down, the identifier is odd and above all before it, no other headers are unfinished, the request is well-formed and fewer streams are open than advertised; which of them are reset instead; and what the new stream is |
| `Lives.LivedNext` | net/http2/server.go:1026-1133 | the lives of all streams go on from step to step: whoever the history says has ended, reset or answered a stream left it half-closed or closed, a reset was sent only for an error or because the answer was complete before the peer was done, and a stream on which both sides are done is closed without one |
| `Lives.StoredLived` | net/http2/server.go:1303-1339 | DATA that says END_STREAM and is stored half-closes its stream and ends its body |
| `Lives.RefusedMoves` | net/http2/server.go:1026-1076 | DATA that is refused resets its stream, whatever was found wrong with it |
| `Lives.WroteMoves` | net/http2/server.go:921-941 | the last frame of an answer closes its stream, with a reset if and only if the peer was still sending |
| `Lives.RstMoves` | net/http2/server.go:1160-1177 | RST_STREAM closes its stream as one that the peer has reset, and no other is touched |
| `Lives.LengthIsKept` | net/http2/server.go:1284-1317 | over every run, no more of a body is stored than its request declared |
| `Lives.WholeBody` | net/http2/server.go:1326-1339 | over every run, a body that is held to be whole is: the peer has ended the stream, and has sent exactly what it declared, if it declared anything |
| `Wiring.EndBody` | net/http2/server.go:1326-1339 | the pipe is closed with the end of the body if as much has come as was declared, with an error if less has, and a pipe that is closed already stays as it is |
| `ServerLaws.JudgedNoBody` | net/http2/server.go:1284-1295 | the check that a stream has a body fails if and only if the stream is open, without trailers, and the one whose request headers are unfinished |
| `Server.DataWithoutBody` | net/http2/server.go:1293-1295 | a run that comes to it: headers that do not decode, which is a connection error, and then any DATA for the stream |
| `Server.ServerConn.ServeData` | net/http2/server.go:1026-1076 | one DATA frame in the loop: stored, or its stream is reset and nothing that windows or bodies hold has changed, or the loop fails |
| `ServerLaws.DataKeeps` | net/http2/server.go:1303-1317 | DATA that the windows allow never finds the 65535-byte body buffer full, and window, buffered, unnoted and refused bytes still make up 65535 |
| `Server.ServerConn.NoteBodyRead` | net/http2/server.go:1787-1839 | noted bytes go back to the connection's window and, unless the peer is done, to the stream's; the panic on too many window updates is unreachable |
| `ServerLaws.NotedKeeps` | net/http2/server.go:1814-1839 | the stream's window accepts every noted byte |
| `Server.ServerConn.HandlerRead` | net/http2/server.go:1857-1870 | what a handler reads is the front of the body and is owed to the windows |
| `Server.ServerConn.HandlerClose` | net/http2/server.go:1849-1855 | a closed body refuses what comes later, over every run |
| `Server.ServerConn.WroteFrame` | net/http2/server.go:921-941 | a written frame that ends its stream closes it, with a reset if the peer was still sending |
| `ServerLaws.OpenKeeps` | net/http2/server.go:1387-1416 | opening keeps all the laws; a stream whose headers are unfinished does not count against the limit |
| `ServerLaws.CloseKeeps` | net/http2/server.go:1179-1195 | closing keeps them, and the count of open streams cannot go below zero |
| `ServerLaws.RequestKeeps` | net/http2/server.go:1453-1482 | so does the end of a request's headers, exactly because the limit is looked at there |
| `ServerLaws.SendKeeps` | net/http2/server.go:1135-1158 | replacing one stream keeps the connection's send law, which is a sum over all streams |
| `ServerLaws.RecvKeeps` | net/http2/server.go:1303-1317 | the same for the receive law |
| `Ledger.BalancedOn` | net/http2/server.go:1026-1076 | an entry of the history about one stream keeps the books of all: the stream's record must tell what its books tell after it |
| `Ledger.ToldStored` | net/http2/server.go:1303-1317 | stored DATA is appended to what was stored, and what was read followed by what is unread is still all of it |
| `Ledger.ToldRead` | net/http2/server.go:1857-1870 | what is read moves from the unread to the read bytes, in order |
| `Wiring.NewBody` | net/http2/server.go:1669-1673 | the pipe that a request gets is empty, open and as large as the initial window, as its record says |
| `Wiring.DataOnPipe` | net/http2/server.go:1278-1322 | processData with a real pipe: what is judged to be stored the pipe takes whole and without an error, what is judged to find the body closed it refuses, the panic on a short write is unreachable, and the pipe holds what the record says |
| `Wiring.ReadOnPipe` | net/http2/server.go:1857-1870 | a handler's read takes from the pipe what it takes from the record; it sees the end of the body exactly if everything is read and the body was held to be whole, and any other close as an error |
| `Wiring.CloseOnPipe` | net/http2/server.go:1849-1855 | a handler's close closes the pipe of the record |
| `Wiring.SendNext` | net/http2/server.go:979-984 | what the scheduler takes from a stream the serve loop may release: no DATA beyond both windows, and the windows that the scheduler draws on stay equal to those of the records; both histories get the same bytes |
| `Wiring.TakeNext` | net/http2/writesched.go:180-228 | the windows after a frame is taken are those of the record from which the same bytes are released |
| `Wiring.CoveredIsLegal` | net/http2/server.go:979-984 | a frame within the windows is an event that the serve loop's laws admit |
| `Connection.Conservation` | net/http2/server.go:675-760 | what a connection comes to after any run: a stream's window is the initial window and what the peer has granted, less the DATA in the frames that the scheduler has handed out; the connection's window is the same over all streams; what the peer has sent of a body is what its handler has read and then what its pipe holds, byte for byte |
| `Connection.Connection.Run` | net/http2/server.go:675-760 | over every run of a whole connection, up to the event at which the loop fails if it comes to one, the records of the serve loop, the windows, the pipes, the queues of the scheduler and both histories agree |
| `Connection.Connection.constructor` | net/http2/server.go:203-227 | they do at the start |
| `Connection.Connection.Hear` | net/http2/server.go:675-760 | one event keeps it |
| `Connection.Connection.HearAside` | net/http2/server.go:1026-1076 | an event that is about neither windows nor the bytes of bodies makes, closes and forgets only what belongs to its stream |
| `Connection.Connection.HearData` | net/http2/server.go:1278-1322 | DATA that the loop stores the pipe takes whole |
| `Connection.Connection.HearWindowUpdate` | net/http2/server.go:1135-1158 | an increment that the loop accepts the window accepts |
| `Connection.Connection.HearSetting` | net/http2/server.go:1250-1276 | a change of the initial window reaches the same windows as records, also if it is refused half-way |
| `Connection.Connection.HearRead` | net/http2/server.go:1857-1870 | a handler gets from the pipe what the history says it has read |
| `Connection.Connection.Write` | net/http2/server.go:853-857 | the frame is added to the scheduler, for the stream object of its identifier or for none |
| `Connection.Connection.Send` | net/http2/server.go:958-984 | a frame goes out exactly if the connection is not being shut down and there is a control frame or a stream that can send; it is charged to the windows, the records and both histories alike |
| `Connection.Connection.Settle` | net/http2/server.go:1179-1195 | a stream that opens gets a window, one whose request is complete a pipe, and one that closes loses its queue and its pipe is closed |
| `Connection.AgreeSent` | net/http2/server.go:979-984 | what the scheduler hands out is what the serve loop releases, stream by stream |
| `Connection.StoreBody` | net/http2/server.go:1303-1317 | the pipe after stored DATA is the pipe of the new record, and no other pipe has changed |
| `Connection.AddStream` | net/http2/server.go:1387-1398 | a new stream has a window of its own, linked to the connection's and holding the initial window |
| `Connection.MakeBody` | net/http2/server.go:1179-1195 | of the pipes only that of the stream whose record has changed is made or closed, as the record says |
| `Connection.Forget` | net/http2/server.go:1194-1194 | what is queued for a closed stream is dropped, and nothing else |
| `Connection.ShiftWindows` | net/http2/server.go:1262-1274 | the loop over the windows, in any order |
| `Frames.RoundTrip` | net/http2/frame.go:525-1196 | the bytes of a frame that a Write method accepts are read back as the frame that was meant, leaving what follows them, if and only if the frame is none of the few kinds named by ReadsBack, which the writers let through and readers refuse or take for something else |
| `Frames.PayloadReads` | net/http2/frame.go:525-1196 | the same for payloads under the right header |
| `Frames.ReadWire` | net/http2/frame.go:232-244 | a written header is read back but for the reserved bit, and cuts the payload off exactly |
| `Frames.ReservedBitLost` | net/http2/frame.go:810-818 | a WINDOW_UPDATE written for a stream with the reserved bit is read as another stream's |
| `Frames.EmptyHeadersRefused` | net/http2/frame.go:877-879 | a HEADERS frame without a fragment is written and then refused as a stream error |
| `Frames.HeadersRead` | net/http2/frame.go:848-883 | padding and priority, in all combinations, are taken off exactly as they were put on |
| `Frames.PushPromiseReads` | net/http2/frame.go:1109-1143 | a promised stream and its fragment are read back from under any padding |
| `Frames.SettingsRead` | net/http2/frame.go:590-655 | the settings read off a SETTINGS payload are those that were written, identifiers and values in order; a frame is refused exactly if the first initial window among them is too large |
| `Frames.PriorityReads` | net/http2/frame.go:985-1002 | dependency, exclusive bit and weight survive exactly for 31-bit dependencies |
| `Frames.GoAwayReads` | net/http2/frame.go:732-753 | the last stream survives exactly if it has 31 bits |
| `Frames.ParseKeepsHeader` | net/http2/frame.go:525-1143 | a parsed frame carries its own header |
| `Framer.AcceptsContiguous` | net/http2/frame.go:468-502 | the order check accepts a sequence of frames if and only if every header block in it is contiguous and of one stream, and knows which block is unfinished (sections 4.3 and 6.10 of RFC 7540) |
| `Framer.BlockReads` | net/http2/write.go:180-204 | a header block of any size, written in pieces before any other input, is read as those pieces; each is accepted, and the order check is idle behind them |
| `Framer.BlockReassembles` | net/http2/write.go:180-204 | the fragments joined are the block |
| `Framer.BlockShape` | net/http2/write.go:180-204 | one HEADERS then CONTINUATIONs, all of one stream, none over 16384 bytes or empty; END_HEADERS on the last only, END_STREAM on the first only |
| `Framer.PieceReads` | net/http2/write.go:186-199 | one piece moves the order check from the state it finds to the state it must leave |
| `Framer.Framer.WriteHeaderBlock` | net/http2/write.go:180-204 | the loop writes exactly those pieces, or nothing for an invalid stream |
| `Framer.Framer.WriteHeaders` | net/http2/frame.go:920-955 | the bytes of a HEADERS frame, or the method's refusal with nothing written |
| `Framer.Framer.WritePushPromise` | net/http2/frame.go:1174-1196 | the same for PUSH_PROMISE |
| `Framer.Framer.WriteSettings` | net/http2/frame.go:663-670 | the same for SETTINGS, setting by setting |
| `Framer.Framer.WriteData` | net/http2/frame.go:566-577 | the same for DATA |
| `Framer.Framer.WritePriority` | net/http2/frame.go:1008-1020 | the same for PRIORITY, with the exclusive bit set over any dependency |
| `Framer.Framer.WriteRSTStream` | net/http2/frame.go:1043-1050 | the same for RST_STREAM |
| `Framer.Framer.WriteSettingsAck` | net/http2/frame.go:676-679 | an acknowledgement is an empty SETTINGS frame with one flag |
| `Framer.Framer.WritePing` | net/http2/frame.go:704-712 | the same for PING |
| `Framer.Framer.WriteGoAway` | net/http2/frame.go:747-753 | the same for GOAWAY, whose last stream loses its highest bit |
| `Framer.Framer.WriteWindowUpdate` | net/http2/frame.go:810-818 | the same for WINDOW_UPDATE, which refuses increments outside 1 to 2^31-1 |
| `Framer.Framer.WriteContinuation` | net/http2/frame.go:1079-1090 | the same for CONTINUATION |
| `Framer.Framer.EndWrite` | net/http2/frame.go:324-344 | the length is filled in over the reserved bytes; a payload of 2^24 bytes is refused |
| `Framer.Framer.CheckFrameOrder` | net/http2/frame.go:468-502 | the order check as the source branches, and no change of state on an error |
| `Framer.Framer.ReadFrame` | net/http2/frame.go:425-454 | one frame off the input, or the first thing wrong with it, and how much of the input is used up either way; what a frame is, in bytes, is said by FrameLaws.ReadExact, and the ends of input by FrameLaws.CutShort |
| `FrameLaws.HeaderReads` | net/http2/frame.go:232-244 | three bytes of length, the type, the flags, and a stream of 31 bits behind a reserved one, in network byte order |
| `FrameLaws.ParseExact` | net/http2/frame.go:525-1143 | a payload is parsed as a frame if and only if it is laid out as one by section 6 of RFC 7540, kind by kind: for padded DATA, HEADERS and PUSH_PROMISE a byte that says the padding, the content, and as many bytes of padding; dependency, exclusive bit and weight; pairs of 16 and 32 bits; and so on, with the frame's fields the numbers that stand there |
| `FrameLaws.ReadExact` | net/http2/frame.go:425-454 | a frame is read off some input if and only if its header, its length within the limit, and its payload so laid out stand at the front; the rest is left |
| `FrameLaws.CutShort` | net/http2/frame.go:232-244 | how a read fails before there is a payload: at the end, within a header, with a length above the limit, or within the payload |
| `FrameLaws.PaddedDataReads` | net/http2/frame.go:525-549 | padded DATA is read as its data alone, whatever the padding holds |
| `FrameLaws.Refused` | net/http2/frame.go:525-1143 | which error a payload of each kind is refused with: padding that is missing or longer than the payload, a wrong size, a wrong stream |
| `FrameLaws.StreamErrors` | net/http2/frame.go:783-883 | the only errors of single streams are HEADERS without a fragment and increments of 0 |
| `Framer.Framer.ReadFrames` | net/http2/server.go:611-632 | reading frame by frame, past errors of single streams, up to an error that ends the connection gives what reading the whole input gives, for every input |
| `Framer.ReadsContiguous` | net/http2/frame.go:425-502 | whatever the input, the header blocks among the frames that are read are contiguous and each of one stream, also for a reader that goes on behind errors of single streams |
| `Framer.Value` | net/http2/frame.go:628-641 | the value of a setting is that of the first one with its identifier |
| `Framer.ForeachSetting` | net/http2/frame.go:643-655 | the function sees the settings in order, up to and including the first at which it fails |
| `ConnPool.Pool.Add` | net/http2/client_conn_pool.go:162-176 | a connection joins an address once, and both indexes still agree |
| `ConnPool.Pool.MarkDead` | net/http2/client_conn_pool.go:178-194 | a dead connection is listed nowhere, no list runs empty or doubles, and every other entry keeps its place |
| `ConnPool.FilterOut` | net/http2/client_conn_pool.go:212-225 | the in-place filter removes exactly the excluded connection and keeps the order |
| `ConnPool.AddedOk` | net/http2/client_conn_pool.go:162-176 | agreement of the two indexes, without duplicates or empty lists, after an addition |
| `ConnPool.DroppedOk` | net/http2/client_conn_pool.go:178-194 | and after a removal |
| `HtmlTokenizer.Tokenizer.Run` | net/html/token.go:950-1066 | however the reader cuts the input into chunks, the tokens and their raw bytes are those that a pure function reads off the whole input |
| `HtmlSyntax.TokensTile` | net/html/token.go:950-1072 | the raw bytes of successive tokens, the final error token included, are the input |
| `HtmlSyntax.TokensProgress` | net/html/token.go:950-1066 | every token but the last consumes at least one byte, and the last is the only error |
| `HtmlTokenizer.Tokenizer.Next` | net/html/token.go:950-1066 | Next ends, starts where the last token ended, and gives the token, data, attributes and raw-text state that the whole input has there; what these are is said over characters by HtmlTags and HtmlMarkup |
| `HtmlTokenizer.Tokenizer.ReadByte` | net/html/token.go:234-287 | the next byte of the input across chunk ends; at the end it fails as often as asked; no span changes what it stands for |
| `HtmlTokenizer.Tokenizer.Compact` | net/html/token.go:242-270 | moving or growing the buffer leaves room and keeps the bytes of every live span |
| `HtmlTokenizer.ShiftSpans` | net/html/token.go:254-268 | after the shift every span, saved attributes included, stands for the same input |
| `HtmlTokenizer.Tokenizer.Fill` | net/html/token.go:239-280 | a read makes progress or the input is over |
| `HtmlTokenizer.ReadAtLeastOneByte` | net/html/token.go:297-305 | bytes or a failure, and a failure without bytes only at the end |
| `HtmlTokenizer.Tokenizer.Raw` | net/html/token.go:1070-1072 | the raw bytes are the token's stretch of the input |
| `HtmlTokenizer.Tokenizer.SkipWhiteSpace` | net/html/token.go:308-325 | white space is skipped up to the first other byte |
| `HtmlTokenizer.Tokenizer.ReadRawText` | net/html/token.go:329-360 | raw text ends where the source ends it, including the byte it does not look at again |
| `HtmlTokenizer.Tokenizer.ReadRawEndTag` | net/html/token.go:366-389 | an end tag is found in either case, and then left in the buffer to be read again |
| `HtmlTokenizer.Tokenizer.ReadScript` | net/html/token.go:393-596 | the sixteen script states end, at the place the state machine over the whole input gives |
| `HtmlTokenizer.Tokenizer.ScriptEndTag` | net/html/token.go:427-595 | the states behind "</": going forward over a found end tag stays inside the buffer |
| `HtmlSyntax.ScriptText` | net/html/token.go:393-596 | the script states always come to an end, between where they start and the end of the input |
| `HtmlTokenizer.Tokenizer.ReadComment` | net/html/token.go:600-642 | a comment's end and data, dashes at the end of input included |
| `HtmlTokenizer.Tokenizer.ReadUntilCloseAngle` | net/html/token.go:645-658 | everything up to the next ">" |
| `HtmlTokenizer.Tokenizer.ReadMarkupDeclaration` | net/html/token.go:663-688 | comment, doctype, CDATA section or bogus comment, by what the whole input has there |
| `HtmlTokenizer.Tokenizer.ReadDoctype` | net/html/token.go:692-713 | a doctype in any case, or a return to where it would have begun |
| `HtmlTokenizer.Tokenizer.ReadCDATA` | net/html/token.go:717-752 | a CDATA section, or a return to where it would have begun |
| `HtmlTokenizer.NameIn` | net/html/token.go:756-774 | the name, in any case, is one of the words |
| `HtmlTokenizer.NamesRawTag` | net/html/token.go:778-806 | looking at the first letter before comparing misses none of the raw elements |
| `HtmlTokenizer.Tokenizer.ReadStartTag` | net/html/token.go:778-810 | a start tag, whether it closes itself, and the raw text it announces |
| `HtmlTokenizer.Tokenizer.ReadTag` | net/html/token.go:816-840 | a tag's name and attributes |
| `HtmlTokenizer.Tokenizer.ReadTagName` | net/html/token.go:845-863 | a tag's name |
| `HtmlTokenizer.Tokenizer.ReadTagAttrKey` | net/html/token.go:867-885 | an attribute's key: up to the first blank, "/", "=" or ">", of which the last two are read again (HtmlTags.EndersAre, HtmlTags.KeyReads) |
| `HtmlTokenizer.Tokenizer.ReadTagAttrVal` | net/html/token.go:888-947 | an attribute's value, quoted, unquoted or absent |
| `HtmlSyntax.StartTagAttrs` | net/html/token.go:816-947 | the attributes of a start tag lie inside it, behind its name, in order, each with a non-empty key before its value |
| `HtmlTags.TagReads` | net/html/token.go:778-947 | every start tag that can be written, with a name and any number of attributes that are absent of a value, double-quoted, single-quoted or bare, and any white space where it may stand, is read as that name and these keys and values in order, ends where it was written to end, and closes itself exactly if a "/" stands before its ">" |
| `HtmlTags.EndTagReads` | net/html/token.go:816-840 | so is every end tag: its name is the name, its attributes are read over, and a "/" before its ">" says nothing |
| `HtmlTags.EndersAre` | net/html/token.go:845-947 | the bytes at which names, keys, bare and quoted values and declarations end, and which of these are looked at again |
| `HtmlTags.TagAttrsRead` | net/html/token.go:816-840 | a list of written attributes is read attribute by attribute, behind those already saved |
| `HtmlTags.AttrReads` | net/html/token.go:867-947 | one written attribute is read as its key and its value |
| `HtmlMarkup.TextExact` | net/html/token.go:978-1018 | where nothing opens markup there is text, up to the first "<" before a letter, "/", "!" or "?", or to the end of the input |
| `HtmlMarkup.DeclarationExact` | net/html/token.go:663-752 | what "<!" opens: a comment with dashes; a doctype in any case, whose data runs from the first non-blank to the next ">"; a CDATA section where these are allowed; and otherwise a comment up to the next ">". Where the input ends within a keyword, or behind one byte, what the token then is |
| `HtmlMarkup.SlashExact` | net/html/token.go:1023-1047 | what "</" opens: text at the end of the input, an empty comment before ">", an end tag before a letter, and otherwise a comment up to the next ">" |
| `HtmlMarkup.QuestionExact` | net/html/token.go:1048-1056 | "<?" opens a comment that begins with the "?" and runs up to the next ">" |
| `HtmlMarkup.RawTagExact` | net/html/token.go:778-810 | the start tag of one of the ten raw elements, in any case, makes its name the raw text that is expected, and no other start tag makes any expected |
| `HtmlMarkup.RawContentExact` | net/html/token.go:950-976 | the content of a raw element is one text up to the end tag that ends it, said in characters and in any case; only in "textarea" and "title" are there character references; that of "plaintext" has no end |
| `HtmlSyntax.NextToken` | net/html/token.go:950-1066 | a token's data lies inside it, and it inside the input |
| `HtmlSyntax.NextAtEnd` | net/html/token.go:950-1066 | at the end of the input there is an empty error token, whatever raw text was expected |
| `HtmlLaws.RawTextExact` | net/html/token.go:329-389 | the text of a raw element ends at the first of its end tags that an even number of "<" directly precede, and runs over all others: exactly when 'raw text ends at its end tag' is true of this code |
| `HtmlLaws.EndTagMissed` | net/html/token.go:345-351 | "<</xmp>" is all text: an end tag that is run over |
| `HtmlLaws.ScriptExact` | net/html/token.go:393-596 | the text of a script ends at the first of its end tags that no script tag behind an opening of a comment covers, and runs over all others; which places are covered is told byte by byte from what stands before them: exactly when 'a script ends at its end tag' is true of the code |
| `HtmlLaws.ScriptEndTagHidden` | net/html/token.go:393-596 | such a tag does cover one: with it directly behind the opening, the end tag behind it is run over |
| `HtmlLaws.ScriptFrom` | net/html/token.go:393-596 | the same from every state of the machine: each state tells what covers the place it has reached |
| `HtmlLaws.WordExact` | net/html/token.go:366-389 | an end tag's name is found exactly if it is there in either case, with a byte behind it that ends a name |
| `HtmlLaws.CommentEnds` | net/html/token.go:600-642 | a comment's data is followed by "-->" or "--!>", whose dashes may be those of its opening |
| `HtmlLaws.CommentExact` | net/html/token.go:600-642 | a comment ends at the first of its closings, "-->" or "--!>", that an even number of "--!" directly precede, and runs over all others: exactly when 'a comment ends at its closing' is true of the code; one without a closing ends before the dashes at the end of the input |
| `HtmlLaws.CommentEndMissed` | net/html/token.go:626-640 | "<!--!-->" does not end, "<!--a!-->" does |
| `HtmlLaws.CdataEndsAtFirst` | net/html/token.go:732-751 | a CDATA section's data ends at the first "]]>", or at the end of the input if there is none |
| `HtmlLaws.MarkupStartIsFirst` | net/html/token.go:979-1012 | text runs up to the first byte pair that opens markup |
| `HtmlLaws.UntilIsFirst` | net/html/token.go:645-947 | names, keys, values and declarations run up to the first byte that ends them |
| `HtmlEscape.Unescape` | net/html/escape.go:167-184 | in place, the front of the buffer becomes what out-of-place decoding gives |
| `HtmlEscape.UnescapeEntity` | net/html/escape.go:57-163 | one reference: the write cursor never passes the read cursor, and unread bytes stay |
| `HtmlEscape.ReferenceNarrow` | net/html/escape.go:57-163 | given a table no wider than its names, no reference is shorter than what it stands for |
| `HtmlEscape.Decode` | net/html/escape.go:57-163 | the branches of unescapeEntity, numeric and named, give the specified text and length |
| `HtmlEscape.LongestPrefix` | net/html/escape.go:148-157 | the longest known name without a semicolon |
| `HtmlEscape.NumericReads` | net/html/escape.go:57-121 | a decimal or hexadecimal reference is read as its code point, whatever follows its semicolon, for every code point that is not replaced |
| `HtmlEscape.DigitsRead` | net/html/escape.go:81-110 | the digits of any int32 are read as that number, without wrapping |
| `HtmlEscape.NameReads` | net/html/escape.go:124-147 | a known name closed by a semicolon is read as its entity wherever it stands |
| `HtmlReferences.NumericExact` | net/html/escape.go:57-121 | a text that starts with "&#", digits and perhaps a ";" is replaced by its number's code point, and otherwise left, exactly as the number of digits says; the number wraps at 32 bits |
| `HtmlReferences.Cleaned` | net/html/escape.go:111-120 | which numbers stand for U+FFFD, and which for a character of Windows-1252 |
| `HtmlReferences.OneDigitLeft` | net/html/escape.go:81-109 | a reference of one decimal digit without a ";" is left alone |
| `HtmlReferences.NamedExact` | net/html/escape.go:124-163 | a text that starts with "&" and a name: replaced by what the whole name stands for; in an attribute's value left alone if it has no ";" and a "=" follows, or if it is unknown; in a text an unknown name gives way to the longest known one that it begins with |
| `HtmlReferences.PrefixIsLongest` | net/html/escape.go:148-157 | no longer known name begins it |
| `HtmlEscape.ConvertNewlines` | net/html/token.go:1076-1104 | in place, every "\r\n" and lone "\r" becomes "\n" |
| `HtmlEscape.NewlinesIsFinal` | net/html/token.go:1076-1104 | nothing is left to convert, and text without "\r" is not changed |
| `HtmlEscape.NewlinesExact` | net/html/token.go:1076-1104 | lines that end in "\r", "\n" or "\r\n" are read as those lines with "\n" behind each, and nothing else is changed (an empty line between a lone "\r" and a "\n" cannot be told from "\r\n") |
| `HtmlEscape.Escape` | net/html/escape.go:198-231 | the run-by-run writer escapes exactly the six bytes |
| `HtmlMarkup.EscapesAre` | net/html/escape.go:196-231 | the six bytes that are escaped, and what is written for each |
| `HtmlEscape.EscapedIsInert` | net/html/escape.go:198-231 | escaped text holds none of the bytes that were escaped, except the "&" of its references |
| `HtmlEscape.UnescapeEscape` | net/html/escape.go:237-258 | unescaping undoes escaping for every byte string, in text and in attribute values |
| `HtmlEscape.EscapedSurvivesReading` | net/html/escape.go:198-258 | the same with newlines converted in between, as the tokenizer does |
| `HtmlRoundTrip.TextSurvives` | net/html/token.go:1111-1128 | escaped text is tokenized as one text token and read as the text it was |
| `HtmlRoundTrip.ValueSurvives` | net/html/token.go:1147-1162 | an escaped value between double quotes is tokenized as that value, whatever stands around it, and read as it was |
| `HtmlNode.InsertBefore` | net/html/node.go:53-76 | the child takes its place before the given one or at the end, all five pointers of every node agree with the lists of children, and an attached child is refused with nothing changed |
| `HtmlNode.AppendChild` | net/html/node.go:81-94 | the same at the end |
| `HtmlNode.RemoveChild` | net/html/node.go:100-119 | the child leaves its parent's list and is nobody's child or sibling; a stranger is refused with nothing changed |
| `HtmlNode.ReparentChildren` | net/html/node.go:122-131 | it ends, with src's children in order behind dst's, src empty and every other list untouched |
| `HtmlNode.Walk` | net/html/node.go:122-131 | following next siblings from the first child visits the children in order |
| `HtmlNode.InsertedOk` | net/html/node.go:53-94 | an insertion at any place keeps every pointer of every node consistent |
| `HtmlNode.RemovedOk` | net/html/node.go:100-119 | so does a removal |
| `HtmlNode.RemoveUndoesInsert` | net/html/node.go:53-119 | removing what was inserted restores every pointer of every node |
| `HtmlNode.Run` | net/html/node.go:38-131 | whatever is done with nodes, starting from none, all pointers of all nodes agree with the sequences of children |
| `HtmlNode.BesideOk` | net/html/node.go:38-44 | a new node beside others keeps that |
| `Context.Contexts.CancelCtx` | net/context/context.go:319-406 | every live context at or below the cancelled one gets its error and has its timer stopped, those that had an error keep it, nobody else is touched; every done channel is closed at most once |
| `Context.Contexts.Run` | net/context/context.go:211-429 | over every run of calls and expiring timers the tree stays in order, a timer runs exactly while its context is live, and an error once set never changes |
| `Context.CancelDown` | net/context/context.go:319-406 | the recursion ends and sweeps exactly the subtree, timers included |
| `Context.CancelChildren` | net/context/context.go:330-333 | the loop over the children, in any order |
| `Context.Contexts.WithCancel` | net/context/context.go:211-215 | a new context is live exactly if the nearest cancelable one above it is, and otherwise has its error |
| `Context.Contexts.WithDeadline` | net/context/context.go:351-374 | a deadline that is past cancels at once, an earlier one above makes a plain cancelable context, an error above wins |
| `Context.Contexts.NewTimer` | net/context/context.go:356-373 | a new timer context is live unless an error above or its own deadline has come before, and has its timer started exactly then |
| `Context.StartTimer` | net/context/context.go:365-372 | starting the timer of a live timer context keeps the tree in order |
| `Context.Contexts.Propagate` | net/context/context.go:226-251 | a new context is registered with a live one above it or is born cancelled with its error |
| `Context.Contexts.ParentCancelCtx` | net/context/context.go:256-269 | values are looked through up to the nearest cancelable context |
| `Context.Contexts.RemoveChild` | net/context/context.go:272-282 | only the nearest cancelable context above forgets the child |
| `Context.Contexts.WithValue` | net/context/context.go:427-429 | a value context changes nothing for anybody |
| `Context.Contexts.DeadlineOf` | net/context/context.go:351-355 | the deadline in force is that of the nearest timer at or above |
| `Context.RegisterKeepsValid` | net/context/context.go:226-251 | after registration every live context is still listed by a live nearest ancestor |
| `Context.BornDeadKeepsValid` | net/context/context.go:230-233 | so it is after a birth below a cancelled context |
| `Context.CancelKeepsValid` | net/context/context.go:319-340 | and after a cancellation, in the whole tree |
| `Context.LiveHangsFromChild` | net/context/context.go:330-333 | everything live below a live context hangs from one of its registered children, which is why the sweep misses nobody |
| `Context.SweptErrors` | net/context/context.go:319-406 | whose error a cancellation sets, and to what, and whose timer still runs |
| `Icmp.Marshal` | net/icmp/message.go:71-105 | the checksum of a marshalled message is zero, over the message for ICMPv4 and with its pseudo header and length for ICMPv6, and an ICMPv6 message without pseudo header has none; type, code and body are where they belong |
| `Icmp.SealedSumsToZero` | net/icmp/message.go:92-104 | putting a checksum into its field makes the checksum of the whole zero, up to 128 KiB |
| `Icmp.ComputeChecksum` | net/icmp/message.go:35-47 | the loop, with its uint32 sum and two folds, computes the one's-complement checksum |
| `Icmp.FoldMod` | net/icmp/message.go:43-46 | folding keeps the sum modulo 65535, and gives zero for zero only |
| `Icmp.MultipartRoundTrip` | net/icmp/multipart.go:13-109 | parsing a multipart body gives back the padded datagram and the same label stacks if and only if the padded length, in its unit of 4 or 8 bytes, fits the one byte that carries it (sections 4 and 7 of RFC 4884) |
| `Icmp.LongBodyLost` | net/icmp/multipart.go:79-84 | a longer datagram is never given back |
| `Icmp.MarshalBody` | net/icmp/multipart.go:53-87 | the buffer written at moving offsets holds exactly that body |
| `Icmp.MarshalStack` | net/icmp/mpls.go:41-56 | a label stack written at an offset, and nothing else touched |
| `Icmp.ExtensionsLength` | net/icmp/multipart.go:13-25 | the length that is reserved is the length that is written |
| `Icmp.StructureReads` | net/icmp/extension.go:20-87 | the extension structure is recognised where it stands, by version and checksum |
| `Icmp.StacksRead` | net/icmp/extension.go:65-86 | label stacks written one behind another are read as those stacks |
| `Icmp.LabelReads` | net/icmp/mpls.go:41-75 | label, traffic class, bottom bit and time to live survive their packing |
| `Icmp.ParseExtensions` | net/icmp/extension.go:39-87 | where extensions are looked for, with the fallback to 128 bytes, and what is found; an interface object that cannot be read spoils all |
| `Interfaces.ParseAttrs` | net/icmp/interface.go:199-236 | the loop reads the attributes of an interface, in their order, or finds that they cannot be read |
| `Interfaces.MarshalAttrs` | net/icmp/interface.go:91-111 | the attributes of an interface, written at moving offsets behind the object's header |
| `Interfaces.InfoReads` | net/icmp/interface.go:91-236 | whatever interface is written is read as what its fields can keep of it |
| `Interfaces.InfoRoundTrip` | net/icmp/interface.go:91-236 | it is read back as it was if and only if its numbers have 32 bits, its name is at most 63 bytes without a zero at either end, its address is of the message's family, and it has an index if it has a name or an MTU |
| `Interfaces.CutShort` | net/icmp/interface.go:113-236 | of what was written the first n bytes can be read if and only if they end where an attribute does |
| `Icmp.MarshalInterface` | net/icmp/interface.go:82-111 | the object's header with its length, and the attributes behind it |
| `Icmp.InterfaceReads` | net/icmp/interface.go:82-236 | an object about an interface, whatever stands behind it, is read back if and only if it is of that kind |
| `IcmpLaws.AddressExact` | net/icmp/interface.go:140-163 | addresses of family 1 have 4 bytes and of family 2 16; of any other only the four bytes of the family are read, so that the address is taken for what comes next |
| `IcmpLaws.ChecksumIsInternet` | net/icmp/message.go:35-47 | the checksum is that of RFC 1071, although the program sums words low byte first: with it the words in network byte order sum to a multiple of 2^16-1 |
| `IcmpLaws.HeaderExact` | net/icmp/extension.go:20-30 | an extension structure is accepted if and only if its version is 2 and its checksum is absent or, in network byte order, right |
| `IcmpLaws.PseudoHeaderLayout` | net/icmp/ipv6.go:17-23 | the pseudo header is that of section 8.1 of RFC 2460, with the length in its place |
| `IcmpLaws.BodyLayout` | net/icmp/multipart.go:53-87 | byte for byte, where the length, the padded datagram, the version, the checksum and the objects of a body stand, for ICMPv4 and ICMPv6 |
| `IcmpLaws.NoExtensions` | net/icmp/multipart.go:92-109 | a body in which no structure stands at the place that its length says or behind 128 bytes is all datagram |
| `IcmpLaws.LabelWord` | net/icmp/mpls.go:41-56 | a label is 20 bits, its class 3, the bottom 1 and the time to live 8, in network byte order |
| `IcmpLaws.ObjectKinds` | net/icmp/extension.go:65-86 | objects of class 1 are label stacks, of class 2 interfaces, whose type has a bit for each attribute, and others are passed over |
| `Icmp.ParseStack` | net/icmp/mpls.go:58-75 | the labels of an object, in order |

## Left out

- The SnapRoute daemons, `netlink`, `net/ipv4`, `net/dict`, HPACK, TLS, the HTTP/2 client transport and the HTML tree builder are not part of this model.
- Goroutines, locks and channels: each locked section is one step, and the steps are interleaved by the runs (`Server.ServerConn.Run`, `Priority.Forest.Run`).
- Real time: `Context` takes the present as a parameter, and an expired timer is a call of `CancelCtx`.
- Contexts of other packages, which the source watches with a goroutine (`net/context/context.go:243-249`).
- Inputs of 2^31 bytes and more to Punycode, whose positions leave int32.
- Punycode.RoundTrip: is about sequences of Unicode code points; byte strings that are not UTF-8 are first read as code points with replacements, as the source reads them.
- WriteSched: messages are values, so that a DATA frame that is split is replaced at the head of its queue; a `writeData` shared by two messages is not modelled.
- Streams in `Server` are records under their identifiers, with byte sequences for bodies; `Connection` keeps the windows and pipes that the source has in their place beside them.
- Connection.Connection.Send: does not look at the state of the stream that a frame is for (`net/http2/server.go:868-880`); a frame for a closed stream, which the source skips or fails at, counts as sent.
- Connection.Connection.Run: frames that the loop itself queues (RST_STREAM, WINDOW_UPDATE) are acts of their own; a handler's Read that has to wait is tried again later.
- Server: what is in trailers, handler panics, PING, GOAWAY frames and graceful shutdown, and the first SETTINGS frame; the state half-closed (local), which the source passes through only inside one step.
- Server.ServerConn.ProcessHeaders: header decoding and the checks of a request are a parameter that says what they came to.
- Server.ServerConn.ProcessContinuation: not for a stream that is in the table but whose HEADERS frame was ignored after GOAWAY, unless its trailers have come and no request is pending; the source then goes on with an empty request, or with that of another stream. `Server.Legal` leaves this event out of runs, and so do the methods that require it.
- Server.ServerConn.Serve: a release of DATA must be within the windows, which `Wiring.SendNext` provides; frames must come in the order that `Framer.ReadsContiguous` provides.
- Frames: the test switches for illegal reads and writes, `WriteRawFrame`, and errors of the underlying connection.
- ConnPool: dialling, and whether a connection can take requests; the lists in the pool are values, the in-place filter is `FilterOut`.
- HtmlTokenizer: the buffer is a sequence with an explicit capacity, so that slices handed out earlier and later overwritten are not modelled; a limit on the buffer (`SetMaxBuf`) is not set.
- HtmlTokenizer.Reader: a reader that fails early, or returns nothing a hundred times, is one whose input ends there.
- Case folding of names and replacement of NUL bytes when a token's data is handed out.
- HtmlEscape: the entity tables are parameters; the bound on their width is the property that `net/html/entity_test.go:11-30` demands of them.
- HtmlNode: node types, data and attributes; a node may be inserted below itself, as the source allows, so the lists need not form a tree. `ReparentChildren` needs two different nodes, without which the source does not end.
- Icmp: other message bodies and socket code; the zone of an interface's address. `Marshal` stores the checksum where the source combines it with zero bytes.
- Icmp.MarshalBody: multipart bodies with label stacks only; objects about interfaces are written on their own, because in a body the source lets a name of more than 63 bytes run over the objects behind it (`net/icmp/interface.go:165-170`).
- Icmp.SealedSumsToZero: up to 128 KiB, beyond which the source's 32-bit sum can wrap.
