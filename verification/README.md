# cubrid-go, modelled in Dafny

A model of the CUBRID CAS client (`database/sql` driver) and proofs about it. Go strings and
byte slices are sequences of bytes. Where the Go code changes an object, the model is a class
or a method with loops; the meaning of each such method is a function or a predicate, and the
laws of the program are lemmas about those.

| file | what it holds |
|---|---|
| Wire, Packet | Go's integer widths, the big-endian reader and writer of packet.go |
| Errors | classification of error messages (errors.go) |
| Response, Parsers | what the response parsers compute, and the parsers over a shared reader (protocol.go) |
| Encoders, RoundTrip | encoders of well-formed responses, round trips, the error path, PREPARE_AND_EXECUTE as PREPARE then EXECUTE |
| Values, Bind | bound values and their wire form |
| OnBytes | the same readers and requests on plain bytes and literal codes, without the program's constants |
| Requests, Framing | request packets read back by a server, frames on a stream, pairing of requests and responses |
| Cursor | the lazy cursor of rows.go over a server, down to the bytes of FETCH |
| SqlLexer, Scanner, Literals, Interpolate, Lexical | the placeholder scanner, literals, interpolation and its effect on lexical structure (types.go) |
| Meaning | a reader of SQL literals that gives every bound value back |
| Adjacency | the same conditions on the bytes next to each placeholder, and the place of every copied byte |
| Session, Driver, Handles, Transactions | conn, stmt, rows and tx as a state machine over exchanges with an abstract server; handle ownership and transactions over all runs |
| Effects | what each call makes the server receive and perform, and that a stmt's handle holds its text |
| Conversation | a whole run of calls as two streams of packets |
| Watcher | interleavings of context calls with their watchers (conn.go) |

Every parser has a specification function on the unread bytes that answers `Panic` exactly where
the Go code panics on a slice bound (or on a negative capacity), so "would not panic" is the only
precondition of the parsing methods. `hide` statements only keep function bodies out of a proof.

What the proofs show about the code beyond the expected laws:

- The text of `-?` with a negative value has a comment where the value should be
  (`Lexical.NegativeAfterDash`), and a string bound next to a quote fuses with its neighbour
  (`Lexical.StringsFuse`). The tokens survive exactly when neither happens at an edge of an
  inserted literal (`Lexical.InterpolationLexes`), which a caller can see from the byte next to
  each placeholder and the kind of the value (`Adjacency.ClashesExactly`).
- The cursor stands for the whole result only if some row came inline or there is none; with
  none inline it reports the end at once (`Cursor.Rows.constructor`).
- A handle stays open without an owner exactly when a context is found done after the response
  (`Handles.OwnedExactly`, `Handles.LateExpiryLeaks`; conn.go:381-383 and 441-443 return without
  closing it).
- Rollback restores the data of Begin exactly when no version request committed in between, if
  the server lets the flag of such a request commit (`Transactions.RollbackRestores`); Begin, a
  statement and Ping are enough (`Transactions.PingCommits`).
- An exchange whose answer stays unread in the stream shifts every later one by one answer; one
  that could not be sent shifts none (`Framing.PairingLaw`, `Framing.Pairing`). When recv fails
  inside a frame, the boundaries are lost, and the next recv may wait for ever
  (`Framing.CutMisaligns`).
- A watcher may set the deadline after the call that started it has returned
  (`Watcher.LateCancel`): the deferred reset runs before the watcher is stopped.
- A copied quote next to a bound string may be skipped by the scanner where it was read before
  (`Adjacency.FusedQuoteSkipped`); every other copied byte is looked at alike.
- PREPARE_AND_EXECUTE differs from PREPARE then EXECUTE exactly for tuples without columns
  (`RoundTrip.Fusion`, `RoundTrip.FusionFails`).

Where code and comments disagree: types.go:11-13 says that interpolation is only for logging and
that queries send typed bind parameters, but conn.go:366-372, conn.go:426-432 and stmt.go:55-61
execute the interpolated text. The model follows the code.

## Model

| member | source | states |
|---|---|---|
| Wire.WrapTakesAway | packet.go:41-57 | wrapping to 16, 32 or 64 bits takes away a multiple of 2 to that power and ends in the signed range |
| Packet.PutShort | packet.go:41-45 | the two bytes read back as the int16 wrap-around of the value, and the tail is left |
| Packet.PutInt | packet.go:47-51 | the four bytes read back as the int32 wrap-around of the value, and the tail is left |
| Packet.PutLong | packet.go:53-57 | the eight bytes read back as the int64 wrap-around of the value, and the tail is left |
| Packet.PutNulStr | packet.go:240-249 | a NUL-terminated text reads back as the text without its NUL, even if it ends in NUL itself |
| Packet.PacketWriter.WriteNullTermString | packet.go:95-100 | appends a length-prefixed, NUL-terminated text in front of anything written later |
| Packet.PacketReader.ParseNullTermString | packet.go:240-249 | empty for lengths up to 0; else the text is those bytes if their last is not 0, and text and a 0 are those bytes if it is; advances by exactly the length |
| Packet.PacketReader.ReadError | packet.go:291-296 | code, then the rest of the announced length as message |
| Packet.TextOnBytes | packet.go:240-249 | the same for the reader that the parsers are stated with |
| Packet.ReadersStable | packet.go:196-249 | no reader's value depends on bytes behind what it consumes |
| Errors.ToLower | errors.go:57-67 | ASCII folding byte by byte, length kept |
| Errors.IndexCI | errors.go:46-55 | the least index of an occurrence up to ASCII case, or -1 exactly when there is none, also for keywords longer than the text |
| Errors.ContainsCI | errors.go:42-44 | true exactly when the keyword occurs up to ASCII case |
| Errors.NewError | errors.go:26-40 | code and message as given; Integrity exactly if unique, duplicate, foreign key or constraint violation occurs, else Programming exactly if one of its five keywords does |
| Errors.ClassifyExactly | errors.go:26-40 | the same of the function by which the parsers' errors are stated |
| Errors.FoldExactly | errors.go:57-67 | two bytes are alike exactly if equal or the two cases of one of 26 letters |
| Errors.OccursMeans | errors.go:42-55 | a keyword occurs exactly if the text is something, a part that is the keyword up to case, and something |
| Encoders.ReadColumn | protocol.go:45-86 | a column in legacy or extended form reads back with every field |
| Encoders.ReadColumns | protocol.go:42-89 | any number of columns reads back, in order, and the tail is left |
| Encoders.ReadInfos | protocol.go:92-107 | any number of result infos reads back, in order, and the tail is left |
| Encoders.ReadValue | protocol.go:110-144 | a value of each column type reads back when its announced size matches |
| Encoders.ReadCell | protocol.go:161-175 | a cell reads back through its column's type or through its own type byte; NULL in each of its three forms |
| Encoders.ReadRows | protocol.go:147-180 | any number of rows reads back, for result sets and stored-procedure calls |
| Parsers.ParseColumnMetadata | protocol.go:42-89 | the counted loop computes the column list and leaves the reader behind it |
| Parsers.ParseResultInfos | protocol.go:92-107 | the counted loop computes the info list and leaves the reader behind it |
| Parsers.ReadValue | protocol.go:110-144 | dispatch on the column type, fixed widths ignoring the size |
| Parsers.ParseCells | protocol.go:155-176 | the cell loop of one row, NULLs and self-describing cells included |
| Parsers.ParseRowData | protocol.go:147-180 | the row loop computes all rows and leaves the reader behind them |
| Parsers.RaiseError | protocol.go:36-39 | the classified error of an error response |
| Parsers.ParseOpenDatabase | protocol.go:221-242 | CAS_INFO, six bits of the broker info as protocol version, and the session, or the server's error |
| Parsers.ParseSimpleResponse | protocol.go:264-272 | success or the server's error |
| Parsers.ParseGetDbVersion | protocol.go:417-426 | the version text is the whole body after the code |
| Parsers.ParseGetLastInsertId | protocol.go:439-449 | a text as long as the response code says, or the server's error |
| Parsers.ParsePrepare | protocol.go:479-496 | the prepared statement of the response, or the server's error |
| Parsers.ParseExecute | protocol.go:555-590 | the execution result for given columns and protocol version, or the server's error |
| Parsers.ParsePrepareAndExecute | protocol.go:313-351 | both parts of the combined response, or the server's error |
| Parsers.ParseFetch | protocol.go:375-388 | one batch of rows, or the server's error |
| RoundTrip.PrepareAndExecuteRoundTrip | protocol.go:313-351 | every well-formed combined response gives back all its fields and is consumed to the last byte, for every protocol version |
| RoundTrip.PrepareRoundTrip | protocol.go:479-496 | the same for PREPARE |
| RoundTrip.ExecuteRoundTrip | protocol.go:555-590 | the same for EXECUTE, unless there are rows without columns |
| RoundTrip.FetchRoundTrip | protocol.go:375-388 | the same for FETCH, unless there are rows without columns |
| RoundTrip.ErrorReplyRead | protocol.go:266-270 | an error response is consumed whole; its text is the message bytes less one final NUL if there is one, and decides the error with the second code |
| RoundTrip.ErrorPathExact | protocol.go:36-39 | for every response with a negative first code, in all eight parsers that share raiseError: a panic below twelve bytes, else consumed whole; bytes 8 to 11 are the code, those behind them the message less one final NUL if there is one |
| RoundTrip.Fusion | protocol.go:313-351 | for any bytes: PREPARE body then EXECUTE body parse as PREPARE_AND_EXECUTE to the two results, exactly when there are columns or no tuples |
| RoundTrip.FusionFails | protocol.go:342-348 | for every well-formed SELECT response with rows and no columns: the two ways differ, one leaving the rows unread |
| RoundTrip.InlineGuard | protocol.go:584-586 | the column test of ParseExecute changes the result exactly for tuples without columns |
| OnBytes.NumbersOnBytes | packet.go:196-238 | each number reader takes 1, 2, 4 or 8 bytes, high byte first, in two's complement |
| OnBytes.TextCells | protocol.go:124-126 | codes 1, 2, 3, 4, 7 and 25 give the text of the announced bytes, less one final NUL if there is one |
| OnBytes.NumberCells | protocol.go:110-123 | codes 9, 8 and 21 give the integers of 2, 4 and 8 bytes, 11, 12 and 10 the floats, whatever size is announced |
| OnBytes.TimeCells | packet.go:251-284 | codes 13, 14, 15 and 22 give three, three, six and seven int16 in calendar order |
| OnBytes.OtherCells | protocol.go:140-144 | code 0 gives NULL and takes nothing; every code not listed gives exactly the announced bytes |
| OnBytes.CellsOnBytes | protocol.go:161-175 | size first: NULL up to 0; a self-describing cell has its type byte next, and is NULL at size 1 |
| OnBytes.RowCellsOnBytes | protocol.go:155-176 | which cells describe themselves: those of a stored-procedure call and of NULL columns |
| OnBytes.DatabaseOnBytes | protocol.go:221-242 | the fifth byte of the broker info gives the version by its low six bits, and the session follows the sixteen bytes |
| OnBytes.VersionOnBytes | protocol.go:417-426 | the version is all bytes behind the code, less one final NUL if there is one |
| OnBytes.LastIdOnBytes | protocol.go:439-449 | the code is the length of the id's text |
| OnBytes.ShortRequestsOnBytes | protocol.go:245-261 | the bytes of END_TRAN (1), CLOSE_REQ_HANDLE (6), GET_DB_VERSION (15), CON_CLOSE (31) and GET_LAST_INSERT_ID (40) |
| OnBytes.FetchOnBytes | protocol.go:356-366 | the bytes of FETCH (8): handle, first row from 1, size, two zeros |
| OnBytes.PrepareOnBytes | protocol.go:456-468 | the bytes of PREPARE (2): text with its NUL, options, commit flag |
| OnBytes.PrepareAndExecuteOnBytes | protocol.go:277-298 | the bytes of PREPARE_AND_EXECUTE (41) in order, execute option 2 included |
| OnBytes.ExecuteOnBytes | protocol.go:502-543 | the bytes of EXECUTE (3) in order, the inline flag and the parameters included |
| OnBytes.FrameOnBytes | packet.go:11-16 | a frame is the payload's length in four bytes, CAS_INFO, and the payload |
| OnBytes.ParamsOnBytes | protocol.go:615-667 | the size, type byte and bytes of a parameter of every kind |
| Bind.EncodeOneParam | protocol.go:615-667 | appends size, type byte and value of one parameter |
| Bind.EncodeBindParams | protocol.go:604-613 | the parameters one after the other; nothing for no parameters |
| Bind.ReadParam | protocol.go:615-667 | one parameter read as a self-describing cell gives its normal form |
| Bind.BindRoundTrip | protocol.go:604-613 | all parameters, read by the cell loop over NULL columns, are consumed exactly and give back the arguments in normal form |
| Requests.WriteConClose | protocol.go:245-250 | the frame of the request |
| Requests.WriteEndTran | protocol.go:255-261 | the frame of the request |
| Requests.WriteGetDbVersion | protocol.go:404-414 | the frame of the request |
| Requests.WriteCloseReqHandle | protocol.go:393-399 | the frame of the request |
| Requests.WriteGetLastInsertId | protocol.go:431-436 | the frame of the request |
| Requests.WriteFetch | protocol.go:356-366 | the frame of a FETCH from the row after the current count |
| Requests.WritePrepare | protocol.go:456-468 | the frame of the request |
| Requests.WritePrepareAndExecute | protocol.go:277-298 | the frame of the request |
| Requests.WriteExecute | protocol.go:502-543 | the frame of the request with its parameters as one block and the inline flag for SELECT |
| Requests.RequestRoundTrip | protocol.go:502-543 | a server reads back exactly the request from the payload of each Write function |
| Requests.PayloadInjective | protocol.go:277-298 | two requests with the same payload are the same |
| Framing.Socket.Recv | conn.go:117-132 | takes exactly one frame off the stream |
| Framing.RecvFrame | packet.go:11-16 | a built frame is received as CAS_INFO and payload, whatever follows |
| Framing.StreamFraming | conn.go:117-132 | repeated receiving splits a concatenation of frames into exactly its messages |
| Framing.RequestStream | conn.go:135-140 | a stream of request packets gives back every request, in order |
| Framing.PairingLaw | conn.go:135-140 | while no recv fails inside a frame: exchange i reads the queued answer that lies as many places before its own as earlier answers stayed unread; requests that were not sent do not count |
| Framing.Pairing | conn.go:135-140 | then an exchange reads its own answer exactly when none before it left its answer unread |
| Framing.CutMisaligns | conn.go:117-132 | after one byte of a frame is taken by a failing recv, the next recv finds 256 times the length and waits for ever unless that much is there |
| Conversation.TrafficServes | conn.go:135-140 | serving the exchanges of all calls of a run one by one leaves the server where the run leaves it |
| Conversation.RunIsPaired | conn.go:135-140 | in every run in which no exchange fails, nested exchanges included: the server reads every request back from the stream, and each exchange reads what the server answers to its own request |
| Cursor.Rows.constructor | conn.go:385-397 | the cursor stands for the whole result exactly when a row came inline or there is none |
| Cursor.Rows.FillDest | rows.go:98-126 | copies the row as far as dest goes and leaves the rest |
| Cursor.Rows.Fetch | rows.go:71-79 | the batch of rows after those fetched so far, through the bytes of request and response |
| Cursor.Rows.Refill | rows.go:86-92 | the batch becomes the buffer and the rows still to come are the same |
| Cursor.Rows.Next | rows.go:56-95 | delivers the head of the remaining rows, EOF for ever when none remain, nothing on an error; counts FETCH requests |
| Cursor.Rows.Close | rows.go:43-53 | nothing remains afterwards |
| Cursor.Drain | rows.go:56-95 | repeated Next gives exactly the remaining rows in order, with exactly ceil(unsent / size) requests for full batches and at most one per row otherwise |
| Cursor.BatchesIsCeil | rows.go:71-92 | the number of batches is the quotient rounded up |
| Cursor.QueryAll | conn.go:374-399 | from the bytes of the first response to EOF: the caller gets the server's list of rows |
| Cursor.StmtQueryAll | stmt.go:137-168 | the same for a prepared SELECT, from its EXECUTE response read with the columns of PREPARE |
| SqlLexer.LexLosesNothing | types.go:41-93 | the tokens of a text put together are the text |
| SqlLexer.LexInverse | types.go:41-93 | a token sequence is read back from its text exactly when no two neighbours fuse |
| Scanner.FindBindPlaceholders | types.go:41-93 | the scanner with lookahead finds the placeholders of the one-byte automaton that toggles on every quote; its ghost result is how the loop looks at each byte |
| Scanner.LooksExactly | types.go:41-93 | for every byte: the state in which the loop reads it is the automaton's, and it is skipped exactly if it ends a pair of which the loop read the first byte |
| Scanner.PlaceholdersExact | types.go:41-93 | these are, in increasing order, exactly the `?` bytes outside quotes and comments |
| Scanner.RegionsOnBytes | types.go:41-93 | in ASCII codes: which texts are inside quotes, a block comment or a line comment, and that outside begins again right behind them |
| Scanner.PlaceholdersAreHoles | types.go:41-93 | they are the offsets of the holes of the lexed text |
| Literals.EscapeIsExpand | types.go:134-138 | the two replacements in sequence double each backslash and quote and change nothing else |
| Literals.EscapeReversible | types.go:134-138 | escaping has a left inverse, and leaves only doubled quotes |
| Literals.HexEncode | types.go:141-149 | two digits per byte, high nibble first |
| Literals.UnhexHex | types.go:141-149 | reading nibbles gives the bytes back |
| Literals.ParseLastInsertId | conn.go:226-235 | the int64 wrap-around of the number in the longest digit prefix, without wrap-around when it fits |
| Literals.ReadFirstId | conn.go:222-238 | an integer cell gives itself, a text cell the number below 2^63 it starts with, or 0 without a digit; any other first cell, or none, gives 0 |
| Literals.LastInsertIdRecovered | conn.go:226-235 | every non-negative int64 comes back from its decimal text, whatever follows that is no digit |
| Literals.LiteralLexes | types.go:97-122 | a literal lexes to code and at most one closed quoted text, independently of its value |
| Meaning.TimeMeans | types.go:115-118 | year, month, day, hour, minute, second and millisecond of a time are read back from its text, for every year |
| Meaning.LiteralMeans | types.go:97-122 | a reader of literals gives every supported value back: NULL, 0 or 1, every integer with its sign, strings, bytes and times of calendar fields; a float is the text strconv gives |
| Interpolate.FormatArg | types.go:97-122 | the literal of a value, an error exactly for other types |
| Interpolate.SpliceIsSubst | types.go:26-38 | splicing at the positions writes the tokens with each hole replaced |
| Interpolate.InterpolateArgs | types.go:14-39 | wrong count exactly if the numbers of placeholders and values differ, with both; else unsupported exactly if some value is of another type; else the text of the substituted tokens |
| Lexical.InterpolationLexes | types.go:14-39 | the result lexes to the original tokens with each `?` replaced by its literal's, exactly when no two dashes or quotes meet between pieces |
| Lexical.InterpolationKeepsStates | types.go:14-93 | the automaton marks all written bytes, copied tokens and literals, as it marks each token alone, exactly when no two dashes meet between pieces; and so it marks the original |
| Lexical.InterpolationKeepsLooks | types.go:14-93 | the code's own state variable has these marks at every byte it reads other than a quote, exactly when no two dashes meet between pieces |
| Lexical.InterpolationIsFinal | types.go:14-39 | then no placeholder is left, and interpolating without values changes nothing |
| Lexical.NegativeAfterDash | types.go:107-108 | a text and a value for which the rest of the line becomes a comment |
| Lexical.PlaceholderComesAlive | types.go:107-108 | a text and a value for which a quoted `?` becomes a placeholder of the result |
| Lexical.StringsFuse | types.go:111-112 | any string bound directly after any quoted text becomes one quoted text with it |
| Lexical.BoundStringArrives | types.go:111-112 | when nothing fuses, each bound string is a quoted text of its own that unescapes to it |
| Adjacency.LiteralEnds | types.go:97-122 | which literals start with a dash or a quote and which end with one |
| Adjacency.ClashesExactly | types.go:14-39 | nothing fuses exactly when no negative number is bound directly after a dash and no quoted literal touches a quote; no dashes meet exactly when the first holds |
| Adjacency.LiteralPlaced | types.go:26-38 | each literal stands in the result where its placeholder was, moved by the literals before it |
| Adjacency.CopiedBytesKeepStates | types.go:14-93 | when no negative number is bound directly after a dash, every byte but the placeholders is found in the result, moved by the literals before it, and the automaton is in the state it had there |
| Adjacency.CopiedBytesReadAlike | types.go:14-93 | then the code's loop skips such a byte, other than a quote, exactly if it did in the original, and else reads it in the same state |
| Adjacency.FusedQuoteSkipped | types.go:72-79 | a text and a string for which a copied quote that was read is skipped in the result |
| Driver.Conn.SendAndRecv | conn.go:135-140 | one exchange, or a failure on a closed socket |
| Driver.Conn.CloseQueryHandle | conn.go:188-195 | releases the handle, ignoring failures |
| Driver.Conn.FetchLastInsertId | conn.go:210-239 | the nested query and the release of its handle; the id that the first cell stands for, 0 after an error |
| Driver.Conn.PrepareStmt | conn.go:246-272 | takes the step of the call; success adds a stmt of the reply's handle and kind with the text |
| Driver.Conn.ExecStmt | stmt.go:44-101 | takes the step of the call; succeeds exactly on an open stmt, with arguments that fit and a granted reply; then the server performs the text with its placeholders substituted, or without arguments the text prepared, and the id query of an INSERT, whose first cell gives the id |
| Driver.Conn.QueryStmt | stmt.go:107-171 | the same for Query: the text alone is performed, and rows over the new handle, or the stmt's own, are made |
| Driver.Conn.CloseStmt | stmt.go:21-33 | takes the step of the call |
| Driver.Conn.Query | conn.go:342-400 | takes the step of the call; succeeds exactly if open, in time, unnamed, fitting and granted; the substituted text is performed, and errors before it send nothing |
| Driver.Conn.Exec | conn.go:402-460 | the same, with the id query of an INSERT and the id its first cell stands for |
| Driver.Conn.FetchRows | rows.go:71-79 | takes the step of the exchange |
| Driver.Conn.CloseRows | rows.go:43-53 | takes the step of the call |
| Driver.Conn.BeginTransaction | conn.go:292-301 | takes the step of the call |
| Driver.Conn.BeginTransactionCtx | conn.go:303-323 | takes the step of the call |
| Driver.Conn.CommitTransaction | tx.go:9-23 | takes the step of the call; success commits everything pending and turns autoCommit on, failure leaves the flag |
| Driver.Conn.RollbackTransaction | tx.go:26-40 | takes the step of the call; success drops everything pending and turns autoCommit on, failure leaves the flag |
| Driver.Conn.PingServer | conn.go:326-340 | takes the step of the call, always with flag 1 |
| Driver.Conn.CloseConn | conn.go:275-289 | takes the step of the call |
| Handles.HandleConservation | conn.go:188-460 | in every run the open handles are the disjoint union of those of unclosed stmts, unclosed owning rows and leaks |
| Handles.LeakedExactly | conn.go:381-383 | the leaked handles of a run are those of its late expiries, none exactly when there is none |
| Handles.OwnedExactly | conn.go:441-443 | from a new connection: every open handle has a living owner exactly when no context expired between response and check |
| Handles.LateExpiryLeaks | conn.go:381-383 | from every new connection, one late expiry leaves its handle open without any stmt or rows |
| Handles.StmtExecNeutral | stmt.go:44-101 | Exec ends with the open handles it began with, nested query included |
| Handles.ExecContextNeutral | conn.go:402-460 | ExecContext too, except for the handle of a late expiry |
| Handles.CallReleasesOpen | rows.go:43-53 | every release names an open handle, and non-owning rows send none |
| Handles.EveryReleaseOpen | stmt.go:21-33 | so in every run, hence no handle is closed twice |
| Handles.TransientBound | conn.go:434-457 | after each exchange of any call there are at most two handles more than live owners and leaks |
| Effects.ExecTextDoes | stmt.go:55-78 | Exec with arguments: exactly the text is performed, its handle closed, and for an INSERT (20) the id query and the release of its handle follow; after an error only the text was sent |
| Effects.ExecHandleDoes | stmt.go:67-82 | Exec without arguments: EXECUTE of the stmt's handle, with the inline flag for SELECT (21), performs the statement the handle holds; the id query follows |
| Effects.QueryDoes | stmt.go:107-171 | Query sends the same one request, and makes owning rows over the new handle or borrowed rows over the stmt's |
| Effects.QueryContextDoes | conn.go:342-400 | the text is performed even if the context is found done afterwards; then there are no rows |
| Effects.ExecContextDoes | conn.go:402-460 | the text, the id query of an INSERT, then the release of the text's handle; only the text if the context is found done |
| Effects.PrepareDoes | conn.go:246-272 | PREPARE performs nothing; the new stmt's handle holds its text |
| Effects.ClosesDo | stmt.go:21-33 | closing sends at most the release of the object's own handle, and closing again does nothing |
| Effects.AskingDoes | rows.go:71-79 | Next asks for 100 rows of an open cursor, Ping for the version with flag 1, and nothing else changes |
| Effects.EndsDo | tx.go:9-40 | Commit sends kind 1 and Rollback kind 2; a granted end turns autoCommit on, a refused one leaves it |
| Effects.SoleOwner | conn.go:246-272 | a live stmt's handle is open, and no other live stmt or owning rows has it |
| Effects.LabelledEver | conn.go:188-460 | in every run each live stmt's handle holds the text the stmt was prepared from |
| Effects.ExecPerforms | stmt.go:44-171 | so in every run a granted Exec performs exactly the bound text, or without arguments the text prepared, then for an INSERT the id query; Query performs that text alone |
| Transactions.ScriptFlagged | conn.go:199-206 | every statement of every call carries the connection's autoCommit flag |
| Transactions.FlagIsLatest | conn.go:292-323 | in every run autoCommit is what the latest of open, Begin and successful ends made it |
| Transactions.StatementsCarryLatest | conn.go:199-206 | so every statement the server receives in any run carries that flag |
| Transactions.FlagOffInside | tx.go:9-40 | from Begin until an end succeeds every statement received carries flag 0 |
| Transactions.InsideTransaction | conn.go:292-301 | until an end succeeds the flag stays off, no statement is lost or reordered, and committed data is unchanged exactly without committing version requests |
| Transactions.RollbackRestores | tx.go:26-40 | Rollback leaves the data of Begin, exactly without committing version requests |
| Transactions.PingCommits | conn.go:333 | from every new connection whose server lets version requests commit: Begin, a statement, Ping and Rollback leave the statement committed |
| Transactions.CommitApplies | tx.go:9-23 | Commit applies what was pending and all statements of the transaction in order |
| Transactions.NothingLooseEver | conn.go:292-323 | in every run nothing is pending while autoCommit is on |
| Transactions.TransactionSafety | tx.go:9-40 | both laws, and flag 0 on every statement, for a transaction in the middle of any run of any connection, opened with autoCommit or without |
| Watcher.ClearExactly | conn.go:153-182 | for every interleaving: between calls the deadline is clear exactly when no watcher fired after the last reset |
| Watcher.ClearBetweenCalls | conn.go:352-356 | so it is if no context becomes done before its watcher has exited |
| Watcher.LateCancel | conn.go:412-416 | any lingering watcher may leave the next call under an expired deadline |
| Watcher.WatcherLingers | conn.go:153-168 | a finished call can leave its watcher running |

## Left out

- connect, the broker handshake and the requests without a frame (conn.go:38-106, protocol.go:185-212): network plumbing; the model starts from an open connection.
- DSN parsing, driver registration, the GORM dialector, `Columns`, `ColumnTypeDatabaseTypeName`, `NumInput`, the result getters and the sum of affected rows: they would only add easy members.
- The writer operations that no request uses.
- Floating point: a float is its bit pattern with the text strconv gives for it, of which only the shape of a numeral is assumed; the float32 to float64 conversion keeps the pattern.
- Calendar normalisation: a time is the record of arguments of time.Date, and a bound time that of its fields in UTC.
- Limits of Go's memory: a huge announced count fails when the bytes run out, not when the slice is made.
- Driver.Conn.SendAndRecv: in Session and Driver an exchange fails only on a closed socket; what failures on an open one do to later exchanges is in Framing.
- Driver.Conn.CloseQueryHandle: the release is acknowledged, because its failure on an open socket is such a failed exchange.
- Lexical.InterpolationIsFinal: the condition is not necessary; when dashes meet, the rest of the line is commented out, and whether a quoted `?` behind it comes alive (Lexical.PlaceholderComesAlive) or not (Lexical.NegativeAfterDash) depends on the text.
- Framing.Pairing: a write that fails after sending part of a request is not covered, because the server's reading of the rest is not visible; runs after a recv that failed inside a frame are described by Framing.CutMisaligns only, because they may read anything.
- Re-execution of a prepared statement while rows of an earlier execution are still open on its handle: the rows behind a cursor are fixed.
- stmt and rows as separate heap objects: they are entries in tables of their connection, addressed by index, and calls on one connection are serialized.
- What a statement does: the server records the texts it performs, in order; DDL that commits by itself is not modelled.
- Driver.Conn.BeginTransactionCtx: leaves out the deadline that is set and cleared around the call, also in the watcher's interleavings; it starts no watcher and exchanges nothing.
- Driver.Conn.FetchRows: covers the FETCH exchange only; buffering is in Cursor.
- Cursor.Rows.Close: leaves the release of the handle to Driver.Conn.CloseRows.
- Bind.EncodeOneParam: takes the printed form of any other Go type as given, because it depends on `fmt`.
