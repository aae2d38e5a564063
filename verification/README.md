# A verified model of the connectors' protocols, decoders and formats

The host runs programs behind *connectors*: a program calls `net/open`, `rest/get`, `ws/recv`, `data/read_csv`, and a
connector does it. This project models the connectors' own logic - the parts that are state machines, resumable
decoders or exact arithmetic - and proves what that logic is for. Everything behind the logic (sockets, TLS, the HTTP
head parser, the parquet codec) enters as an event, a list of reads, or a function with a stated contract.

- **`net`.** `NetState` is the connector as a state machine over values: the handle table, the transport's inbox, the
  pending offers, and one function for each thing that can happen (a transport report, a sweep, each of the eight
  calls, a release, the connector going away). `NetConnector` is the object that runs those steps in place, each
  method proved equal to its step. `NetSafety` proves an invariant of every run, `NetTheorems` what it means to
  owners and transport, `NetTold` and `NetEndings` what owners are told and when they end with a connection, `NetAnswers`
  what each call answers, `NetPromise` when the promise not to close what was reported closed is broken. `BusState` and
  `Bus` are the in-process transport with its linked ends; `BusWorld` puts any number of connectors on one bus and
  proves the end-to-end properties.
- **`rest`.** `Dechunker` is the resumable chunk decoder, `HttpReader` the framing rules, the search for the final
  head, and the read loop, proved to answer as the one-shot reading of the same bytes does. `WireNumbers` and
  `HttpHeaders` say which numbers and names the texts on the wire stand for.
- **`ssmtp`.** `Calendar` (the `Date` header's division-only calendar against the Gregorian calendar counted day by
  day), `MessageIds` (folding and parsing threading headers), `DotStuff` (the body on the wire).
- **`data`.** `ParquetColumns` (row ranges over row groups, null expansion, interning, writing, and a column written and
  read back), `CsvLine`, `Csv`, `CsvTable` (CSV lines, columns, tables), `CsvWritten` and `CsvRoundTrip` (exactly when a
  table written as CSV reads back), `CsvInferred` (with no hint, and what any text is read as), over the columns of
  `Table`.
- **`ws`.** `WsState` is one connection's task and owner as interleaved steps, with the proofs; `WsTask` the objects,
  whose methods keep the same invariant, `WsAnswers` what the owner is told.
- **Smaller cores.** `Base32` (`crypto`), `Caps` (`drt-caps`), `Comments` (`drt-config`), `EscapeFilter` and `Utf16`
  (`ssh`). `Prelude`, `Text` and `Arithmetic` hold what several modules share.

An imperative piece is a class or a method with loops, proved equal to a function over values; the theorems are about
those functions, so they hold of the methods.

## Where the code and its own words differ

The model follows the code. In each case a lemma says exactly when the words hold.

- `connectors/net/src/lib.rs:110-112` promises the transport that `close` is never called on what it reported closed.
  Only a sweep reads the reports, so whatever closes before one may break it: an owner's `close` (of its own entry and
  of connections waiting under it), a release, the connector going away, an `open` answered after its owner went, and a
  sweep itself, where an arrival turned away or an overflow has its close standing behind it. `NetPromise` says of every
  step exactly when (`PromiseBrokenExactly`, `DropBrokenExactly`), and gives runs.
- `connectors/net/src/lib.rs:210-212` says the connector going away closes whatever is still open. It closes what is in
  its table and does not sweep first, so a connection whose arrival is still in the inbox stays open for good
  (`NetTheorems.DropLeavesArrival`); `NetTheorems.DropCloses` says of every Conn exactly whether it was closed, and
  `BusWorld.DropCutsExactly` of every connection on a bus whether it is cut.
- `crates/drt-caps/src/lib.rs:145` and `:224-227` say a grant may only narrow, and `:147` that a deny may only grow. A
  pattern is implied by that pattern and one more star, which covers less. So from an allow of `x**` the allow `x*` may
  be granted on, and a deny of `xa*` may be replaced by one of `xa**` (`Caps.WeakenedDenyWidens`); `Caps.CanWidenExactly`
  says which sets can be widened at all, `Caps.NarrowsExactly` decides it for one attenuation, and
  `Caps.PlainChainNarrows` is the promise kept where no name ends in two stars.
- `connectors/data/src/lib.rs:239-241` says row groups a range does not touch are never decompressed. A range of no
  rows that starts inside a group opens that group and skips in it, and a group of no rows between two wanted ones is
  opened (`ParquetColumns.OpenedExactly`, `NoRowsOpenAGroup`).
- `connectors/data/src/lib.rs:897-898` says an empty field reads back as the null it was written for, and `:906-907`
  that what a guest wrote should read back. `CsvRoundTrip.TableReadsBackExactly` says for which tables of integers and
  texts, and which delimiters, it does: a one-column null is an empty line, which the reader skips; a carriage return as
  delimiter is taken for a line's end where the last field is empty; integers are never quoted, so a digit or a minus as
  delimiter cuts them; a text that ends a line and ends in a carriage return loses it.
- `connectors/data/src/lib.rs:703-705` says a line feed inside a field is refused, by a row that does not parse. A
  column of text parses whatever the row: it reads as two rows (`CsvRoundTrip.FeedReadsTwoRows`).
- `connectors/rest/src/lib.rs:1195` adds a stated chunk size to the bytes already out in a machine word, unchecked in
  an optimized build; the frame is the intended one exactly when the sum fits (`Dechunker.WordFrameExactly`, with
  `WordsWrap` where it does not). What is decoded whole is the same all the same (`Dechunker.WordDoneExactly`), and
  `HttpReader.WrappedExactly` says how an answer differs.
- `connectors/ws/src/lib.rs:613-648` queues the owner's close code only if the outbox has room; else the task meets the
  dropped handle and says 1001. Room is not enough either: a frame, a failed send or silence may end the loop first
  (`WsState.CloseCodeExactly` over all runs, `FarCloseWins`).

## Model

| member | source | states |
|---|---|---|
| NetConnector.NetConnector.Sweep | connectors/net/src/lib.rs:448-559 | draining the inbox in place is routing its events one by one in order: push, buffer, overflow, close, accept or turn away |
| NetConnector.NetConnector.EachData | connectors/net/src/lib.rs:458-485 | the walk over all entries for a data event changes exactly the one entry with the event's key |
| NetConnector.NetConnector.EachClosed | connectors/net/src/lib.rs:486-508 | likewise for a close report, with its push and its ending |
| NetConnector.NetConnector.EachAccepted | connectors/net/src/lib.rs:509-552 | a new connection is taken by its live listener, within the backlog, or closed |
| NetConnector.NetConnector.Waiting | connectors/net/src/lib.rs:562-570 | counts the connections waiting under an owner's listener |
| NetConnector.NetConnector.Report | connectors/net/src/lib.rs:242-256 | a report joins the end of the inbox |
| NetConnector.NetConnector.Arrive | connectors/net/src/lib.rs:278-290 | an arriving connection gets a fresh key and is reported |
| NetConnector.NetConnector.BeginOpen | connectors/net/src/lib.rs:590-601 | the entry exists, with a fresh number and key, before the transport is asked |
| NetConnector.NetConnector.BeginListen | connectors/net/src/lib.rs:607-618 | likewise for a listener |
| NetConnector.NetConnector.Settle | connectors/net/src/lib.rs:626-647 | the transport's answer fills the entry, or removes it, or is closed at once when the owner went |
| NetConnector.NetConnector.Accept | connectors/net/src/lib.rs:649-702 | one poll: sweep, find the oldest waiting connection, adopt it with the new declarations |
| NetConnector.NetConnector.Recv | connectors/net/src/lib.rs:735-770 | one poll: sweep, then the oldest message, eof, or nothing yet |
| NetConnector.NetConnector.Close | connectors/net/src/lib.rs:772-792 | the entry, its waiting connections and its offers go; what was live is closed |
| NetConnector.NetConnector.Transfer | connectors/net/src/lib.rs:794-815 | the one pending offer of a handle is replaced |
| NetConnector.NetConnector.Claim | connectors/net/src/lib.rs:817-858 | the oldest fitting offer is taken and the entry moves under the same number |
| NetConnector.NetConnector.Release | connectors/net/src/lib.rs:187-208 | everything an owner held is closed once, its offers withdrawn, what was cut reported |
| NetConnector.NetConnector.Drop | connectors/net/src/lib.rs:215-220 | the connector going away empties its table and closes what was live in it, in table order, keeping the invariant; it does not sweep |
| NetConnector.NetConnector.CloseAll | connectors/net/src/lib.rs:862-877 | closes the live entries with a Conn, in order, and lists the connections cut |
| NetConnector.NetConnector.Oldest | connectors/net/src/lib.rs:673-678 | the walk finds the lowest waiting number under a listener |
| NetConnector.NetConnector.Ended | connectors/net/src/lib.rs:194-197 | sweeps, then hands over the endings |
| NetConnector.NetConnector.Notices | connectors/net/src/lib.rs:199-202 | sweeps, then hands over the pushes |
| NetConnector.TableOrder | crates/drt-connector/src/handles.rs:210-217 | the walk meets every entry once, by owner and then by number |
| NetSafety.EveryRunKeepsInv | connectors/net/src/lib.rs:436-880 | every run of reports, sweeps, calls, releases and the connector going away keeps the whole invariant |
| NetTheorems.NothingLostOrReordered | connectors/net/src/lib.rs:448-508 | given, buffered and still in the inbox is exactly what the transport reported; once gone, given and buffered is exactly what was reported before the close, or before the message that found the buffer full |
| NetTheorems.GivenStaysAPrefix | connectors/net/src/lib.rs:394-425 | what an owner was given on a number is a prefix of what was reported, whatever became of the entry |
| NetTheorems.EofIsTheEnd | connectors/net/src/lib.rs:751-762 | when recv says eof the owner was given all that was reported before the far end's close, or a full buffer's worth before the overflow |
| NetTheorems.BacklogsHold | connectors/net/src/lib.rs:472-530 | no buffer and no accept backlog passes its bound in any reachable state |
| NetTheorems.AcceptTakesTheOldest | connectors/net/src/lib.rs:673-702 | accept takes the lowest waiting number under that listener and makes it the caller's |
| NetTheorems.ClosedExactly | connectors/net/src/lib.rs:110-112 | in every reachable state, the connector gone or not: every Conn is closed at most once; one put into an entry exactly when that neither lives nor was closed by the far end nor overflowed unopened, any other exactly when the news of it was swept or its call answered |
| NetTheorems.OnlyClosingRemoves | connectors/net/src/lib.rs:772-880 | a connection leaves the table only by close, its owner's release, or the connector going away |
| NetTheorems.LeavingCloses | connectors/net/src/lib.rs:862-877 | a live entry that leaves is closed at that very step and not before |
| NetTheorems.DropCloses | connectors/net/src/lib.rs:213-220 | once the connector has gone, and ever after: each Conn closed at most once; one put into an entry unless the far end, or an overflow before the answer, had ended that; any other unless its arrival was still in the inbox |
| NetTheorems.DropLeavesArrival | connectors/net/src/lib.rs:210-212 | a run after which an arrival no sweep had read is never closed |
| NetTheorems.ClosedAfterReport | connectors/net/src/lib.rs:772-792 | for its own Conn, an owner's close breaks the promise exactly when the report is still in the inbox |
| NetTheorems.CloseFollowsAReport | connectors/net/src/lib.rs:110-112 | a run in which close follows a report |
| NetPromise.PromiseBrokenExactly | connectors/net/src/lib.rs:110-112 | any possible step calls close on what was reported closed exactly when its own guard holds of the state before it |
| NetPromise.DropBrokenExactly | connectors/net/src/lib.rs:215-220 | dropping the connector does so exactly for the live entries whose close was not swept |
| NetPromise.SweepBreaks | connectors/net/src/lib.rs:448-559 | a sweep does so exactly for an arrival turned away, or an overflow, whose close stands behind it in the inbox |
| NetPromise.ReleaseFollowsAReport | connectors/net/src/lib.rs:187-192 | a run in which a release does |
| NetPromise.AnswerFollowsAReport | connectors/net/src/lib.rs:636-640 | a run in which an answer that finds its owner gone does |
| NetPromise.SweepFollowsAReport | connectors/net/src/lib.rs:509-552 | a run in which a sweep does: the listener's owner went, and an arrival's close stands behind it |
| NetPromise.DropFollowsAReport | connectors/net/src/lib.rs:215-220 | a run in which the connector going away does |
| NetTheorems.OneOwnerPerNumber | connectors/net/src/lib.rs:845-846 | no number has two owners |
| NetTheorems.OneOfferPerHandle | connectors/net/src/lib.rs:806-812 | at most one pending offer of a handle by its holder |
| NetTheorems.OfferCanBeTaken | connectors/net/src/lib.rs:829-848 | an offer goes to its addressee, and fails exactly when the transport had refused the handle |
| NetTheorems.ClaimMovesOneEntry | connectors/net/src/lib.rs:845-856 | a claim moves one entry under its number and changes no other |
| NetTheorems.ClaimKeepsData | connectors/net/src/lib.rs:396-425 | what was buffered is given to the claimant or kept for it, in order |
| NetTold.PushesAreDelivered | connectors/net/src/lib.rs:194-202 | over any run the data notices handed over, then those pending, are what was pushed of the owners' data, each to its owner under its queue and in order, and the answers of recv are the rest; what is pending when the connector goes is lost |
| NetTold.DeliveredToOwner | connectors/net/src/lib.rs:458-485 | in any step data goes to its entry's owner, under the queue that owner declared, or as the answer to its own recv |
| NetTold.AcceptGives | connectors/net/src/lib.rs:689-702 | an accept makes the oldest waiting entry the caller's with its declarations; with a queue, one push for each buffered message in order, then the close if it is gone |
| NetTold.ClaimGives | connectors/net/src/lib.rs:843-858 | likewise a claim, for what the offerer left unread |
| NetEndings.SweepEnds | connectors/net/src/lib.rs:448-559 | a sweep ends some entries, each once; exactly the owners of those vital end, with cause, kind and name, and exactly those with a queue are told, with the reason |
| NetEndings.StepEnds | connectors/net/src/lib.rs:187-202 | in any step, besides what it sweeps, only an owner that closes what was vital to it ends, and only a new owner of what is gone is told of a close; what is handed over is what had been noted |
| NetEndings.ReleaseReports | connectors/net/src/lib.rs:862-877 | a release reports the name of each live connection it cuts, listeners and connections nobody accepted left out, in table order; and takes all the owner had |
| NetAnswers.ArrivalTaken | connectors/net/src/lib.rs:509-552 | an arrival with a live listener that has room becomes its owner's, waiting or announced; any other is closed and leaves no trace |
| NetAnswers.OpenDeclares | connectors/net/src/lib.rs:590-618 | what open and listen declare is what the new entry says |
| NetAnswers.SettleFills | connectors/net/src/lib.rs:626-647 | the answer fills the entry, a refusal removes it, and with no entry the Conn is closed; nothing else changes |
| NetAnswers.RecvAnswers | connectors/net/src/lib.rs:735-770 | each answer of recv exactly when: the oldest message, the end, nothing yet, or which refusal |
| NetAnswers.AcceptAnswers | connectors/net/src/lib.rs:649-702 | each answer of accept exactly when |
| NetAnswers.SendAnswers | connectors/net/src/lib.rs:704-733 | a send goes out exactly on the caller's own live, answered connection within 1 MiB; each refusal exactly when |
| NetAnswers.CloseTakes | connectors/net/src/lib.rs:772-792 | a close takes exactly the caller's entry, what waits under it and its offer of it, and closes exactly what of that was live |
| NetAnswers.TransferOffers | connectors/net/src/lib.rs:794-815 | a transfer is accepted exactly for the caller's own handle and another node, and puts the one offer of it last, the others in order |
| NetAnswers.ClaimAnswers | connectors/net/src/lib.rs:829-848 | a claim takes the first offer that fits, waits with none, and is refused a number nobody offered it |
| NetAnswers.TransferThenClaim | connectors/net/src/lib.rs:806-848 | what is transferred its addressee can claim by number, and gets that entry under it |
| NetAnswers.OldestOfferFirst | connectors/net/src/lib.rs:829-848 | of two offers to a node that had none the first made is taken first |
| NetTheorems.CallsTouchTheirOwn | connectors/net/src/lib.rs:572-858 | beyond its sweep, any call of an owner leaves every other owner's entry as it was, but for the one a claim was offered |
| Bus.Bus.Open | connectors/net/src/lib.rs:1003-1024 | two linked ends, each holding the other's and its own link |
| Bus.Bus.Listen | connectors/net/src/lib.rs:1026-1035 | a name is taken once |
| Bus.Bus.Send | connectors/net/src/lib.rs:1037-1046 | a send arrives on the far link, or fails when it is gone |
| Bus.Bus.Close | connectors/net/src/lib.rs:1048-1070 | both ends are cut and the other side is told once |
| BusWorld.EndToEnd | connectors/net/src/lib.rs:1003-1046 | what the sends on one end carried is what the other owner got, has buffered and has pending, in order; after the sender's close all of it was got or is buffered; after an overflow a full buffer's worth of it |
| BusWorld.ReceivedWasSent | connectors/net/src/lib.rs:1037-1046 | whatever became of the receiving entry, its owner got a prefix of what was sent |
| BusWorld.SendIsRecorded | connectors/net/src/lib.rs:704-733 | a send that succeeds adds to its own end's stream alone; one that fails changes nothing |
| BusWorld.AfterAClose | connectors/net/src/lib.rs:1048-1070 | after one end closes, the other link was told exactly once, its own never, and sends on both fail |
| BusWorld.ClosedStaysClosed | connectors/net/src/lib.rs:1048-1070 | in every run after a close, both ends stay cut off and sends on them fail |
| BusWorld.NewsIsWaiting | connectors/net/src/lib.rs:486-508 | a connection still seen open whose far end closed has the news in its inbox |
| BusWorld.OpenArrives | connectors/net/src/lib.rs:1003-1024 | an open reaches the listener its address names, and the opener holds the joined end |
| BusWorld.OpenRefused | connectors/net/src/lib.rs:1006-1010 | with nobody there the opener's handle goes and nothing else changes |
| BusState.NameIsTaken | connectors/net/src/lib.rs:1026-1070 | a name is taken by listening and free again once the end that listens is closed |
| BusWorld.DropCutsExactly | connectors/net/src/lib.rs:213-220 | a connector going away cuts a connection exactly when it held one of its ends in a live entry; cut or not, the two sides are told of one close between them, or none |
| BusWorld.DropShuts | connectors/net/src/lib.rs:862-877 | of a connection the closes go in table order, so the end held first shuts it and the other side is told |
| Dechunker.Dechunker.FeedBytes | connectors/rest/src/lib.rs:1171-1209 | the loop over whole frames, its sums machine words, does what the recursive decoder `WordFeed` does: errors, and slices out of bounds, included |
| Dechunker.WordFeedExactly | connectors/rest/src/lib.rs:1171-1209 | decoding with machine words is decoding with exact sums exactly when the decoder does not stop at a size the words cannot add |
| Dechunker.WordFeedWraps | connectors/rest/src/lib.rs:1195-1203 | where it does, the size is too large, and the words end in a bad end, a wait or a panic, with no more bytes out |
| Dechunker.WordDoneExactly | connectors/rest/src/lib.rs:1171-1209 | with machine words it is done with some output exactly when the body starts with well-formed chunks of it within the cap |
| Dechunker.WordFeedResumes | connectors/rest/src/lib.rs:1152-1155 | feeding a prefix that does not panic and then the whole is feeding the whole |
| Dechunker.WordErrorStays | connectors/rest/src/lib.rs:1142-1150 | a panic, an error or an end comes again however much more arrives |
| Dechunker.WordFeedEachIsFeed | connectors/rest/src/lib.rs:1168-1209 | any growing chain of feeds ends where one feed of the whole ends, or at the same error or panic |
| Dechunker.WordEncodeDecodes | connectors/rest/src/lib.rs:1171-1209 | the chunked encoding of any non-empty chunks within the cap comes back whole from machine words, what follows untouched |
| Dechunker.FeedResumes | connectors/rest/src/lib.rs:1152-1155 | with exact sums, feeding a prefix and then the whole is feeding the whole |
| Dechunker.FeedEachIsFeed | connectors/rest/src/lib.rs:1168-1209 | with exact sums, any growing chain of feeds ends where one feed of the whole ends, or at the same error |
| Dechunker.ErrorStays | connectors/rest/src/lib.rs:1142-1150 | with exact sums, an error or an end once reached comes again however much more arrives |
| Dechunker.DoneExactly | connectors/rest/src/lib.rs:1171-1209 | with exact sums, the decoder is done with some output exactly when the body starts with well-formed chunks of it within the cap |
| Dechunker.WordFrameExactly | connectors/rest/src/lib.rs:1195-1203 | machine-word sums give the exact sums' frame exactly when the stated size and the bytes out fit a word together |
| Dechunker.WordsWrap | connectors/rest/src/lib.rs:1195-1197 | a size line that is too large and not refused as such |
| Dechunker.RefusedExactly | connectors/rest/src/lib.rs:1171-1209 | with exact sums, which refusal a frame gets, and when it is read |
| Dechunker.CrlfExactly | connectors/rest/src/lib.rs:1174-1176 | the size line ends at the first CRLF |
| WireNumbers.SizeExactly | connectors/rest/src/lib.rs:1177-1188 | a size line names n exactly when what stands before its first semicolon is, trimmed, an optional plus, leading zeros and n in hexadecimal of either case, and n fits a word |
| WireNumbers.TrimIs | connectors/rest/src/lib.rs:1183-1185 | trimming takes exactly the Unicode white space at both ends |
| Dechunker.EncodeDecodes | connectors/rest/src/lib.rs:1171-1209 | with exact sums, the chunked encoding of any non-empty chunks within the cap comes back whole, what follows untouched |
| HttpReader.FrameBody | connectors/rest/src/lib.rs:874-907 | the loop over headers gives the framing, or the first refusal |
| HttpReader.FramingExactly | connectors/rest/src/lib.rs:874-907 | a head is framed exactly when its content-lengths are numbers and agree; chunked wins, no-body statuses have none |
| HttpReader.FindHead | connectors/rest/src/lib.rs:919-934 | the loop finds the first head that is not interim |
| HttpReader.Exchange | connectors/rest/src/lib.rs:1009-1119 | within the transfer cap the answer is that of all the bytes at once, however reads split them, a decoder's panic included; no read is made once it is decided; the buffer stays bounded |
| HttpReader.Take | connectors/rest/src/lib.rs:1058-1075 | one read taken in keeps head and decoder those of the bytes so far, or decides their error or panic |
| HttpReader.Finish | connectors/rest/src/lib.rs:1082-1119 | the answer once the loop has stopped; what was read before reads the same again |
| HttpReader.DecidedStable | connectors/rest/src/lib.rs:1029-1045 | an answer the bytes decide is changed by no later byte |
| HttpReader.AnsweredExactly | connectors/rest/src/lib.rs:1082-1119 | an answer is given exactly when a final head and its whole body are there, within the cap |
| HttpReader.WrappedExactly | connectors/rest/src/lib.rs:1093-1106 | a chunked response is answered as exact sums answer it exactly when the decoder does not stop at a size that wraps; where it does, an oversize body is refused as a bad end, found short, or stops the reader |
| HttpReader.InterimSkipped | connectors/rest/src/lib.rs:909-934 | an interim head makes no difference to the answer |
| HttpReader.ChunkedAnswer | connectors/rest/src/lib.rs:1093-1106 | a chunked response sent whole is answered with its chunks' bytes |
| HttpHeaders.LengthExactly | connectors/rest/src/lib.rs:883-887 | a content-length names n exactly when it is, trimmed, an optional plus, leading zeros and n in decimal, and n fits a word |
| HttpHeaders.FieldsExactly | connectors/rest/src/lib.rs:877-883 | the two framing fields are known by their names in any case, and the coding by its word anywhere in the value |
| HttpHeaders.FramedExactly | connectors/rest/src/lib.rs:874-907 | how a head is framed, in the fields' own words: refused exactly when its lengths do not name one number |
| HttpHeaders.LengthAnswer | connectors/rest/src/lib.rs:1083-1092 | a head that states the printed length of a body, then the body, is answered with exactly it |
| HttpHeaders.CodedAnswer | connectors/rest/src/lib.rs:1093-1106 | one that says chunked, in any case, is answered with the chunks' bytes |
| HttpHeaders.CloseAnswer | connectors/rest/src/lib.rs:1107-1119 | one that says neither is answered with all there is at the close, within the cap; no head, no answer |
| HttpHeaders.ShortAnswer | connectors/rest/src/lib.rs:1120-1142 | a body cut short is an error with what came, what was stated, and how it closed |
| HttpHeaders.ShortChunks | connectors/rest/src/lib.rs:1120-1142 | so is one whose last chunk never came |
| HttpHeaders.LongAnswer | connectors/rest/src/lib.rs:1064-1071 | a stated length over the cap is refused at once |
| Calendar.CivilIsGregorian | connectors/ssmtp/src/lib.rs:532-555 | the division gives the Gregorian date: day by day from 1 January 1970, a valid date, the inverse of the day count |
| Calendar.CivilCounts | connectors/ssmtp/src/lib.rs:544-555 | every date from 1970 on is the division of its day count |
| Calendar.TomorrowNumber | connectors/ssmtp/src/lib.rs:544-555 | the next date's day count is one more |
| Calendar.WeekdayCycles | connectors/ssmtp/src/lib.rs:538-558 | the weekday table names the day reached by stepping from Thursday |
| Calendar.DateReadsBack | connectors/ssmtp/src/lib.rs:537-563 | the header's text, its marks, month and zone read by a reader's own tables, names its second and its weekday |
| Calendar.NoOverflow | connectors/ssmtp/src/lib.rs:542-555 | for every 64-bit time nothing computed leaves the signed 64-bit range |
| MessageIds.ReadIds | connectors/ssmtp/src/lib.rs:376-408 | the token loop gives the ids or the first refusal |
| MessageIds.OnlyIds | connectors/ssmtp/src/lib.rs:376-438 | whatever a call named, what comes back is 1 to 64 well-formed ids |
| MessageIds.TokenGivesId | connectors/ssmtp/src/lib.rs:412-438 | what a token is read as is a well-formed id |
| MessageIds.IdIsItself | connectors/ssmtp/src/lib.rs:412-438 | a well-formed id is read as itself |
| MessageIds.TokenExactly | connectors/ssmtp/src/lib.rs:412-438 | which tokens are ids, and which refusal the others get |
| MessageIds.TokensAre | connectors/ssmtp/src/lib.rs:394-396 | tokens are the words between Unicode white space |
| MessageIds.IdsExactly | connectors/ssmtp/src/lib.rs:394-398 | the tokens' ids in order, or the first refusal |
| MessageIds.FoldIds | connectors/ssmtp/src/lib.rs:445-459 | the folding loop gives the folded header |
| MessageIds.FoldReadsBack | connectors/ssmtp/src/lib.rs:445-459 | parsing a folded header's value gives back the ids |
| MessageIds.FoldedLinesFit | connectors/ssmtp/src/lib.rs:85-90 | every line is at most 998 bytes, and one of several ids at most 78 |
| MessageIds.FoldsLate | connectors/ssmtp/src/lib.rs:440-459 | a header is folded only where the next id would have passed 78 bytes |
| MessageIds.HeaderFields | connectors/ssmtp/src/lib.rs:445-459 | the header names written are short enough for both line bounds |
| DotStuff.Stuff | connectors/ssmtp/src/lib.rs:277-287 | the line loop gives the stuffed text |
| DotStuff.BodyArrives | connectors/ssmtp/src/lib.rs:272-287 | the server reads exactly the body's lines and ends the message at the sender's own dot |
| DotStuff.NeverEndsEarly | connectors/ssmtp/src/lib.rs:272-276 | the stuffed text neither starts with the end of data nor holds it |
| ParquetColumns.ReadRange | connectors/data/src/lib.rs:275-316 | for any row groups and batch sizes, every row read is the row of the file that far past the start; as many as asked for, or all there are, none past the end; and which groups are opened |
| ParquetColumns.WalkGroup | connectors/data/src/lib.rs:298-314 | one group of the walk adds exactly its part of the range |
| ParquetColumns.OpenedExactly | connectors/data/src/lib.rs:238-302 | which groups are opened, empty ones too |
| ParquetColumns.NoRowsOpenAGroup | connectors/data/src/lib.rs:239-241 | a range of no rows inside a group of two opens it |
| ParquetColumns.Accumulator.Consume | connectors/data/src/lib.rs:352-442 | any batches of a group's rows past a skip accumulate as those rows |
| ParquetColumns.Accumulator.Expand | connectors/data/src/lib.rs:447-479 | dense values and levels become one slot a row, nulls holding the fill |
| ParquetColumns.Accumulator.Intern | connectors/data/src/lib.rs:493-502 | a text gets the index of its first appearance |
| ParquetColumns.Accumulator.Finish | connectors/data/src/lib.rs:504-526 | every row reads as the file's row, with a mask exactly when one is needed |
| ParquetColumns.ExpandUndoes | connectors/data/src/lib.rs:640-656 | levels and dense values lose nothing of the rows |
| ParquetColumns.WriteOne | connectors/data/src/lib.rs:642-697 | the present values and their levels, or the first row whose code names no text |
| ParquetColumns.WrittenReadsBack | connectors/data/src/lib.rs:639-697 | what a column is written as reads back as every value, text and null |
| ParquetColumns.WriteThenRead | connectors/data/src/lib.rs:275-697 | written and read whole, however split into groups and batches, every row says what the guest said; refused exactly when a code names no text |
| CsvLine.SplitLine | connectors/data/src/lib.rs:706-724 | the character loop gives the fields |
| CsvLine.SplitUndoesJoin | connectors/data/src/lib.rs:706-724 | splitting the joined, quoted fields gives back any fields, a lone one under any delimiter |
| CsvLine.SplitUndoesJoinExactly | connectors/data/src/lib.rs:932-938 | it does for all fields exactly when the delimiter is not the quote |
| CsvLine.QuotedExactly | connectors/data/src/lib.rs:932-938 | a field is quoted exactly when it holds the delimiter, a quote or a line feed |
| Csv.IntExactly | connectors/data/src/lib.rs:803-846 | a text is an integer exactly when it is a sign if any, leading zeros, and one of 64 bits in decimal |
| Csv.ReadColumn | connectors/data/src/lib.rs:814-874 | the cell loop builds the column, with its codes and mask, or names the first bad row |
| Csv.BuildHolds | connectors/data/src/lib.rs:821-854 | a column is read exactly when every cell means something, and every row then holds its cell, texts pooled once |
| Csv.ColumnSays | connectors/data/src/lib.rs:814-874 | every row of a decoded column says what its cell means |
| CsvTable.ReadTable | connectors/data/src/lib.rs:732-790 | lines, header, cells by column, hints or inference |
| CsvTable.ReadRows | connectors/data/src/lib.rs:758-790 | the nested loop collects each column's cells, short rows padded |
| CsvTable.InferType | connectors/data/src/lib.rs:795-812 | the loop gives the column's type |
| CsvTable.InferExactly | connectors/data/src/lib.rs:792-812 | text exactly when a cell is no number or there is none; integers when every cell is one; doubles when some is not but all are numbers |
| CsvInferred.TableReads | connectors/data/src/lib.rs:732-790 | whatever is read: a row for each line with something on it, a column for each field of the first, named or numbered, each row saying what its cell means |
| CsvInferred.WrittenExactly | connectors/data/src/lib.rs:876-930 | a table is written exactly when its columns are as long and every code names a text; else the error says which does not |
| CsvInferred.HeaderGoesFirst | connectors/data/src/lib.rs:886-890 | the header is one line before the rest |
| CsvTable.WriteTable | connectors/data/src/lib.rs:876-930 | the text written, or the first refusal |
| CsvTable.WriteRow | connectors/data/src/lib.rs:893-925 | one row's fields in column order, or the first code that names no text |
| CsvRoundTrip.TableReadsBackExactly | connectors/data/src/lib.rs:732-938 | under any delimiter a written table of integers and texts reads back, every name, row and null, exactly when nothing is lost at a line's end, no integer has the delimiter in it, and no field a line feed |
| CsvInferred.TableRecovers | connectors/data/src/lib.rs:732-938 | with no hint it reads back the same where its lines do: integers as integers if there is one, texts as texts if one is no number, nulls as text |
| CsvInferred.TextStaysExactly | connectors/data/src/lib.rs:795-812 | texts come back as texts exactly when one of them is no number, or there is none |
| CsvInferred.IntsStayExactly | connectors/data/src/lib.rs:795-812 | integers come back as integers exactly when there is one |
| CsvRoundTrip.RowCountExactly | connectors/data/src/lib.rs:738-755 | as many rows are read as written exactly when no row is an empty line, under any delimiter |
| CsvRoundTrip.CarriageReturnDropsRow | connectors/data/src/lib.rs:738-755 | with a carriage return as delimiter a table of one row, two nulls, reads back with none |
| CsvRoundTrip.DigitCutsInteger | connectors/data/src/lib.rs:909-909 | with a digit as delimiter an integer does not read back |
| CsvRoundTrip.MinusCutsInteger | connectors/data/src/lib.rs:909-909 | nor with a minus |
| CsvRoundTrip.FeedReadsTwoRows | connectors/data/src/lib.rs:703-705 | a text with a line feed reads as two rows |
| WsTask.Connect | connectors/ws/src/lib.rs:266-300 | the two sides start in a state of the invariant |
| WsTask.Owner.RecvLook | connectors/ws/src/lib.rs:578-611 | one look of recv - drain, wake the task if it was full, the close if there is one - is a step that keeps the invariant |
| WsTask.Owner.BecameReady | connectors/ws/src/lib.rs:314-328 | one notice for what became ready, keeping the invariant |
| WsTask.Owner.SendLook | connectors/ws/src/lib.rs:541-566 | one look of send - queued, pending or refused - keeping the invariant |
| WsTask.Owner.Close | connectors/ws/src/lib.rs:613-648 | the handle goes and the wish is queued if there is room, keeping the invariant |
| WsState.EveryRunKeeps | connectors/ws/src/lib.rs:571-1001 | every interleaving keeps the invariant |
| WsState.InboxHolds | connectors/ws/src/lib.rs:104-106 | the inbox keeps its bound, and what was handed out and waits is what the loop read, in order; that is all that was read unless a close frame of this side went out, after which the wait for the far end's drops what comes |
| WsState.WaitingIsWoken | connectors/ws/src/lib.rs:269-270 | a task waiting for room finds the inbox full or its wake stored |
| WsState.DrainReadsAgain | connectors/ws/src/lib.rs:580-586 | after a drain the waiting task wakes and reads frames again |
| WsState.ClosedIsLast | connectors/ws/src/lib.rs:587-609 | closed comes only with or after the last message, and every later answer says the same |
| WsAnswers.RecvSaysCause | connectors/ws/src/lib.rs:587-611 | in any run recv says no close while opening or open, and then the code and reason of what ended it - the far end's frame, 1005, 1006 with its sentence, the owner's own, 1001 - with all that waits; nothing only when told to wait with nothing there |
| WsAnswers.RecvTakes | connectors/ws/src/lib.rs:578-586 | a look takes all that waits, and wakes the task exactly when the inbox was full |
| WsAnswers.SendSays | connectors/ws/src/lib.rs:541-566 | a send is taken exactly when open with room, waits while opening or full, is refused once over |
| WsAnswers.ReadyIsTold | connectors/ws/src/lib.rs:314-328 | an owner to be woken is told exactly when there is something and it was not told since it last looked |
| WsAnswers.OpenSays | connectors/ws/src/lib.rs:925-931 | an open connection has the status its handshake was answered with |
| WsState.StateMovesForward | connectors/ws/src/lib.rs:142-154 | nothing moves a connection back |
| WsState.OpenBeforeClosed | connectors/ws/src/lib.rs:142-154 | every run from connecting to closed passes through open |
| WsState.FailedStaysFailed | connectors/ws/src/lib.rs:142-154 | a dial that failed stays failed |
| WsState.CloseCodeExactly | connectors/ws/src/lib.rs:613-648 | in any run after the owner's close its code goes out exactly when the outbox had room, the loop was not over, and nothing interrupts the task before it gets there; with a full outbox 1001 |
| WsState.FarCloseWins | connectors/ws/src/lib.rs:958-974 | with room and an open connection, the far end's close read first is what it ends with |
| WsState.CloseCanGoOut | connectors/ws/src/lib.rs:977-993 | wherever the task stands, some run sends the owner's code exactly when there was room and the loop was not over |
| Base32.Encode | connectors/crypto/src/lib.rs:2020-2037 | the shift-buffer loops give the bit string regrouped by five, ceil(8n/5) letters |
| Base32.ShiftIn | connectors/crypto/src/lib.rs:2025-2027 | what a 32-bit shift drops was not pending |
| Base32.DecodeUndoes | connectors/crypto/src/lib.rs:2018-2037 | a decoder recovers every input |
| Caps.CoversExactly | crates/drt-caps/src/lib.rs:30-39 | an implied name is covered in all it implies, but for a pattern and that pattern with one more star |
| Caps.BareStar | crates/drt-caps/src/lib.rs:23-28 | a bare star is a literal name |
| Caps.AllowKeptExactly | crates/drt-caps/src/lib.rs:247-256 | everything a parent's allow implies it covers exactly when it is not a pattern and one more star |
| Caps.DenyKeptExactly | crates/drt-caps/src/lib.rs:257-271 | every deny accepted for a parent's still covers it exactly when that is not a pattern |
| Caps.DeniesGrow | crates/drt-caps/src/lib.rs:261-271 | what a parent denies its child denies, when each deny is backed by more than itself and a star |
| Caps.StepNarrows | crates/drt-caps/src/lib.rs:248-293 | one attenuation narrows when every allow and every deny of the two lists is so backed |
| Caps.NarrowsExactly | crates/drt-caps/src/lib.rs:212-224 | one list narrows another exactly when no name up to one byte longer than theirs is held of it and not of the other |
| Caps.PlainIsFirm | crates/drt-caps/src/lib.rs:248-271 | what is accepted is so backed when no name in it ends in two stars, or the parent denies no pattern |
| Caps.CanWidenExactly | crates/drt-caps/src/lib.rs:248-293 | some accepted child of a set holds what it does not exactly when a held name gives one neither held nor denied for good, both no longer than its names and one byte |
| Caps.WeakenedDenyWidens | crates/drt-caps/src/lib.rs:257-271 | a deny replaced by itself and a star is accepted, and more is held |
| Caps.AcceptedExactly | crates/drt-caps/src/lib.rs:248-281 | an attenuation is accepted exactly when each allow is held and each of the parent's denies denied; else the first allow not held, or a deny dropped, is named |
| Caps.ChainNarrows | crates/drt-caps/src/lib.rs:248-293 | what a set holds, every set back to the root holds, when each step narrows the names of bounded length |
| Caps.ChainNarrowsExactly | crates/drt-caps/src/lib.rs:248-293 | every set of a chain holds no more than those it came through exactly when each step narrows the names of bounded length |
| Caps.FirmIsSound | crates/drt-caps/src/lib.rs:248-293 | each step does when it is backed, or accepted from a set that cannot be widened |
| Caps.PlainChainNarrows | crates/drt-caps/src/lib.rs:145-148 | where no name in the chain ends in two stars, every grant only narrowed, along the whole chain |
| Caps.ChainEnds | crates/drt-caps/src/lib.rs:282-293 | the chain goes from the parent to the root |
| Caps.NeverWidensExactly | crates/drt-caps/src/lib.rs:23-39 | no attenuation of a lone allow widens it exactly when its name does not end in two stars after something |
| Comments.Strip | crates/drt-config/src/comments.rs:61-76 | retaining and stripping children in place gives the stripped document |
| Comments.Retain | crates/drt-config/src/comments.rs:64-64 | the entries that are not comments, in order |
| Comments.FilteredIsStripped | crates/drt-config/src/comments.rs:226-282 | on any tokens, reading through the filter is reading plainly and stripping |
| Comments.FilterReadsStripped | crates/drt-config/src/comments.rs:226-282 | a document read through the filter is the document stripped, in order |
| Comments.StrippedClean | crates/drt-config/src/comments.rs:60-76 | no comment key survives at any depth |
| Comments.UnchangedExactly | crates/drt-config/src/comments.rs:60-76 | stripping changes nothing exactly when there is no comment |
| Comments.StripTwice | crates/drt-config/src/comments.rs:60-76 | stripping again changes nothing |
| Comments.Reader.NextKeySeed | crates/drt-config/src/comments.rs:258-273 | the loop passes over comments and their values |
| Comments.Reader.ReadValue | crates/drt-config/src/comments.rs:226-244 | a value is read through the filter again at every depth |
| Comments.Reader.ReadArray | crates/drt-config/src/comments.rs:236-247 | every item is read through the filter |
| Comments.Reader.ReadObject | crates/drt-config/src/comments.rs:253-282 | every entry left is read through the filter, in order |
| EscapeFilter.Escape.FilterBytes | connectors/ssh/src/interactive.rs:509-532 | the byte loop gives what is sent, the verdict and the state left |
| EscapeFilter.SplitsDoNotMatter | connectors/ssh/src/interactive.rs:494-532 | what is sent and the verdict do not depend on how reads split the input |
| EscapeFilter.QuitsExactly | connectors/ssh/src/interactive.rs:490-493 | it disconnects exactly when a line starts with the escape and a dot, a tilde held from an earlier read included |
| EscapeFilter.HeldBack | connectors/ssh/src/interactive.rs:509-532 | only a tilde typed last is held back, and the filter knows whether a line starts |
| EscapeFilter.DoublingSendsAll | connectors/ssh/src/interactive.rs:490-532 | doubling each line-start tilde sends any bytes as they are |
| EscapeFilter.PlainIsSent | connectors/ssh/src/interactive.rs:509-532 | where no line starts with the escape doubled or dotted, all is sent as typed but an escape held back at the end |
| Utf16.Decoder.Push | connectors/ssh/src/console.rs:333-342 | one push: all but a trailing high surrogate, which waits |
| Utf16.SplitsDoNotMatter | connectors/ssh/src/console.rs:323-343 | the pushes' bytes and a replacement for a waiting half are the lossy decoding of the whole |
| Utf16.TextArrives | connectors/ssh/src/console.rs:323-343 | text arrives as its UTF-8 however it is split, with nothing left waiting |
| Utf16.LoneIsReplaced | connectors/ssh/src/console.rs:323-343 | a surrogate without its half is one replacement character and changes nothing around it |
| Utf16.PairIsRead | connectors/ssh/src/console.rs:323-343 | two halves are their character |

## Left out

- Argument parsing, error wording and reply encoding of every connector: an error is its kind and what it names.
- `net` and `ws` under real concurrency: each poll, sweep and report is one atomic step, as is a bus `open`. A send on
  the bus is its look at the table and its delivery together.
- `net` handles offered without having been answered: a node is taken to name only numbers it was answered, so
  `NetTheorems.OfferCanBeTaken` speaks of a refused handle rather than of every number a node could guess.
- NetTheorems.ClosedExactly: an overflow before `open` answers marks the entry gone with no Conn, so a Conn that
  arrives later is never closed; the code promises at most one close there, and the lemma says exactly which.
- BusWorld.EndToEnd: after an overflow what was received is a proper prefix, because the code drops what follows; after
  the sender's close nothing is lost, and the statement is exact.
- Other `net` transports (`connectors/ws/src/net.rs`, the page's): a transport is any order of reports.
- Timeouts, clocks, entropy, DNS, TLS, the WebSocket and SSH libraries. A WebSocket send succeeds or fails; the bounded
  wait for the far end's close frame is any number of frames passed over.
- The HTTP head parser is a function whose answers stand once more bytes arrive. The bounds on the headers handed to
  the guest (`connectors/rest/src/lib.rs:843-857`) are a filter on its list and are not modelled.
- Dechunker.Dechunker.FeedBytes: sums are those of an optimized build, where they wrap; a build that checks them panics
  at the first sum that does not fit, which is not modelled.
- HttpReader.AnsweredExactly: no buffer is longer than a signed word counts, and only such bytes are spoken of.
- `open` and `listen` calls still unanswered when the connector goes: they end with their callers, and no answer follows.
- The WebSocket library's own reply to the far end's close frame is not among the close codes `WsState` counts as said.
- CsvRoundTrip.TableReadsBackExactly: integer and text columns with hints; `CsvInferred.TableRecovers` has those
  without. The text of doubles belongs to the platform, so `Floats` is a parameter of the reader and writer and no double
  round trip is claimed.
- Columns as bytes: one 8-byte slot is one number, so the little-endian packing and a partial slot are not modelled.
- The parquet file: a column of a row group is its rows; the library gives some of them at a time, as values and levels.
  Its handling of repetition levels and physical types beyond number and text is not modelled.
- UTF-8 decoding of interned text is a function of the bytes; `ParquetColumns.WrittenReadsBack` assumes it undoes encoding.
- `Comments.Strip` rewrites a document value and returns it; the owned tree it stands for has no aliases to lose. Enums,
  options and newtypes are read as the values they hold.
- Scopes of grants, the capability registry and name parsing: only names and effects take part in `holds`.
- `ws` vital connections, `release` reports and `ended`; the `rest`, `ssmtp` and `data` scopes and file access.
- `kv`, `ldap`, `exec`, `fs`, `sql`, `time`, `aloecrypt`, `socket`, the dispatcher, the swarm and the C engine.
