# Chat relay registry, modelled in Dafny

This project models the connection registry and broadcast fan-out of the chat
relay's server (`server/server.go`). The relay accepts TCP connections. It
keeps a registry of connected clients and rebroadcasts every line a client
sends to all the other clients. It also announces joins and departures with a
count of the others present.

The model has three modules:

- `Relay` (`relay.dfy`): the vocabulary.
  - A `Client` is an object whose identity is the client's pointer.
  - A message is a `seq<char>`.
  - An `Outbox` maps each client to every message written to its connection, oldest first.
  - `Recipients` is who a broadcast reaches.
  - `Deliver` is what one fan-out does to the outbox, and `DeliverAll` is a run of fan-outs.
- `Notices` (`notices.dfy`): the three lines the server composes itself: the join notice, the disconnect notice and the welcome line.
  - Each carries an `int` count written the way Go's `%v` writes it (`FormatInt`).
  - A parser (`ParseInt`, `CountIn`) is the inverse of the formatting. It shows that the count reads back from every notice.
- `ChatServer` (`server.dfy`): the `Server` class.
  - Its mutable registry `clients: set<Client>` stands for the Go map `map[*Client]*Client`, whose values are always the keys.
  - Its ghost `outbox` records every `conn.Write`.
  - It has one method per operation of the source, and loops where the source loops: the `range` over the registry in `broadcast` and the read loop of `handleClient`.
  - `Valid()` is the framing invariant that every operation keeps: every message written is a single newline-terminated line.

Conventions:

- A write that fails is modelled by a `failing: set<Client>` parameter. The writes to those clients fail, are only logged, and append nothing.
- The read loop takes one such set per read (`failing: seq<set<Client>>`), so a connection may accept some writes and fail later ones.
- The successive reads of a client's connection are an input sequence of `Read` outcomes: a whole line or an error.
- Each `go` statement is taken to run to completion where it is started.

Two properties of the code shape what the model promises:

- No order is guaranteed, even for one sender: line 99 starts a goroutine for every line read and line 116 one for every send. `SessionStreams` therefore states each listener's stream only as a multiset.
- The code has no lock around the registry. The model takes the snapshot when `Broadcast` starts and does not model the races.

## Model

| member | source | states |
|---|---|---|
| Relay.Recipients | server/server.go:109-118 | Whether a member is reached depends only on whether it is the excluded client. A nil exclusion reaches every member. Excluding a member reaches exactly one fewer. No non-member is ever reached. |
| Relay.DeliverSentTo | server/server.go:120-125 | One fan-out appends the message to the stream of each client it reaches. Every other client's stream is unchanged. |
| Relay.DeliverSent | server/server.go:111-117 | The same as DeliverSentTo, for all clients at once. |
| Relay.BroadcastReach | server/server.go:109-118 | A broadcast excluding `exclude` appends msg exactly for the members other than `exclude` whose writes succeed. Streams are unchanged for the excluded client, for members whose write fails, and for every non-member. |
| Relay.DeliverOneMore | server/server.go:111-117 | Sending to the recipients one at a time, as the `range` loop does, adds up to a single fan-out to all of them. |
| Relay.DeliverDisjointCommute | server/server.go:116 | Sends to disjoint sets of clients commute, whatever the messages. The order in which the per-recipient goroutines run does not matter. |
| Relay.DeliverToNobody | server/server.go:111 | A fan-out with no recipients leaves every stream as it was. |
| Relay.DeliverKeepsLines | server/server.go:121 | Writing a single line keeps every stream a sequence of single lines. |
| Relay.DeliverAllSent | server/server.go:88-100 | A run of fan-outs, each message with its own recipients, appends to each client's stream exactly the messages of the run that reach it, in order. |
| Relay.AddressedEvery | server/server.go:88-100 | A client reached by every fan-out of a run is sent the whole run. |
| Relay.AddressedNone | server/server.go:88-100 | A client reached by no fan-out of a run is sent nothing. |
| Relay.DeliverAllOneMore | server/server.go:88-100 | One more fan-out, with its own recipients, extends a run of fan-outs by one message. |
| Relay.OthersCount | server/server.go:82 | For every member, `len(clients)-1` equals the number of other members. |
| Notices.NatToDecimal | server/server.go:82 | A non-negative count is written as a non-empty run of decimal digits. It has a leading zero only when the count is zero. |
| Notices.FormatInt | server/server.go:82 | `%v` of an int begins with a minus sign exactly when the value is negative, followed by decimal digits. |
| Notices.DecimalRoundTrip | server/server.go:82 | Reading back the digits of a non-negative count gives the count. |
| Notices.FormatIntRoundTrip | server/server.go:82 | Parsing a formatted int, including -1, gives the int back. |
| Notices.FormatIntHasNoNewline | server/server.go:82 | A formatted count holds no newline. |
| Notices.FramedCount | server/server.go:82 | A head, a count and a tail, none holding a newline, followed by the newline make a single line, and the count reads back from it. |
| Notices.NoticesAreLines | server/server.go:82 | The join notice, the disconnect notice and the welcome line are each exactly one newline-terminated line. |
| Notices.NoticeCountsReadBack | server/server.go:95 | The count in each of the three composed lines reads back as the count the server put there. |
| ChatServer.LastLeaveReachesNobody | server/server.go:94-95 | When the last member leaves, the count is -1 and the disconnect notice changes no one's stream. |
| ChatServer.AnnouncedCounts | server/server.go:82-95 | The count that a recipient of the join or disconnect notice, or the welcomed client, reads back from the line is the number of members other than itself. |
| ChatServer.ListenersAt | server/server.go:88-100 | What the i-th read produces is addressed to the members other than c, less those whose write fails on that read. |
| ChatServer.SessionStreams | server/server.go:85-100 | Over one client's session, in any order of the relaying goroutines, the client receives only its welcome line (when that write succeeds). Every other client receives, as a multiset, exactly the relayed messages whose writes to it succeed. |
| ChatServer.SessionReach | server/server.go:85-100 | Over one client's session, a member whose writes never fail receives every relayed message, as a multiset. A non-member, or a member whose every write fails, receives nothing. |
| ChatServer.Server.constructor | server/server.go:34-45 | `newServer` stores the network, host and port. It starts with an empty registry and nothing written to anyone. |
| ChatServer.Server.SendToClient | server/server.go:120-125 | A successful write appends msg to c's stream. A failed write changes nothing, and the registry never changes. |
| ChatServer.Server.Broadcast | server/server.go:109-118 | The registry is unchanged. The outbox becomes `Deliver(old outbox, Recipients(clients, client) - failing, msg)`, so failed writes do not affect the other recipients. The framing invariant is kept when msg is a line. |
| ChatServer.Server.EnqueueClient | server/server.go:80-83 | The registry gains c, and re-adding a present client changes nothing. Every other member whose write succeeds is sent the join notice with count `len(clients)-1`, taken after the insert. c itself is sent nothing. |
| ChatServer.Server.HandleConnection | server/server.go:67-78 | A new client object joins, and the registry grows by one. The previous members are sent the join notice with the old registry size as count. The newcomer's stream is empty. |
| ChatServer.Server.Welcome | server/server.go:86 | The welcome line with count `len(clients)-1` is appended to c's stream when the write succeeds, and to no one else's. The registry is unchanged. |
| ChatServer.Server.Disconnect | server/server.go:91-96 | c is removed. When c is absent the registry is unchanged, and the disconnect notice is still sent. The disconnect notice, with `len(clients)-1` computed after the removal, goes to every remaining member whose write succeeds, and never to c. |
| ChatServer.Server.ReceiveMessage | server/server.go:103-107 | The line is forwarded unchanged to every member but its sender, except the members whose writes fail. The registry is unchanged. |
| ChatServer.Server.ReadOnce | server/server.go:89-99 | A line is relayed to the others. A failed read removes c, and the others are sent the disconnect notice. The result says whether the loop stops, and the outbox is one fan-out of what the read produced. |
| ChatServer.Server.ReadLoop | server/server.go:88-100 | The loop stops at the first failed read, and every earlier read was a line. c leaves the registry exactly when a read failed. The outbox is the run of fan-outs of what the consumed reads produced, each read's message going to the other members less those whose write fails on that read. |
| ChatServer.Server.HandleClient | server/server.go:85-101 | The welcome write is followed by the read loop. The outbox is the welcome fan-out followed by the loop's run of fan-outs, each read with its own failing writes. |

## Left out

- `Listen` and `main` (server/server.go:48-65, 127-130): listening, accepting and `log.Fatal` are socket I/O and process control. `network`, `host` and `port` are only stored.
- Logging, the `log.Printf` calls and `RemoteAddr` (server/server.go:21-24), have no effect on the registry or on what clients receive.
- `conn.Close` (server/server.go:93): the model does not track whether a connection is open. A write that races with the close is modelled as a failed write.
- Concurrency. Each `go` statement's work happens at once where it is started. The model does not capture:
  - the races on the unsynchronised map;
  - the welcome count at line 86 being read after joins or departures that happened later;
  - a broadcast's `range` seeing a registry changed while it runs.
- Framing of reads (server/server.go:89). Each read's outcome is an input: a whole line, or an error.
  - A fresh `bufio.Reader` is built for every line, so bytes it buffers beyond the first newline are dropped. The model does not capture that.
  - A final line without a newline arrives together with the error and is not relayed, which matches `Failed`.
- ReadLoop: the source reads until a read fails, however long that takes. The model reads a finite sequence of outcomes and may stop with none left.
- ReadLoop: the registry is the same for the whole loop. No other client joins, leaves or relays between two reads, so each line goes to the members present when the loop starts, and the counts use that registry. In the source other handlers run at the same time (server/server.go:77, 99, 116).
- HandleClient: the registry is the same for the whole session, as for ReadLoop. A join or departure during the session is outside its contract.
- HandleConnection: the model stops after the registration. The handler that line 77 starts (`go s.handleClient(&client)`) is a separate call to HandleClient.
- ReadLoop: the outbox it states is the serial order in which each relay finishes before the next read. The source promises no such order, and SessionStreams states the order-free part.
- HandleClient: the outbox it states is the same serial order as ReadLoop's. The source promises no such order, and SessionStreams states the order-free part.
- SessionStreams: states each listener's stream only up to order (a multiset), because the source relays every line and every send from its own goroutine.
- Broadcast, ReceiveMessage: require a non-empty message. The source slices `msg[:len(msg)-1]` for its log line (server/server.go:105, 110) and would panic on an empty message. Every caller passes a line.
- Bytes are modelled one-to-one as characters. The composed notices are ASCII, and relayed lines are copied without interpretation.
- Partial writes are not modelled: a write either succeeds whole or fails.
- The companion client, `client/client.go`, is not part of this model.
