# go-sse, modelled in Dafny

go-sse is a Server-Sent Events hub. Clients are browser connections. A
client subscribes to one channel (a topic, named by default after the
request path), under a client name and a version. The server keeps a map
from channel name to channel, and each channel keeps a map from client
name to client. One dispatch loop does all the work. It adds a client,
creating the channel on first use. It removes a client, deleting its
channel once the channel is empty. It closes a channel, and it handles
shutdown and a periodic heartbeat. Publishing routes a message to every
channel or to one channel, and to every client or to one named client.
Every client applies its own version filter. A delivered message updates
the client's last event id and goes onto its outbound queue. The
connection drains that queue and writes each message in the
`text/event-stream` wire format.

The model has these parts:

- `text.dfy` (module `Text`): the string helpers the encoder needs.
  - `ReplaceAll`, specified through `Split` and `Join`.
  - `Decimal`, the `%d` rendering of a positive integer.
- `message.dfy` (module `Messages`): the `Message` value and its
  constructors.
  - `Message.String` is the buffer-building encoder.
  - It is proved equal to `EventStream`, a rendering of a list of wire
    fields (`Field`). Most properties of the encoding are proved about
    those fields.
- `client.dfy` (module `Clients`): `Client` as a class.
  - The Go channel `send` becomes the field `queue`, the sequence of every
    message pushed onto it, plus a flag `closed`.
  - `Offered` states what offering one message does to one client.
- `channel.dfy` (module `Channels`): `Channel` as a class over a map of
  clients.
- `topics.dfy` (module `Topics`): the server's table of topics as a value.
  - The type is `map<string, map<string, Client>>`.
  - It comes with subscribe, unsubscribe, teardown and count operations.
  - Their invariant is `WellFormed`: no empty topic, every client stored
    under its own name, in the topic it subscribed to.
- `server.dfy` (module `Dispatch`): `Server` as a class.
  - The dispatch loop's cases are one atomic method each.
  - Each Server method's new state is tied to the `Topics` operations
    through the ghost function `Table()`.

## Model

| member | source | states |
|---|---|---|
| Text.ReplaceAll | message.go:62 | a string without the separator is returned unchanged |
| Text.ReplaceIsJoinOfSplit | message.go:62 | replacing every occurrence is the same as splitting at it and joining with the replacement |
| Text.Split | message.go:62 | there is always at least one piece, and no piece contains the separator |
| Text.SplitCount | message.go:62 | a string with k separators splits into k+1 pieces |
| Text.JoinSplit | message.go:62 | joining the pieces with the separator gives back the original string |
| Text.SplitJoin | message.go:62 | splitting a join of separator-free pieces gives back the pieces |
| Text.ReplaceByItself | message.go:62 | replacing a character by itself changes nothing |
| Text.Decimal | message.go:54 | the rendering is a non-empty digit string with no leading zero for a positive number |
| Text.DecimalRoundTrip | message.go:54 | parsing the decimal rendering gives back the number |
| Messages.SimpleMessage | message.go:18-20 | only the data is set; no id, no event, retry and version 0 |
| Messages.SimpleMessageVer | message.go:22-24 | only the data and the version are set |
| Messages.NewMessage | message.go:26-34 | id, data and event as given; retry and version 0 |
| Messages.NewMessageVer | message.go:36-44 | id, data, event and version as given; retry 0 |
| Messages.Message.String | message.go:46-68 | the guarded appends build exactly the event-stream rendering of the message's fields |
| Messages.RenderSingles | message.go:49-59 | the id, retry and event lines appear only when the field is non-empty (retry only when positive), each with its prefix and a newline |
| Messages.DataSection | message.go:61-63 | the data block is one `data: ` line per newline-separated piece of the data |
| Messages.DataFields | message.go:61-63 | there is one data field per line, in order |
| Messages.EndsWithBlankLine | message.go:65 | every encoding ends with the terminating newline |
| Messages.EmptyMessage | message.go:46-67 | a message with no id, data, event or positive retry encodes as a single blank line |
| Messages.FieldOrder | message.go:46-67 | fields come in the order id, retry, event, data |
| Messages.FieldCounts | message.go:49-63 | at most one id, retry and event line; one data line per newline in the data plus one, or none for empty data |
| Messages.PayloadPreserved | message.go:61-63 | the data lines carry exactly the pieces of the data, and joining them with newlines gives back the data |
| Messages.HeaderHasNoPayload | message.go:49-59 | the id, retry and event lines carry no payload |
| Messages.RenderAppend | message.go:46-67 | rendering distributes over concatenation of field lists |
| Messages.ExampleEncoding | message.go:46-67 | a message with id 7, retry 3000, event update and data "a\nb" encodes to its exact five lines and the blank line |
| Clients.Client.constructor | client.go:12-20 | fields as given, with an empty, open queue |
| Clients.Client.SendMessage | client.go:23-28 | a message passing the version filter sets the last event id and is appended to the queue; any other message changes nothing; the queue is never closed by a send, and a closed queue cannot take a delivery |
| Clients.Client.Channel | client.go:31-33 | the subscribed topic |
| Clients.Client.LastEventID | client.go:36-38 | the id of the last delivered message |
| Clients.SendAll | client.go:23-28 | after a run of sends the queue has grown by exactly the filtered messages, in order, and the last event id is that of the last one delivered, or unchanged when none passes |
| Clients.DeliveredExtend | client.go:23-28 | one more offer extends the filtered run by the new message exactly when it passes the filter |
| Clients.DeliveredIsFilteredSubsequence | client.go:23-28 | the filtered run that `SendAll` appends to the queue is exactly the subsequence of the offered messages whose version passes the filter, in the order offered |
| Channels.Channel.constructor | channel.go:10-16 | named as given, with no clients and no last event id |
| Channels.Channel.SendMessage | channel.go:19-33 | with a name, only the client of that name is offered the message; without one, the topic's last event id becomes the message's and every client is offered it once; the client map does not change |
| Channels.Channel.Close | channel.go:36-41 | every client's queue is closed and the topic has no clients afterwards |
| Channels.Channel.ClientCount | channel.go:44-46 | the number of clients, zero exactly when there are none |
| Channels.Channel.LastEventID | channel.go:49-51 | the id of the last message broadcast to the whole topic |
| Channels.Channel.AddClient | channel.go:53-55 | the client replaces whatever was stored under its name; the map keys stay the clients' names |
| Channels.Channel.RemoveClient | channel.go:57-61 | the client's queue is closed and its name is dropped; the other clients are kept |
| Topics.SubscribeNoEmptyTopic | sse.go:196-205 | subscribing never leaves an empty topic |
| Topics.SubscribeKeepsInvariant | sse.go:195-206 | subscribing keeps the table well formed, and the members afterwards are the old ones, minus the one in the new client's slot, plus the new client |
| Topics.UnsubscribeNoEmptyTopic | sse.go:209-221 | unsubscribing deletes a topic left empty |
| Topics.UnsubscribeKeepsInvariant | sse.go:209-221 | unsubscribing keeps the table well formed; it removes exactly the member in the client's slot; the topic goes away exactly when the client's name was its only key |
| Topics.MembersAtSlot | sse.go:196-211 | in a well-formed table a client is a member exactly when it is stored under its own topic and name |
| Topics.TeardownKeepsInvariant | sse.go:224-231 | tearing a topic down keeps the table well formed and removes exactly that topic's members |
| Topics.RestrictTeardown | sse.go:182-186 | closing the topics one by one leaves the table restricted to the names not yet closed |
| Topics.RestrictMembers | sse.go:182-186 | restricting to some topics keeps the table well formed and keeps exactly the members of those topics |
| Topics.TotalRemove | sse.go:144-152 | the client total is one topic's count plus the total of the rest, in any order of topics |
| Topics.TotalSubscribe | sse.go:195-206 | subscribing raises the client total by one, unless the new client replaces one under the same name |
| Topics.TotalUnsubscribe | sse.go:209-221 | unsubscribing lowers the client total by one exactly when the client's name was registered |
| Topics.TotalTeardown | sse.go:224-231 | tearing a topic down lowers the total by that topic's count |
| Topics.TotalIsMembers | sse.go:144-152 | in a well-formed table the total counts distinct clients |
| Topics.TotalAtLeastTopics | sse.go:144-152 | a well-formed table has at least as many clients as topics |
| Dispatch.HeartbeatMessage | sse.go:245 | an event named heartbeat, with no id and no data |
| Dispatch.Server.constructor | sse.go:34-41 | no topics; the loop is running |
| Dispatch.Server.ValidMeans | sse.go:195-231 | the server invariant gives a well-formed table whose members are the registered clients, all with open queues |
| Dispatch.Server.Create | sse.go:198-201 | a new topic named after the client's channel, fresh, with no clients and no last event id, is stored under its name; the table gains that empty topic and nothing else changes |
| Dispatch.Server.Ensure | sse.go:196-203 | the topic of the given name exists afterwards; a missing one is created fresh and empty; existing topics are kept |
| Dispatch.Server.Attach | sse.go:205 | the client is stored in its topic under its name, replacing any client there |
| Dispatch.Server.AddClient | sse.go:195-206 | the table becomes the old table with the client subscribed; existing topics are kept; a new topic starts with no last event id; the invariant is kept |
| Dispatch.Server.Unregister | sse.go:211 | the client's name is dropped from its topic and its queue closed |
| Dispatch.Server.Dismantle | sse.go:216-217 | the topic is deleted from the server and all of its clients' queues are closed |
| Dispatch.Server.Prune | sse.go:215-218 | a topic is deleted exactly when it has no clients left |
| Dispatch.Server.Detach | sse.go:210-220 | the table becomes the old table with the client unsubscribed, and the client's queue is closed |
| Dispatch.Server.RemoveClient | sse.go:209-221 | the table becomes the old table with the client unsubscribed; its queue is closed exactly when its topic existed; a client whose topic is gone changes nothing |
| Dispatch.Server.CloseChannel | sse.go:224-231 | the named topic is deleted and exactly its clients' queues are closed; an unknown name changes nothing; no closed queue reopens |
| Dispatch.Server.TopicClients | sse.go:120-121 | every client of a topic is a client of the server |
| Dispatch.Server.Offer | sse.go:121 | one topic's clients are offered the message as routed by name; every other topic's clients are untouched |
| Dispatch.Server.Broadcast | sse.go:115-122 | every client of every topic is offered the message as routed by name; with no name every topic's last event id becomes the message's |
| Dispatch.Server.SendMessageToClient | sse.go:114-129 | a client is offered the message exactly when it matches both the topic and the client name ("" matching all); an unknown topic gets nothing; a topic's last event id changes only when the whole topic is addressed |
| Dispatch.Server.SendMessage | sse.go:107-109 | every client of the addressed topic, or of every topic for "", is offered the message |
| Dispatch.Server.Heartbeat | sse.go:243-246 | a tick of the running loop: with heartbeat enabled every client is offered the heartbeat event; disabled, nothing changes |
| Dispatch.Server.CloseNext | sse.go:183-184 | closing one more topic keeps the table restricted to the remaining names and closes exactly that topic's clients |
| Dispatch.Server.Restart | sse.go:132-135 | every topic is deleted and every client's queue closed; the server stays valid, and the loop state is outside the frame, so the loop keeps running and accepts new clients |
| Dispatch.Server.ClientCount | sse.go:144-152 | the sum of the topics' client counts, which is the number of distinct registered clients |
| Dispatch.Server.HasChannel | sse.go:155-158 | true exactly when a topic of that name exists |
| Dispatch.Server.GetChannel | sse.go:161-164 | the topic and true when it exists, otherwise null and false |
| Dispatch.Server.Channels | sse.go:167-175 | every topic name exactly once |
| Dispatch.Server.Shutdown | sse.go:234-242 | the intended shutdown: every topic deleted, every client's queue closed, the loop stopped |
| Dispatch.Server.ShutdownAsWritten | sse.go:234-242 | the loop stops only when there are no topics; otherwise it blocks for good |
| Dispatch.ShutdownBlocksWithATopic | sse.go:234-242 | a server with one subscribed client blocks on shutdown, and the client's queue is never closed |

## Left out

- HTTP serving (`ServeHTTP`, sse.go:48-103) is not modelled. That covers headers, choosing the channel name, reading `Last-Event-ID`, the close-notify goroutine and writing queued messages to the response. Reading a queue is reading `Client.queue`.
- The retry stamping at sse.go:96 is left out. It overwrites `retry` on the shared message on every write. `Message.String` takes whatever `retry` the message has.
- The sse.go:97 use of the encoding as a format string is left out. It is output I/O.
- Goroutines, `select`, and the 15-second timer are left out. Each loop case and each public entry point is one atomic method, and the timer firing is a call to `Heartbeat`.
- Public entry points are called directly, so races between them and the loop are not modelled. Those are `SendMessageToClient`, `ClientCount`, `HasChannel`, `GetChannel`, `Channels` and `Restart`.
- Sends on an unbuffered channel block until a reader takes the message. Backpressure from a slow reader is not modelled: a delivery appends to `queue` at once. The one place blocking matters, shutdown, is modelled by the loop's `Blocked` state: every loop case, the heartbeat tick included, requires a `Running` loop, so none of them happens once the loop is `Blocked` or `Stopped`.
- Go map iteration order is arbitrary. The loops pick an arbitrary pending key. The offers in one broadcast are unordered across clients, and that order is not stated.
- The `nil` stored at channel.go:58 before the delete, and the nil check at channel.go:28, are not modelled. No other code can observe that state.
- Go panics are preconditions. That covers sending to a closed client queue and closing a client queue twice.
- `Clients.Client.SendMessage` requires an open queue only when the message passes the filter.
- `Channels.Channel.RemoveClient` and `Dispatch.Server.RemoveClient` require the queue to be open.
- `Dispatch.Server.Valid` includes that every registered client's queue is open. This invariant is added by the model, and it is what rules those panics out.
- Logging and `Options` (options.go) are outside the model. That covers the `NewServer` defaults, custom headers, `ChannelNameFunc`, `OnClientDisconnectFunc` and `RetryInterval`. The server is built with only its heartbeat flag.
- Integer widths are not modelled. `retry` and `version` are unbounded `int`s and `ClientCount` returns a `nat`. Go's `int` is 64 bits, and no overflow arises at these sizes.
- `Text.Decimal` renders only the positive retry values that the encoder ever prints (message.go:53). Negative numbers are never rendered.
- `Dispatch.Server.Heartbeat`: the call at sse.go:245 passes three arguments, but `SendMessage` at sse.go:107 takes two. The call is modelled as `SendMessageToClient("", "", m)`, that is, a broadcast to every client of every topic.
- `Dispatch.Server.Restart` runs the close-requests of sse.go:182-186 as atomic `CloseChannel` steps.
- Shutdown follows the code, not the documented promise that shutdown closes every open subscriber queue. The public `Shutdown` at sse.go:139-141 is only the request. The loop's shutdown case is modelled twice: as written (`ShutdownAsWritten`) and as intended (`Shutdown`). See Findings.

## Findings

| source | as written | input that shows it | evidently intended | confidence | as-written member | corrected member |
|---|---|---|---|---|---|---|
| sse.go:234-242 with sse.go:182-186 | the shutdown case calls `close()`, which sends each topic name on the unbuffered `closeChannel` from inside the dispatch loop, the only receiver of that channel | a server with one subscribed client (any topic), then `Shutdown()` | close every topic and every client queue, then stop the loop | not executed | Dispatch.Server.ShutdownAsWritten, Dispatch.ShutdownBlocksWithATopic | Dispatch.Server.Shutdown |
