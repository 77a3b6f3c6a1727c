# Torbit Chat broadcast coordinator, in Dafny

This project models the core of a small line-based chat server written in Go. Clients
connect over TCP and send a display name as their first line. After that, every line a
client sends is broadcast to everyone in the room. The core is the server's
**coordinator loop**, `ChatServer.Run`. It owns the registry from display name to user
and handles one event per pass of the loop:

- **join**: register the user under its name. A later join with the same name overwrites
  the older entry. Then post the bot announcement `"<name> joined Torbit Chat"` back onto
  its own input.
- **leave**: delete the name from the registry. Deleting an absent name does nothing. The
  bot then posts `"<name> left Torbit Chat"`.
- **input**: offer the message to every registered user's outbound channel without
  blocking. Each channel buffers ten messages. A user whose channel is full misses the
  message, and nobody else is affected.

Beside the loop, the model covers each session's side (`handleConn`): the handshake that
turns the first line into a user with a fresh channel, and the order of the events a
session submits. It also covers the text the server produces: the outbound line
`"<sender> <time>: <text>\n"` and the two announcements.

Files:

- `wrappers.dfy`: `Option`.
- `messages.dfy`: the `Message` value and the outbound line formatter. It also holds a
  parser that undoes the formatter, the announcement texts and decoders that read the
  name back out of an announcement.
- `channels.dfy`: `Channel`, the buffered `chan Message` of capacity 10, as a class over
  a `seq`. It has a non-blocking `TrySend` and a `Receive`. `Offer` is the function that
  specifies a non-blocking send.
- `coordinator.dfy`: `User`, `Event`, the registry as a function of the event sequence
  (`Register`, `RegistryAfter`, `LastMembership`) with its lemmas, and the `ChatServer`
  class. That class holds the loop's state: the registry map, the announcements still
  waiting to be delivered, and a ghost history of events. `OnJoin`, `OnLeave`, `OnInput`,
  `Step` and `DeliverAnnouncement` update it in place. The invariant `Valid()` says three
  things: the registry is `RegistryAfter` of the history, each name maps to a user of that
  name whose channel holds at most 10 messages, and no channel is registered under two
  names.
- `session.dfy`: the handshake, `SessionTrace` (the events a session submits) with its
  lemmas, and a two-user scenario that uses only the contracts.

Go channels are references, so a registry entry holds a reference to the session's
channel object. A fan-out may write only the channels of registered users. So a channel
whose user has left, or whose name a newer session took over, is never written again.

In these places the code behaves in ways a reader may not expect, and the model follows the code:

- The handshake does not check that the first read succeeded (src/main.go:109-116). A
  client that disconnects before sending a name is still joined, under the empty name
  (`FailedHandshakeStillJoins`).
- A session's leave is sent only when `handleConn` returns (src/main.go:117-119). That
  happens only when writing to the client fails (src/main.go:134-138), because the
  outbound channel is never closed. A client that hangs up is therefore not removed when
  its read loop ends. It is removed only at the next write to it that fails.
  `SessionTrace` gives one session's events in order. It does not model when the leave is
  sent.
- A leave deletes by name only (src/main.go:78). A stale session's leave therefore evicts
  a newer session that re-registered the same name (`StaleLeaveEvictsNewSession`).
- The room label is the constant `Torbit Chat`, not a configured value.

## Model

| member | source | states |
|---|---|---|
| `Messages.OutboundLine` | src/main.go:134 | the line for a message is 4 characters longer than sender, time and text together, starts with the sender name and ends with a newline |
| `Messages.ParseLine` | src/main.go:134 | any line it accepts is exactly the outbound line of the sender, time and text it returns; the sender has no space and the time has the timestamp layout's width |
| `Messages.ParseOutboundLine` | src/main.go:132-134 | round trip: parsing the outbound line gives back sender, time and text, for a sender without spaces and a time as wide as the layout `2006-01-02 15:04:05` |
| `Messages.OutboundLineSingleNewline` | src/main.go:134 | when sender, time and text hold no newline, the final newline is the only one in the line |
| `Messages.JoinText` | src/main.go:74 | the join text is as long as the name plus the suffix " joined Torbit Chat" |
| `Messages.LeftText` | src/main.go:84 | the leave text is as long as the name plus the suffix " left Torbit Chat" |
| `Messages.JoinedName` | src/main.go:74 | a decoder for join texts: Some(n) exactly when the text is JoinText(n), None when no name gives this text |
| `Messages.LeftName` | src/main.go:84 | a decoder for leave texts: Some(n) exactly when the text is LeftText(n), None when no name gives this text |
| `Messages.JoinTextRoundTrip` | src/main.go:74 | the joiner's name is read back from a join text, and a join text never decodes as a leave text |
| `Messages.LeftTextRoundTrip` | src/main.go:84 | the leaver's name is read back from a leave text, and a leave text never decodes as a join text |
| `Messages.JoinAnnouncement` | src/main.go:72-75 | the join announcement is sent by the bot, names the joiner, and is not a leave announcement |
| `Messages.LeaveAnnouncement` | src/main.go:82-85 | the leave announcement is sent by the bot, names the leaver, and is not a join announcement |
| `Channels.Offer` | src/main.go:91-94 | a non-blocking send appends the message exactly when the buffer holds fewer than 10; otherwise the buffer is left exactly as it was; a buffer within capacity stays within it |
| `Channels.Channel.constructor` | src/main.go:112 | a new outbound channel is empty and within capacity |
| `Channels.Channel.TrySend` | src/main.go:91-94 | reports whether the message found room; the new buffer is Offer of the old one |
| `Channels.Channel.Receive` | src/main.go:130 | takes the oldest buffered message and removes it (first in, first out); None and no change when the buffer is empty |
| `Coordinator.Register` | src/main.go:67-68 | a join maps the name to the joining user, overwriting any entry with that name; a leave removes the name; an input leaves the registry as it is; every other name keeps its entry |
| `Coordinator.Announcements` | src/main.go:71-76 | a join or leave yields exactly one announcement and an input none; every announcement is from the bot; a join's text decodes as a join of the joiner and not as a leave, a leave's text as a leave of the leaver and not as a join |
| `Coordinator.RegistryAfter` | src/main.go:64-97 | the registry after the loop has handled a sequence of events in order; its own ensures says each entry was there at the start or is a user registered under its own name; which names are registered is stated by `RegistryAfterKeys`, and composition by `RegistryAfterAppend` |
| `Coordinator.RegistryAfterAppend` | src/main.go:64-97 | handling two event sequences one after the other is the same as handling their concatenation |
| `Coordinator.RegistryAfterKeys` | src/main.go:64-87 | after any event sequence, a name is registered exactly when the latest join or leave naming it is a join (or, with none, when it was registered at the start) |
| `Coordinator.RegistryFromEmpty` | src/main.go:64-87 | starting from the empty registry, the registered names are exactly those whose latest join/leave is a join |
| `Coordinator.InputsOnly` | src/main.go:89-95 | input events neither change the registry nor count as anyone's join or leave |
| `Coordinator.LeaveTwice` | src/main.go:77-78 | a second leave of the same name changes nothing |
| `Coordinator.StaleLeaveEvictsNewSession` | src/main.go:78 | an old session's leave, after a newer session re-joined with the same name, unregisters that name |
| `Coordinator.ChatServer.constructor` | src/main.go:164-169 | the coordinator starts with an empty registry and nothing pending |
| `Coordinator.ChatServer.OnJoin` | src/main.go:67-76 | the registry becomes Register(old, Join(u)); exactly the join announcement is appended to the pending input; the invariant is preserved |
| `Coordinator.ChatServer.OnLeave` | src/main.go:77-86 | the registry becomes Register(old, Leave(u)); exactly the leave announcement is appended to the pending input; the invariant is preserved |
| `Coordinator.ChatServer.OnInput` | src/main.go:89-95 | registry and pending input are unchanged; each registered user's buffer becomes Offer(old buffer, m), so it grows by m when it had room and stays as it was when full; only registered users' channels are written; at most 10 messages per buffer is preserved |
| `Coordinator.ChatServer.Step` | src/main.go:64-97 | one loop pass handles one event: registry and pending input follow Register and Announcements; the fan-out happens only for an input, and a join or leave writes no channel |
| `Coordinator.ChatServer.DeliverAnnouncement` | src/main.go:71-76 | a pending announcement (any one of them) is removed from the pending input and fanned out as an input event; when there is no such announcement, pending input, history, registry and every registered channel stay as they were |
| `Session.HandshakeName` | src/main.go:109-111 | the name is the first line read, or the empty string when that read failed |
| `Session.Connect` | src/main.go:108-113 | the session's user has the handshake name and a fresh, empty channel |
| `Session.LineInputs` | src/main.go:123-126 | the reader loop's submissions: one event per line, each an input from the session's name; the per-line contents and their order are stated by `LineInputsAt` |
| `Session.LineInputsAt` | src/main.go:122-126 | each later line becomes one message from the session's name, in the order read |
| `Session.SessionTraceShape` | src/main.go:110-126 | a session submits exactly one join first, one message per line in order under its name, and exactly one leave last |
| `Session.SessionTrace` | src/main.go:110-126 | the events of one session: two more than its lines, the join first, the leave last, and only inputs from the session's name in between; the lines' contents in order are stated by `SessionTraceShape` |
| `Session.SessionLeavesNoTrace` | src/main.go:116-119 | whatever the registry held before, a session's events leave exactly that registry with the session's name removed, so every other name keeps its entry and its channel |
| `Session.SessionAfterAnyHistory` | src/main.go:116-119 | whatever events came earlier, handling a session's own events afterwards only removes the session's name from the registry those earlier events left |
| `Session.FailedHandshakeStillJoins` | src/main.go:109-116 | a failed first read still leads to a join, under the empty name |
| `Session.AliceAndBobJoin` | src/main.go:110-116 | two sessions that join a new coordinator give a registry of exactly those two users, with both join announcements pending |
| `Session.AliceSaysHello` | src/main.go:89-95 | with alice and bob joined, alice's "hello" is the only message in alice's channel; it is what bob's session receives first, and the line written to bob's client is `alice <t>: hello` plus a newline; both join announcements are still pending |

## Left out

- `LoadConfiguration` and the configuration file: file opening and JSON decoding are I/O. The bot name is a parameter of the `ChatServer` constructor.
- `main`: log file setup, the logrus configuration, `net.Listen` and the accept loop are transport plumbing.
- Goroutine scheduling, blocking channel operations and the choice that `select` makes are not modelled. Each handler is one atomic step of the loop, and the caller chooses the next step. An announcement goroutine is modelled as an entry in `pending`. `DeliverAnnouncement` takes any entry, because when each announcement goroutine (src/main.go:71, 81) reaches its send on `cs.Input` has no fixed order, and there it competes with the sessions' reader goroutines.
- Coordinator.ChatServer.DeliverAnnouncement: an announcement and a user's message are both just a value received from `Input`; the model keeps announcements in their own queue rather than one shared input queue.
- Channels.Channel.Receive: a receive on an empty channel blocks in the source; the model returns None instead.
- Coordinator.ChatServer.OnJoin: requires that the joining user's channel holds at most 10 messages and is not registered under another name. The source meets both, because every session makes its own channel (src/main.go:112) and joins only under its own name.
- The network side of `handleConn`: the welcome prompt, `bufio.Scanner` line splitting, `io.WriteString` and its error, `time.Now().Format`, `log.Info` and `log.Error`. Lines are given strings and the timestamp is an opaque string parameter. The write duty is modelled only as `Channel.Receive` followed by `OutboundLine`.
- When a session's leave is sent relative to its own lines: `SessionTrace` puts the leave after every line. In the source the reader goroutine (src/main.go:122-127) runs apart from the deferred leave (src/main.go:117-119). So lines can still be submitted after the session's own leave, and the leave is never sent at all while writes keep succeeding. How sessions interleave with each other is not modelled either.
- Strings: Go strings are byte strings, while the model uses `seq<char>`. The lengths stated for `OutboundLine`, `JoinText` and `LeftText` count characters, not bytes. Nothing in the coordinator depends on byte lengths.
- Messages.ParseOutboundLine: the round trip is stated only for senders without a space. Handshake names are taken verbatim (src/main.go:111) and may contain spaces, and for such names the line format cannot be read back unambiguously, since the sender ends at the first space.
