# Chat relay: registry state machine and input classifier

This project models the core of a small TCP chat relay written in Rust (`src/main.rs`).
A single manager task (`manger`) receives events. Each connection's handler sends it `Join` and
`ServerStat` when the connection opens and `Leave` once the connection's tasks have ended. The
connection's reader task sends it one `Say` or `Command` per read. The connection's writer task
only drains the connection's own channel into the socket. The manager owns two tables:

- `client_map`: each registered client's outbound channel;
- `client_nickname`: the nicknames set so far.

The manager handles one `ClientMessage` at a time: `Join`, `Leave`, `Say`, `Command` and
`ServerStat`. Its only output is `SendText` commands pushed into clients' channels. The reader
turns each decoded read into one message. Text that does not start with `/` becomes a `Say`
carrying the raw text. Any other text becomes a `Command` whose tokens come from splitting on
ASCII whitespace.

Modules:

- `Protocol` (protocol.dfy): the address type `ClientId` (abstract, with equality);
  `ClientCommand`; `ClientMessage`; the command name `/setnickname` and the two replies; and `Channel`. A `Channel` is
  the sending half of an mpsc channel: a class whose `sent` field records everything sent
  into it, in order.
- `Classifier` (classifier.dfy): `starts_with("/")`, `split_ascii_whitespace`, and the
  reader's classification, as functions with lemmas.
- `Registry` (registry.dfy): the manager's behaviour as functions of its tables:
  - `Next` gives the tables after one event;
  - `Sends` gives the commands the event sends, keyed by recipient;
  - `RunTables` and `Received` give the same for a whole run of events, the latter per channel.

  The lemmas state the relay's promises about these functions.
- `ManagerTask` (manager.dfy): the manager as a class. `clientMap` and `clientNickname` are
  fields. `Handle` is one turn of the `while let` loop. `Broadcast` is its inner `for` loop over
  the client map. `Run` is the receive loop over a sequence of messages. Each method is proved
  against `Next`, `Sends`, `RunTables` and `Received`.

`format!("{}", addr)` is not modelled. It is a function value `render: ClientId -> string`,
fixed when the manager is constructed.

Broadcast delivery is stated as a set: every registered client other than the sender. The
order is not stated, because the loop walks a `HashMap`. `Broadcast` models that walk by
picking any key not yet visited.

Four behaviours of the code are reproduced as written:

- `Say` does not check that the sender is registered.
- `Leave` removes only the client's channel and keeps its nickname.
- `Join` does not reset the nickname. A client that leaves and joins again under the same
  address keeps its old nickname (`Registry.RejoinKeepsNickname`).
- `Join` on an address that is already registered overwrites its channel.

## Model

| member | source | states |
|---|---|---|
| `Protocol.Channel.Send` | src/main.rs:55 | a send queues the command after everything sent into the channel before |
| `Classifier.WordLength` | src/main.rs:141-142 | the result is the length of the longest prefix free of ASCII whitespace: no whitespace before it, and whitespace or the end of the text at it |
| `Classifier.SplitAsciiWhitespace` | src/main.rs:141-144 | every token is non-empty and contains no ASCII whitespace (space, tab, LF, FF, CR; not VT) |
| `Classifier.Classify` | src/main.rs:135-145 | text not starting with `/` becomes `Say` with the identical text; text starting with `/` becomes `Command` with a non-empty token list whose first token starts with `/` and whose tokens are all non-empty and whitespace-free, being exactly the `split_ascii_whitespace` tokens of the text; the address is kept |
| `Classifier.LeadingToken` | src/main.rs:141-144 | text starting with a non-whitespace character yields a first token, which is the text's leading run of non-whitespace |
| `Classifier.SplitDropsOnlyWhitespace` | src/main.rs:141-144 | the tokens concatenated are the text with its whitespace deleted, so splitting drops whitespace and nothing else |
| `Classifier.SplitAfterWord` | src/main.rs:141-144 | a word followed by whitespace or by the end of the text becomes exactly one token, and splitting carries on after it |
| `Classifier.SplitAtWhitespace` | src/main.rs:141-144 | every ASCII whitespace character separates tokens wherever it stands (leading, trailing, or within a run): the text around it splits as its two sides split separately, so no token spans whitespace and no empty token arises |
| `Classifier.SplitUnwords` | src/main.rs:141-144 | round trip: splitting a list of words joined by single spaces gives the list back |
| `Registry.Next` | src/main.rs:30-79 | a nickname is never removed; only the sender's own command changes a nickname; only a `Join` adds or replaces a channel, and only for its client; only a `Leave` removes one, and only its client's |
| `Registry.Sends` | src/main.rs:43-77 | only registered clients ever receive; a broadcast never reaches its sender; every other event replies only to the sender of a command |
| `Registry.JoinRegisters` | src/main.rs:32-33 | after `Join(c, q)`, `c` maps to `q`, every other entry and every nickname is unchanged, and nothing is sent |
| `Registry.JoinOverwrites` | src/main.rs:33 | a second `Join` of the same address replaces the first channel |
| `Registry.LeaveUnregisters` | src/main.rs:36-37 | after `Leave(c)`, `c` is unregistered, the other entries are unchanged, the nicknames are untouched, and nothing is sent |
| `Registry.LeaveIdempotent` | src/main.rs:36-37 | leaving an unregistered address changes nothing, so a second `Leave` has no effect |
| `Registry.ServerStatChangesNothing` | src/main.rs:40-41 | the statistics request changes no table and sends nothing |
| `Registry.SayReachesEveryOtherClient` | src/main.rs:43-56 | a broadcast reaches exactly the registered clients other than the sender, whether or not the sender is registered; each gets one line, "name: text"; the tables do not change |
| `Registry.BroadcastText` | src/main.rs:49-54 | the name is the sender's nickname if one is set and the rendered address otherwise, and the text follows ": " unmodified |
| `Registry.CommandFromUnknownClient` | src/main.rs:58-62 | a command from an unregistered address changes nothing and sends nothing |
| `Registry.SetNicknameSucceeds` | src/main.rs:67-71 | `/setnickname n` from a registered client sets its nickname to `n` and sends "ok\n" to that client only |
| `Registry.OtherCommandsAreInvalid` | src/main.rs:72-76 | any other command name, or `/setnickname` with an argument count other than one, changes nothing and sends "invalid args or no match pattern\n" to the sender only |
| `Registry.OkExactlyForSetNickname` | src/main.rs:67-76 | a registered client is answered "ok\n" if and only if its command is `/setnickname` with exactly one argument |
| `Registry.NicknameShowsInBroadcasts` | src/main.rs:49-71 | after `/setnickname n`, the client's broadcasts read "n: text" at every other client |
| `Registry.RejoinKeepsNickname` | src/main.rs:32-54 | after `Leave` and a new `Join` of the same address, broadcasts still carry the old nickname |
| `Registry.UnjoinedChannelHearsNothing` | src/main.rs:30-80 | a channel that is neither registered at the start nor joined during a run receives nothing and is never registered, so a broadcast handled before a client's `Join` never reaches it |
| `Registry.JoinsRegisterEveryone` | src/main.rs:30-35 | after a run of joins, the registered addresses are the earlier ones plus the joined ones, and the nicknames are unchanged |
| `Registry.BroadcastAfterJoins` | src/main.rs:30-56 | after a run of joins, a broadcast from `a` reaches exactly the joined and earlier clients other than `a` |
| `ManagerTask.Manager.constructor` | src/main.rs:26-27 | the manager starts with both tables empty |
| `ManagerTask.Manager.Broadcast` | src/main.rs:43-56 | the loop over the client map appends the line given by `Sends` to the channel of every registered client but the sender, one visit per client in any order, and leaves the sender's channel alone |
| `ManagerTask.Manager.Handle` | src/main.rs:31-78 | one event: the tables become `Next` of the old tables; each previously registered client's channel gets exactly its command from `Sends` appended; no two clients share a channel afterwards |
| `ManagerTask.Manager.Run` | src/main.rs:30-80 | the receive loop: after a run of messages, the tables are `RunTables` of the old tables, and every channel involved holds its old contents followed by exactly what `Received` says the run sent it |
| `ManagerTask.SetNicknameLineHandled` | src/main.rs:135-145 | the line "/setnickname name\r\n" as read from a registered client's socket, for any whitespace-free name, sets that client's nickname to `name` and nothing else, answers "ok\n" to that client alone, and makes its broadcasts carry `name` |
| `ManagerTask.ReadThenHandled` | src/main.rs:135-145 | what the reader makes of any text is accepted by the manager without a panic; text without a leading `/` reaches every other registered client byte for byte after "name: "; a command line reaches no other client |

## Left out

- The Tokio runtime, the accept loop, `process_socket`, and the spawning and joining of reader and writer tasks (src/main.rs:83-177) are left out. They are I/O and concurrency plumbing.
- Channel capacities (32 and 4), backpressure and suspension at `.await` are left out. A send is an append to the channel's `sent` sequence. The writer's draining and its socket writes are not modelled.
- The `.unwrap()` panics on a closed channel are runtime failures. They are not modelled.
- `String::from_utf8_lossy` is left out. The classifier starts from already-decoded text.
- `format!("{}", addr)` for a socket address is the uninterpreted function value `render`.
- `println!` logging is left out, including the listing printed on `ServerStat`.
- src/args.rs holds command-line configuration only and is not part of this model.
- ManagerTask.Manager.Handle: for a `Join`, it requires that no other registered client already owns the joined channel. The source does not check this; every connection creates its own channel (src/main.rs:113).
- ManagerTask.Manager.Run: it requires that every joined channel is new and that no channel is joined under two addresses. The source does not check this either; every connection creates its own channel.
- ManagerTask.Manager.Run: it requires that every command line in the run has a token. The source panics on an empty token list only when the sender is registered. `Registry.Next` and `Registry.Sends` model that exact condition. The reader never produces an empty command (`Classifier.Classify`).
