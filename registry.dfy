/** The manager task's behaviour as a function of its tables: what one event does to the tables
    and which command it sends to which client, and the same for a whole run of events. */
module Registry {
  import opened Protocol

  /** The two maps the manager owns: each client's outbound channel and the nicknames set so far. */
  datatype Tables = Tables(clients: map<ClientId, Channel>, nicknames: map<ClientId, string>)

  /** Distinct registered clients write into distinct channels. */
  predicate Unshared(clients: map<ClientId, Channel>) {
    forall d, e :: d in clients && e in clients && d != e ==> clients[d] != clients[e]
  }

  /** Registering `q` for `c` leaves channels unshared: no other client already owns `q`. */
  predicate MayJoin(clients: map<ClientId, Channel>, c: ClientId, q: Channel) {
    forall d :: d in clients && d != c ==> clients[d] != q
  }

  /** The manager indexes `commands[0]` only once the sender is known to be registered, so an
      empty token list panics there and only there. */
  predicate Accepts(t: Tables, msg: ClientMessage) {
    msg.Command? && msg.client in t.clients ==> |msg.tokens| > 0
  }

  /** The name a broadcast from `c` carries: its nickname, or the rendering of its address. */
  function DisplayName(t: Tables, render: ClientId -> string, c: ClientId): string {
    if c in t.nicknames then t.nicknames[c] else render(c)
  }

  /** `format!("{}: {}", nickname, text)`. */
  function BroadcastLine(name: string, text: string): string {
    name + ": " + text
  }

  /** True of the one command that renames its sender. */
  predicate IsSetNickname(tokens: seq<string>) {
    |tokens| > 0 && tokens[0] == SET_NICKNAME && |tokens[1..]| == 1
  }

  /** The tables after one event. */
  function Next(t: Tables, msg: ClientMessage): (t': Tables)
    requires Accepts(t, msg)
    ensures forall d :: d in t.nicknames ==> d in t'.nicknames
    ensures forall d :: d in t'.nicknames && (d !in t.nicknames || t'.nicknames[d] != t.nicknames[d]) ==>
              msg.Command? && d == msg.client
    ensures forall d :: d in t'.clients && (d !in t.clients || t'.clients[d] != t.clients[d]) ==>
              msg.Join? && d == msg.client
    ensures forall d :: d in t.clients && d !in t'.clients ==> msg.Leave? && d == msg.client
  {
    match msg
    case Join(c, q) => Tables(t.clients[c := q], t.nicknames)
    case Leave(c) => Tables(t.clients - {c}, t.nicknames)
    case ServerStat => t
    case Say(_, _) => t
    case Command(c, tokens) =>
      if c in t.clients && IsSetNickname(tokens) then Tables(t.clients, t.nicknames[c := tokens[1]])
      else t
  }

  /** The commands one event sends, by recipient; each recipient gets at most one. */
  function Sends(t: Tables, render: ClientId -> string, msg: ClientMessage): (out: map<ClientId, ClientCommand>)
    requires Accepts(t, msg)
    ensures out.Keys <= t.clients.Keys
    ensures msg.Say? ==> msg.client !in out
    ensures !msg.Say? ==> forall d :: d in out ==> msg.Command? && d == msg.client
  {
    match msg
    case Join(_, _) => map[]
    case Leave(_) => map[]
    case ServerStat => map[]
    case Say(c, text) =>
      var line := BroadcastLine(DisplayName(t, render, c), text);
      map d | d in t.clients && d != c :: SendText(line)
    case Command(c, tokens) =>
      if c !in t.clients then map[]
      else if IsSetNickname(tokens) then map[c := SendText(OK_REPLY)]
      else map[c := SendText(INVALID_REPLY)]
  }

  /** What one event appends to the channel of client `d`. */
  function Deliveries(out: map<ClientId, ClientCommand>, d: ClientId): seq<ClientCommand> {
    if d in out then [out[d]] else []
  }

  /** What one event appends to channel `ch`: the command for the registered client owning it. */
  ghost function Inbox(t: Tables, out: map<ClientId, ClientCommand>, ch: Channel): seq<ClientCommand> {
    if exists d :: d in out && d in t.clients && t.clients[d] == ch then
      var d :| d in out && d in t.clients && t.clients[d] == ch;
      [out[d]]
    else []
  }

  /** Every message but the last. */
  function Init(msgs: seq<ClientMessage>): seq<ClientMessage>
    requires msgs != []
  {
    msgs[..|msgs| - 1]
  }

  function Last(msgs: seq<ClientMessage>): ClientMessage
    requires msgs != []
  {
    msgs[|msgs| - 1]
  }

  /** A message the reader can produce: a command line always has at least one token. */
  predicate Parsed(msg: ClientMessage) {
    msg.Command? ==> |msg.tokens| > 0
  }

  predicate AllParsed(msgs: seq<ClientMessage>) {
    forall k :: 0 <= k < |msgs| ==> Parsed(msgs[k])
  }

  /** The tables after processing `msgs` in order. */
  function RunTables(t: Tables, msgs: seq<ClientMessage>): Tables
    requires AllParsed(msgs)
  {
    if msgs == [] then t else Next(RunTables(t, Init(msgs)), Last(msgs))
  }

  /** Everything `msgs` sends into channel `ch`, in order. */
  ghost function Received(t: Tables, render: ClientId -> string, msgs: seq<ClientMessage>, ch: Channel): seq<ClientCommand>
    requires AllParsed(msgs)
  {
    if msgs == [] then []
    else
      var before := RunTables(t, Init(msgs));
      Received(t, render, Init(msgs), ch) + Inbox(before, Sends(before, render, Last(msgs)), ch)
  }

  /** The channels `msgs` registers. */
  function JoinHandles(msgs: seq<ClientMessage>): set<Channel> {
    set k | 0 <= k < |msgs| && msgs[k].Join? :: msgs[k].handle
  }

  /** `msgs` joins client `d` with channel `q` somewhere. */
  ghost predicate JoinedBy(msgs: seq<ClientMessage>, d: ClientId, q: Channel) {
    exists k :: 0 <= k < |msgs| && msgs[k] == Join(d, q)
  }

  /** No channel is joined under two different clients in `msgs`. */
  ghost predicate OneClientPerHandle(msgs: seq<ClientMessage>) {
    forall i, j :: 0 <= i < |msgs| && 0 <= j < |msgs| && msgs[i].Join? && msgs[j].Join? ==>
      (msgs[i].handle == msgs[j].handle ==> msgs[i].client == msgs[j].client)
  }

  /** Handling the message at position `i` extends the run on the first `i` messages by one step. */
  lemma RunStep(t: Tables, msgs: seq<ClientMessage>, i: nat)
    requires i < |msgs| && AllParsed(msgs)
    ensures AllParsed(msgs[..i]) && AllParsed(msgs[..i + 1]) && Accepts(RunTables(t, msgs[..i]), msgs[i])
    ensures RunTables(t, msgs[..i + 1]) == Next(RunTables(t, msgs[..i]), msgs[i])
  {
    assert Init(msgs[..i + 1]) == msgs[..i] && Last(msgs[..i + 1]) == msgs[i];
  }

  /** What the message at position `i` sends to `ch` extends what the first `i` messages sent it. */
  lemma ReceivedStep(t: Tables, render: ClientId -> string, msgs: seq<ClientMessage>, i: nat, ch: Channel)
    requires i < |msgs| && AllParsed(msgs)
    ensures AllParsed(msgs[..i]) && AllParsed(msgs[..i + 1]) && Accepts(RunTables(t, msgs[..i]), msgs[i])
    ensures Received(t, render, msgs[..i + 1], ch) ==
              Received(t, render, msgs[..i], ch) + Inbox(RunTables(t, msgs[..i]), Sends(RunTables(t, msgs[..i]), render, msgs[i]), ch)
  {
    assert Init(msgs[..i + 1]) == msgs[..i] && Last(msgs[..i + 1]) == msgs[i];
  }

  /** `ReceivedStep` for a whole set of channels, whose contents are given as snapshots: `base` before
      the run, `mid` after the first `i` messages, `after` once message `i` is handled too. */
  lemma ReceivedAdvance(t: Tables, render: ClientId -> string, msgs: seq<ClientMessage>, i: nat, channels: set<Channel>,
                        base: map<Channel, seq<ClientCommand>>, mid: map<Channel, seq<ClientCommand>>,
                        after: map<Channel, seq<ClientCommand>>)
    requires i < |msgs| && AllParsed(msgs) && AllParsed(msgs[..i])
    requires channels <= base.Keys && channels <= mid.Keys && channels <= after.Keys
    requires forall ch :: ch in channels ==> mid[ch] == base[ch] + Received(t, render, msgs[..i], ch)
    requires forall ch :: ch in channels ==>
               after[ch] == mid[ch] + Inbox(RunTables(t, msgs[..i]), Sends(RunTables(t, msgs[..i]), render, msgs[i]), ch)
    ensures AllParsed(msgs[..i + 1])
    ensures forall ch :: ch in channels ==> after[ch] == base[ch] + Received(t, render, msgs[..i + 1], ch)
  {
    RunStep(t, msgs, i);
    forall ch | ch in channels
      ensures after[ch] == base[ch] + Received(t, render, msgs[..i + 1], ch)
    {
      ReceivedStep(t, render, msgs, i, ch);
    }
  }

  // ---------------------------------------------------------------------------------------------
  // One event

  /** Join registers the channel under the client, replacing any earlier one; nothing else changes. */
  lemma JoinRegisters(t: Tables, render: ClientId -> string, c: ClientId, q: Channel)
    ensures Next(t, Join(c, q)).clients.Keys == t.clients.Keys + {c}
    ensures Next(t, Join(c, q)).clients[c] == q
    ensures forall d :: d in t.clients && d != c ==> Next(t, Join(c, q)).clients[d] == t.clients[d]
    ensures Next(t, Join(c, q)).nicknames == t.nicknames
    ensures Sends(t, render, Join(c, q)) == map[]
  {
  }

  /** A second Join of the same client overwrites the first. */
  lemma JoinOverwrites(t: Tables, c: ClientId, q1: Channel, q2: Channel)
    ensures Next(Next(t, Join(c, q1)), Join(c, q2)) == Next(t, Join(c, q2))
  {
    assert t.clients[c := q1][c := q2] == t.clients[c := q2];
  }

  /** Leave unregisters the client but keeps its nickname, and sends nothing. */
  lemma LeaveUnregisters(t: Tables, render: ClientId -> string, c: ClientId)
    ensures Next(t, Leave(c)).clients.Keys == t.clients.Keys - {c}
    ensures forall d :: d in t.clients && d != c ==> Next(t, Leave(c)).clients[d] == t.clients[d]
    ensures Next(t, Leave(c)).nicknames == t.nicknames
    ensures Sends(t, render, Leave(c)) == map[]
  {
  }

  /** Leaving an unregistered client changes nothing, so Leave is idempotent. */
  lemma LeaveIdempotent(t: Tables, c: ClientId)
    ensures c !in t.clients ==> Next(t, Leave(c)) == t
    ensures Next(Next(t, Leave(c)), Leave(c)) == Next(t, Leave(c))
  {
    if c !in t.clients {
      assert t.clients - {c} == t.clients;
    }
    var once := Next(t, Leave(c));
    assert once.clients - {c} == once.clients;
  }

  /** The statistics request only logs: no table changes and nothing is sent. */
  lemma ServerStatChangesNothing(t: Tables, render: ClientId -> string)
    ensures Next(t, ServerStat) == t
    ensures Sends(t, render, ServerStat) == map[]
  {
  }

  /** A broadcast reaches every registered client other than the sender, registered or not, with
      one line made of the sender's display name, ": " and the text unchanged; no table changes. */
  lemma SayReachesEveryOtherClient(t: Tables, render: ClientId -> string, c: ClientId, text: string)
    ensures Next(t, Say(c, text)) == t
    ensures Sends(t, render, Say(c, text)).Keys == t.clients.Keys - {c}
    ensures forall d :: d in Sends(t, render, Say(c, text)) ==>
              Sends(t, render, Say(c, text))[d] == SendText(DisplayName(t, render, c) + ": " + text)
  {
  }

  /** The name on a broadcast is the nickname when one was set, the rendered address otherwise,
      and the text follows it unmodified. */
  lemma BroadcastText(t: Tables, render: ClientId -> string, c: ClientId, text: string, d: ClientId)
    requires d in t.clients && d != c
    ensures c in t.nicknames ==> Sends(t, render, Say(c, text))[d].text == t.nicknames[c] + ": " + text
    ensures c !in t.nicknames ==> Sends(t, render, Say(c, text))[d].text == render(c) + ": " + text
    ensures Sends(t, render, Say(c, text))[d].text[|DisplayName(t, render, c)| + 2..] == text
  {
    var name := DisplayName(t, render, c);
    assert (name + ": " + text)[|name| + 2..] == text;
  }

  /** A command from an unregistered client is dropped: no change and no reply. */
  lemma CommandFromUnknownClient(t: Tables, render: ClientId -> string, c: ClientId, tokens: seq<string>)
    requires c !in t.clients
    ensures Next(t, Command(c, tokens)) == t
    ensures Sends(t, render, Command(c, tokens)) == map[]
  {
  }

  /** `/setnickname` with exactly one argument renames the sender and answers "ok\n" to it alone. */
  lemma SetNicknameSucceeds(t: Tables, render: ClientId -> string, c: ClientId, name: string)
    requires c in t.clients
    ensures Next(t, Command(c, [SET_NICKNAME, name])) == Tables(t.clients, t.nicknames[c := name])
    ensures Sends(t, render, Command(c, [SET_NICKNAME, name])) == map[c := SendText(OK_REPLY)]
  {
    assert IsSetNickname([SET_NICKNAME, name]);
  }

  /** Every other command line, including `/setnickname` with zero or several arguments, changes
      nothing and answers the invalid-arguments text to the sender alone. */
  lemma OtherCommandsAreInvalid(t: Tables, render: ClientId -> string, c: ClientId, tokens: seq<string>)
    requires c in t.clients && |tokens| > 0
    requires tokens[0] != SET_NICKNAME || |tokens| != 2
    ensures Next(t, Command(c, tokens)) == t
    ensures Sends(t, render, Command(c, tokens)) == map[c := SendText(INVALID_REPLY)]
  {
  }

  /** A registered client's command is answered "ok\n" exactly when it is `/setnickname` with one argument. */
  lemma OkExactlyForSetNickname(t: Tables, render: ClientId -> string, c: ClientId, tokens: seq<string>)
    requires c in t.clients && |tokens| > 0
    ensures Sends(t, render, Command(c, tokens)) == map[c := SendText(OK_REPLY)] <==>
              tokens[0] == SET_NICKNAME && |tokens| == 2
  {
    if !(tokens[0] == SET_NICKNAME && |tokens| == 2) {
      assert Sends(t, render, Command(c, tokens))[c] == SendText(INVALID_REPLY);
      assert OK_REPLY != INVALID_REPLY by { assert |OK_REPLY| != |INVALID_REPLY|; }
    }
  }

  /** After `/setnickname bob`, the sender's broadcasts read "bob: <text>" at every other client. */
  lemma NicknameShowsInBroadcasts(t: Tables, render: ClientId -> string, c: ClientId, name: string, text: string)
    requires c in t.clients
    ensures forall d :: d in t.clients && d != c ==>
              Sends(Next(t, Command(c, [SET_NICKNAME, name])), render, Say(c, text))[d] == SendText(name + ": " + text)
  {
    SetNicknameSucceeds(t, render, c, name);
  }

  /** Leave keeps the nickname, so a client that leaves and joins again under the same address is
      still shown under its old nickname. */
  lemma RejoinKeepsNickname(t: Tables, render: ClientId -> string, c: ClientId, q: Channel, text: string, d: ClientId)
    requires c in t.nicknames
    requires d in t.clients && d != c
    ensures Sends(Next(Next(t, Leave(c)), Join(c, q)), render, Say(c, text))[d] == SendText(t.nicknames[c] + ": " + text)
  {
  }

  // ---------------------------------------------------------------------------------------------
  // Channels

  /** For unshared channels, what a registered client's channel gets is that client's delivery. */
  lemma InboxOfRegistered(t: Tables, out: map<ClientId, ClientCommand>, d: ClientId)
    requires Unshared(t.clients) && out.Keys <= t.clients.Keys && d in t.clients
    ensures Inbox(t, out, t.clients[d]) == Deliveries(out, d)
  {
    if d in out {
      var e :| e in out && e in t.clients && t.clients[e] == t.clients[d];
      assert e == d;
    }
  }

  /** A channel no registered client owns gets nothing. */
  lemma InboxOfStranger(t: Tables, out: map<ClientId, ClientCommand>, ch: Channel)
    requires out.Keys <= t.clients.Keys && ch !in t.clients.Values
    ensures Inbox(t, out, ch) == []
  {
  }

  // ---------------------------------------------------------------------------------------------
  // Runs of events

  /** A channel that is neither registered at the start nor joined by the run receives nothing and
      is never registered: a broadcast processed before a client's Join never reaches it. */
  lemma {:induction false} UnjoinedChannelHearsNothing(t: Tables, render: ClientId -> string, msgs: seq<ClientMessage>, ch: Channel)
    requires AllParsed(msgs)
    requires ch !in t.clients.Values && ch !in JoinHandles(msgs)
    ensures ch !in RunTables(t, msgs).clients.Values
    ensures Received(t, render, msgs, ch) == []
  {
    if msgs != [] {
      assert JoinHandles(Init(msgs)) <= JoinHandles(msgs) by {
        forall k | 0 <= k < |Init(msgs)| && Init(msgs)[k].Join?
          ensures Init(msgs)[k].handle in JoinHandles(msgs)
        {
          assert Init(msgs)[k] == msgs[k];
        }
      }
      UnjoinedChannelHearsNothing(t, render, Init(msgs), ch);
      var before := RunTables(t, Init(msgs));
      InboxOfStranger(before, Sends(before, render, Last(msgs)), ch);
      if Last(msgs).Join? {
        assert Last(msgs).handle in JoinHandles(msgs);
      }
    }
  }

  /** The clients registered after a run of Joins are those registered before plus those joined. */
  lemma {:induction false} JoinsRegisterEveryone(t: Tables, msgs: seq<ClientMessage>)
    requires forall k :: 0 <= k < |msgs| ==> msgs[k].Join?
    ensures AllParsed(msgs)
    ensures RunTables(t, msgs).clients.Keys == t.clients.Keys + set k | 0 <= k < |msgs| :: msgs[k].client
    ensures RunTables(t, msgs).nicknames == t.nicknames
  {
    if msgs != [] {
      JoinsRegisterEveryone(t, Init(msgs));
      var joined := set k | 0 <= k < |msgs| :: msgs[k].client;
      var joinedBefore := set k | 0 <= k < |Init(msgs)| :: Init(msgs)[k].client;
      assert joined == joinedBefore + {Last(msgs).client} by {
        forall d | d in joined ensures d in joinedBefore + {Last(msgs).client} {
          var k :| 0 <= k < |msgs| && msgs[k].client == d;
          if k < |msgs| - 1 {
            assert Init(msgs)[k] == msgs[k];
          }
        }
        forall d | d in joinedBefore ensures d in joined {
          var k :| 0 <= k < |Init(msgs)| && Init(msgs)[k].client == d;
          assert msgs[k] == Init(msgs)[k];
        }
        assert Last(msgs) == msgs[|msgs| - 1];
      }
    }
  }

  /** After a run of Joins, a broadcast from `a` reaches exactly the registered clients other than `a`. */
  lemma BroadcastAfterJoins(t: Tables, render: ClientId -> string, msgs: seq<ClientMessage>, a: ClientId, text: string)
    requires forall k :: 0 <= k < |msgs| ==> msgs[k].Join?
    ensures AllParsed(msgs)
    ensures Sends(RunTables(t, msgs), render, Say(a, text)).Keys ==
              (t.clients.Keys + set k | 0 <= k < |msgs| :: msgs[k].client) - {a}
  {
    JoinsRegisterEveryone(t, msgs);
    SayReachesEveryOtherClient(RunTables(t, msgs), render, a, text);
  }
}
