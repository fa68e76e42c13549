/** The manager task: it owns the client table and the nickname table and handles one event at a
    time, pushing replies and broadcast lines into the clients' outbound channels. */
module ManagerTask {
  import opened Protocol
  import opened Registry
  import Classifier

  class Manager {
    /** `format!("{}", addr)` for a client address. */
    const render: ClientId -> string
    /** client_map: each registered client's outbound channel. */
    var clientMap: map<ClientId, Channel>
    /** client_nickname: the nicknames set so far. */
    var clientNickname: map<ClientId, string>

    /** Every connection registers its own channel, so no two clients share one. */
    ghost predicate Valid()
      reads this
    {
      Unshared(clientMap)
    }

    /** The tables as a value. */
    function View(): Tables
      reads this
    {
      Tables(clientMap, clientNickname)
    }

    /** The manager starts with both tables empty. */
    constructor (render: ClientId -> string)
      ensures Valid()
      ensures this.render == render
      ensures View() == Tables(map[], map[])
    {
      this.render := render;
      clientMap := map[];
      clientNickname := map[];
    }

    /** Sends the broadcast line of `client` to every other registered client's channel. */
    method Broadcast(client: ClientId, text: string)
      requires Valid()
      modifies clientMap.Values
      ensures forall d :: d in clientMap ==>
                clientMap[d].sent == old(clientMap[d].sent) + Deliveries(Sends(View(), render, Say(client, text)), d)
    {
      ghost var out := Sends(View(), render, Say(client, text));
      var pending := clientMap.Keys;
      while pending != {}
        invariant pending <= clientMap.Keys
        invariant forall d :: d in clientMap ==>
                    clientMap[d].sent == old(clientMap[d].sent) + (if d in pending then [] else Deliveries(out, d))
        decreases pending
      {
        var c :| c in pending;
        pending := pending - {c};
        if c == client {
          continue;
        }
        var nickname := if client in clientNickname then clientNickname[client] else render(client);
        var line := nickname + ": " + text;
        clientMap[c].Send(SendText(line));
      }
    }

    /** Handles one event: the tables become `Next` of the old ones, and the channel of every
        client registered beforehand gets that client's delivery from `Sends` appended. */
    method Handle(msg: ClientMessage)
      requires Valid()
      requires Accepts(View(), msg)
      requires msg.Join? ==> MayJoin(clientMap, msg.client, msg.handle)
      modifies this, clientMap.Values
      ensures Valid()
      ensures View() == Next(old(View()), msg)
      ensures forall d :: d in old(clientMap) ==>
                old(clientMap)[d].sent == old(clientMap[d].sent) + Deliveries(Sends(old(View()), render, msg), d)
    {
      match msg
      case Join(client, handle) =>
        clientMap := clientMap[client := handle];
      case Leave(client) =>
        clientMap := clientMap - {client};
      case ServerStat =>
      case Say(client, text) =>
        Broadcast(client, text);
      case Command(client, tokens) =>
        if client in clientMap {
          var tx := clientMap[client];
          var command := tokens[0];
          var args := tokens[1..];
          if command == SET_NICKNAME && |args| == 1 {
            clientNickname := clientNickname[client := args[0]];
            tx.Send(SendText(OK_REPLY));
          } else {
            tx.Send(SendText(INVALID_REPLY));
          }
        }
    }

    /** Receives and handles `msgs` in order: the tables become `RunTables` of the old ones and every
        channel involved gets exactly what `Received` says the run sends it. */
    method Run(msgs: seq<ClientMessage>)
      requires Valid()
      requires AllParsed(msgs)
      requires forall k :: 0 <= k < |msgs| && msgs[k].Join? ==> msgs[k].handle !in clientMap.Values
      requires OneClientPerHandle(msgs)
      modifies this, clientMap.Values, JoinHandles(msgs)
      ensures Valid()
      ensures View() == RunTables(old(View()), msgs)
      ensures forall ch :: ch in old(clientMap.Values) + JoinHandles(msgs) ==>
                ch.sent == old(ch.sent) + Received(old(View()), render, msgs, ch)
    {
      ghost var start := View();
      ghost var channels := clientMap.Values + JoinHandles(msgs);
      ghost var sent0 := map ch | ch in channels :: ch.sent;
      var i := 0;
      assert msgs[..i] == [];
      while i < |msgs|
        invariant 0 <= i <= |msgs|
        invariant Valid()
        invariant AllParsed(msgs[..i]) && View() == RunTables(start, msgs[..i])
        invariant clientMap.Values <= channels
        invariant forall d :: d in clientMap && clientMap[d] !in start.clients.Values ==> JoinedBy(msgs, d, clientMap[d])
        invariant forall ch :: ch in channels ==> ch.sent == sent0[ch] + Received(start, render, msgs[..i], ch)
      {
        Turn(msgs, i, start, channels, sent0);
        i := i + 1;
      }
      assert msgs[..i] == msgs;
    }

    /** One turn of `Run`'s loop: handling message `i` carries the loop's invariant from the first `i`
        messages of the run to the first `i + 1`. */
    method Turn(msgs: seq<ClientMessage>, i: nat, ghost start: Tables, ghost channels: set<Channel>,
                ghost sent0: map<Channel, seq<ClientCommand>>)
      requires Valid()
      requires i < |msgs| && AllParsed(msgs) && AllParsed(msgs[..i]) && View() == RunTables(start, msgs[..i])
      requires forall k :: 0 <= k < |msgs| && msgs[k].Join? ==> msgs[k].handle !in start.clients.Values
      requires OneClientPerHandle(msgs)
      requires clientMap.Values <= channels && JoinHandles(msgs) <= channels && channels <= sent0.Keys
      requires forall d :: d in clientMap && clientMap[d] !in start.clients.Values ==> JoinedBy(msgs, d, clientMap[d])
      requires forall ch :: ch in channels ==> ch.sent == sent0[ch] + Received(start, render, msgs[..i], ch)
      modifies this, clientMap.Values
      ensures Valid()
      ensures AllParsed(msgs[..i + 1]) && View() == RunTables(start, msgs[..i + 1])
      ensures clientMap.Values <= channels
      ensures forall d :: d in clientMap && clientMap[d] !in start.clients.Values ==> JoinedBy(msgs, d, clientMap[d])
      ensures forall ch :: ch in channels ==> ch.sent == sent0[ch] + Received(start, render, msgs[..i + 1], ch)
    {
      RunStep(start, msgs, i);
      ghost var mid := map ch | ch in channels :: ch.sent;
      HandleNth(msgs, i, start, channels);
      ghost var after := map ch | ch in channels :: ch.sent;
      ReceivedAdvance(start, render, msgs, i, channels, sent0, mid, after);
    }

    /** Handles the message at position `i` of a run started from the tables `start`, whose channels
        are among `channels`. */
    method HandleNth(msgs: seq<ClientMessage>, i: nat, ghost start: Tables, ghost channels: set<Channel>)
      requires Valid()
      requires i < |msgs| && Accepts(View(), msgs[i])
      requires forall k :: 0 <= k < |msgs| && msgs[k].Join? ==> msgs[k].handle !in start.clients.Values
      requires OneClientPerHandle(msgs)
      requires clientMap.Values <= channels && JoinHandles(msgs) <= channels
      requires forall d :: d in clientMap && clientMap[d] !in start.clients.Values ==> JoinedBy(msgs, d, clientMap[d])
      modifies this, clientMap.Values
      ensures Valid()
      ensures View() == Next(old(View()), msgs[i])
      ensures clientMap.Values <= channels
      ensures forall d :: d in clientMap && clientMap[d] !in start.clients.Values ==> JoinedBy(msgs, d, clientMap[d])
      ensures forall ch :: ch in channels ==> ch.sent == old(ch.sent) + Inbox(old(View()), Sends(old(View()), render, msgs[i]), ch)
    {
      var msg := msgs[i];
      if msg.Join? {
        assert msg.handle in JoinHandles(msgs);
        assert JoinedBy(msgs, msg.client, msg.handle);
        assert MayJoin(clientMap, msg.client, msg.handle);
      }
      ghost var before := View();
      ghost var out := Sends(before, render, msg);
      Handle(msg);
      forall ch | ch in channels
        ensures ch.sent == old(ch.sent) + Inbox(before, out, ch)
      {
        if ch in old(clientMap.Values) {
          var d :| d in old(clientMap) && old(clientMap)[d] == ch;
          InboxOfRegistered(before, out, d);
        } else {
          InboxOfStranger(before, out, ch);
        }
      }
    }
  }

  /** A nickname request as it arrives from a terminal, "/setnickname name" ended by CR LF, read from a
      registered client and handled by the manager: the name is set, "ok\n" goes back to the sender
      alone, and the sender's broadcasts carry the new name from then on. */
  lemma SetNicknameLineHandled(t: Tables, render: ClientId -> string, c: ClientId, name: string)
    requires c in t.clients && Classifier.IsWord(name)
    ensures Next(t, Classifier.Classify(c, SET_NICKNAME + " " + name + "\r\n")) == Tables(t.clients, t.nicknames[c := name])
    ensures Sends(t, render, Classifier.Classify(c, SET_NICKNAME + " " + name + "\r\n")) == map[c := SendText(OK_REPLY)]
    ensures DisplayName(Next(t, Classifier.Classify(c, SET_NICKNAME + " " + name + "\r\n")), render, c) == name
  {
    var words := [SET_NICKNAME, name];
    var line := SET_NICKNAME + " " + name + "\r\n";
    assert Classifier.IsWord(SET_NICKNAME);
    Classifier.SplitUnwords(words);
    assert Classifier.Unwords(words[1..]) == name;
    assert line == Classifier.Unwords(words) + ['\r'] + "\n";
    Classifier.SplitAtWhitespace(Classifier.Unwords(words), '\r', "\n");
    assert "\n" == [] + ['\n'] + [];
    Classifier.SplitAtWhitespace([], '\n', []);
    assert Classifier.StartsWithSlash(line);
    SetNicknameSucceeds(t, render, c, name);
  }

  /** What the reader makes of a chunk of text, handled by the manager: text that does not start
      with `/` reaches every other registered client unmodified after the sender's name and ": ";
      text that does start with `/` never panics the manager and never reaches another client. */
  lemma ReadThenHandled(t: Tables, render: ClientId -> string, c: ClientId, text: string)
    ensures Parsed(Classifier.Classify(c, text))
    ensures !Classifier.StartsWithSlash(text) ==>
              Next(t, Classifier.Classify(c, text)) == t &&
              Sends(t, render, Classifier.Classify(c, text)).Keys == t.clients.Keys - {c} &&
              forall d :: d in Sends(t, render, Classifier.Classify(c, text)) ==>
                Sends(t, render, Classifier.Classify(c, text))[d] == SendText(DisplayName(t, render, c) + ": " + text)
    ensures Classifier.StartsWithSlash(text) ==> Sends(t, render, Classifier.Classify(c, text)).Keys <= {c}
  {
    if !Classifier.StartsWithSlash(text) {
      SayReachesEveryOtherClient(t, render, c, text);
    }
  }
}
