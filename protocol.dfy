/** Messages exchanged between the connection tasks and the manager task of the chat relay. */
module Protocol {

  /** The remote socket address of one connection; the relay only compares and hashes it. */
  type ClientId(==)

  /** Command pushed onto one client's outbound channel and written to its socket by the writer task. */
  datatype ClientCommand = SendText(text: string)

  /** The sending half of one client's bounded outbound channel.
      `sent` is everything ever sent into it, in order; the writer's draining is not modelled. */
  class Channel {
    var sent: seq<ClientCommand>

    constructor ()
      ensures sent == []
    {
      sent := [];
    }

    /** One `send` on the channel: the command is queued after everything sent before. */
    method Send(cmd: ClientCommand)
      modifies this
      ensures sent == old(sent) + [cmd]
    {
      sent := sent + [cmd];
    }
  }

  /** Event sent to the manager task by a connection task. */
  datatype ClientMessage =
    | Join(client: ClientId, handle: Channel)
    | Leave(client: ClientId)
    | Say(client: ClientId, text: string)
    | Command(client: ClientId, tokens: seq<string>)
    | ServerStat

  /** Name of the only command the manager recognises. */
  const SET_NICKNAME: string := "/setnickname"

  /** Reply to a successful `/setnickname`. */
  const OK_REPLY: string := "ok\n"

  /** Reply to every other command line. */
  const INVALID_REPLY: string := "invalid args or no match pattern\n"
}
