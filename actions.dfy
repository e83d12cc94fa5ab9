/**
 * The values that flow between the bot's tasks: channel addresses, outbound actions
 * (`src/botaction.rs`), sender prefixes and parsed IRC messages, and the effects a command
 * handler has (a message sent, a timer started), in the order it has them.
 */
module Actions {
  import opened Wrappers

  /** A destination: one channel on one network. */
  datatype IrcChannel = IrcChannel(network: string, channel: string)

  /** The payload of an outbound action: a plain message or an emote ("/me ..."). */
  datatype ActionType = Message(text: string) | Action(text: string)

  datatype BotAction = BotAction(target: IrcChannel, actionType: ActionType)

  /** The sender prefix of an IRC message, `nick!user@host` or a server name
      (section 2.3.1 of RFC 2812). */
  datatype Prefix = Nickname(nick: string, user: string, host: string) | ServerName(name: string)

  /** The command of a parsed IRC message; only PRIVMSG (section 3.3.1 of RFC 2812) is told apart. */
  datatype Command = Privmsg(target: string, text: string) | OtherCommand(name: string)

  datatype IrcMessage = IrcMessage(prefix: Option<Prefix>, command: Command)

  /** A timer request: after `seconds`, `message` is said on `target`. */
  datatype TimerEvent = TimerEvent(target: IrcChannel, message: string, seconds: int)

  /** What a handler does, in order: send an action, or hand a timer to the timer manager. */
  datatype Effect = Send(action: BotAction) | StartTimer(event: TimerEvent)

  /** Sending one plain message to `target`. */
  function Say(target: IrcChannel, text: string): Effect
  {
    Send(BotAction(target, Message(text)))
  }
}
