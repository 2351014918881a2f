/**
 * The string protocol spoken on the actor's pipe. The command loop sends
 * multi-frame messages with zstr_sendx; the receiving actor pops the first
 * frame as a tag and, for the two watch commands, a second frame as the
 * argument.
 */
module Protocol {

  /** A multi-frame message: one string per frame, in sending order. */
  type Message = seq<string>

  const TERM_TAG: string := "$TERM"
  const PRINT_NODE_TAG: string := "PRINT SHOUTS FROM NODE"
  const PRINT_GROUP_TAG: string := "PRINT SHOUTS FROM GROUP"
  const STOP_PRINT_TAG: string := "STOP PRINT"

  /** The four control commands the actor understands. */
  datatype Command =
    | WatchNode(uuid: string)
    | WatchGroup(name: string)
    | StopWatch
    | Terminate

  /**
   * A message the actor can handle: a known tag, and for the two watch
   * tags a second frame to pop (a missing one would be a NULL string).
   */
  predicate IsControlCommand(m: Message) {
    && |m| >= 1
    && (|| m[0] == TERM_TAG
        || m[0] == STOP_PRINT_TAG
        || ((m[0] == PRINT_NODE_TAG || m[0] == PRINT_GROUP_TAG) && |m| >= 2))
  }

  /** The frames the command loop sends for a command. */
  function Encode(c: Command): (m: Message)
    ensures IsControlCommand(m)
  {
    match c
    case WatchNode(uuid) => [PRINT_NODE_TAG, uuid]
    case WatchGroup(name) => [PRINT_GROUP_TAG, name]
    case StopWatch => [STOP_PRINT_TAG]
    case Terminate => [TERM_TAG]
  }

  /**
   * What the actor reads out of a message: the command whose encoding is a
   * prefix of the frames (frames after the ones popped are ignored).
   */
  function Decode(m: Message): (c: Command)
    requires IsControlCommand(m)
    ensures |Encode(c)| <= |m| && Encode(c) == m[..|Encode(c)|]
    ensures c.Terminate? <==> m[0] == TERM_TAG
  {
    if m[0] == TERM_TAG then Terminate
    else if m[0] == PRINT_NODE_TAG then WatchNode(m[1])
    else if m[0] == PRINT_GROUP_TAG then WatchGroup(m[1])
    else StopWatch
  }

  /** Every command survives the trip through the pipe unchanged. */
  lemma DecodeEncode(c: Command)
    ensures Decode(Encode(c)) == c
  {
  }
}
