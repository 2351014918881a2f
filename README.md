# zyre_tools: the receiving actor, its filter and the command loop

zyre_tools is an interactive inspector for a zyre peer-to-peer network. An
operator types commands such as `node listen <uuid>` or `group listen <name>`.
A background actor waits on two sources: control messages from the command
loop, and events from the zyre node. It keeps a filter made of two strings,
`node_to_print` and `group_to_print`, where the empty string means "not
watching". It also keeps a global uuid-to-name directory and prints the payload
of each shout that the filter selects.

This project models those parts in Dafny:

- `Optional` (optional.dfy): the stock `Option` datatype, standing for a
  pointer that may be NULL.
- `Protocol` (protocol.dfy): the control messages. The command loop sends them
  as string frames, and the actor pops a tag and, for the two watch commands,
  one argument frame. A `Command` datatype with `Encode`/`Decode` gives the
  closed variant behind the string tags.
- `Actor` (actor.dfy): `receiveLoop`. `OnControl` and `OnNetwork` are the two
  step functions over `ActorState`, which holds both filter strings, the
  terminated flag and the directory. `Prints` is the print decision. `Run` is
  the whole loop as a function. `ReceiveLoop` is the loop as a method, with the
  filter and the flag as locals, exactly as in the source, and is proved equal
  to `Run`. The `Watch` datatype (Inactive / one node / one group) is the
  three-case reading of the sentinel pair. For non-empty ids and group names,
  a lemma proves it equivalent to the sentinel pair.
- `Overlay` (overlay.dfy): `getNodeGroups` as the imperative nested scan
  (`GetNodeGroups`). It is proved equal to the back-to-front function
  `GroupsOf`, and lemmas cover membership, uniqueness and iteration order. It
  also models the found / not-found lookup behind `printNodeInfo`.
- `Subscription` (subscription.dfy): the local zyre node as a class whose
  `ownGroups` set is changed by `Join` and `Leave`, plus `stopPrinting`,
  `printNodeShouts` and `printGroupShouts` as methods that return the control
  message they send.
- `Commands` (commands.dfy): the chain of tests in `main` as the total
  function `Dispatch` from token vector to `Action`. `Execute` is one loop
  body, and `CommandLoop` is main's loop up to `exit` or an interrupt, ending
  with `$TERM`.

Inputs from outside the program are parameters. The actor's wakeups are a
finite sequence of `Wakeup` values that stands for what `zpoller_wait`
returns. The overlay's group list (`zyre_peer_groups` with
`zyre_peers_by_group`) is a `GroupView`: NULL, or a sequence of groups, each
with a peer list that may itself be NULL. `CommandLoop` takes one `GroupView`
per input line, read at the moment that line runs. The operator's input is a
sequence of token vectors.

Nothing is meant to print while nothing is watched. The code meets this only
for non-empty names, and the model follows the code. The filter string that
is not in use holds the empty sentinel, so it matches an empty name
(`Actor.SentinelMatchesEmptyName`, and the contract of `Actor.Prints`):

- while nothing is watched, a shout to a group named `""`, or from a peer
  whose uuid is `""`, is printed;
- while a node is watched, a shout from any peer to a group named `""` is
  printed;
- while a group is watched, a shout from a peer whose uuid is `""` to any
  group is printed.

For non-empty uuids and group names, the string test agrees exactly with the
three-case watch (`Actor.PrintsIffWatched`). The model keeps the strings, as
the source does.

`getNodeGroups` pushes a group once for each time the uuid occurs in that
group's peer list. "Each group at most once" therefore needs both distinct
group names and repeat-free peer lists. zyre reports both from hash keys, so
both hold in practice. `Overlay.GroupsOfDistinct` assumes both.

## Model

| member | source | states |
|---|---|---|
| Protocol.Encode | zyre_tools.cpp:229-396 | every control message the command loop sends carries a tag the actor recognises, plus the argument frame that tag needs |
| Protocol.Decode | zyre_tools.cpp:37-65 | the actor reads, from the front of the frames, exactly the encoding of one command, and ignores any later frames; only `$TERM` decodes to termination |
| Protocol.DecodeEncode | zyre_tools.cpp:37-65 | every command survives the trip through the pipe unchanged |
| Actor.Start | zyre_tools.cpp:23-28 | the loop starts not terminated, watching nothing, over the directory as it stands |
| Actor.OnControl | zyre_tools.cpp:37-67 | a control message never touches the directory; only `$TERM` sets terminated and it keeps the filter; a node watch sets the node string to its argument and empties the group string, a group watch the reverse, STOP PRINT empties both, whatever the previous state, so at most one filter string is in use |
| Actor.Prints | zyre_tools.cpp:78-80 | while both filter strings are empty, an event is printed iff it is a SHOUT whose peer or group is the empty string |
| Actor.OnNetwork | zyre_tools.cpp:71-77 | any network event upserts its peer's name; every other directory key and value is unchanged; filter and flag are unchanged |
| Actor.Run | zyre_tools.cpp:29-91 | the whole loop as a function: a run that starts with at most one filter string in use ends with at most one in use, and prints at most one payload per wakeup |
| Actor.RunAppend | zyre_tools.cpp:29-91 | handling a stream in two parts, the first neither interrupted nor terminating, gives the same final state and the same printed payloads as handling it in one go |
| Actor.ReceiveLoop | zyre_tools.cpp:27-91 | the loop, with locals and the global directory, prints exactly the payloads `Run` prints and leaves the directory `Run` leaves, stopping at `$TERM` or an interrupted pipe |
| Actor.PrintedAreShoutPayloads | zyre_tools.cpp:78-83 | everything a run prints is the payload of a SHOUT it received |
| Actor.DirectoryNeverShrinks | zyre_tools.cpp:77 | directory entries are upserted and never removed over a whole run |
| Actor.SentinelEncodesWatch | zyre_tools.cpp:27-28 | the pair of sentinel strings with at most one in use is in one-to-one correspondence with Inactive / Node(id) / Group(name) for non-empty ids and names |
| Actor.PrintsIffWatched | zyre_tools.cpp:78-83 | for non-empty peer and group, an event is printed iff it is a SHOUT and it matches the current watch (sender for a node watch, group for a group watch, never when inactive) |
| Actor.OnlyShoutsPrint | zyre_tools.cpp:78 | an event of any type other than SHOUT is never printed |
| Actor.SentinelMatchesEmptyName | zyre_tools.cpp:78-80 | a SHOUT to the group named "" prints unless a group is watched, and a SHOUT from the uuid "" prints unless a node is watched; both print while nothing is watched |
| Actor.ControlSetsWatch | zyre_tools.cpp:42-60 | a watch command with a non-empty argument, or a stop command, sets the watch it names, whatever was watched before, and leaves the directory and flag alone |
| Actor.LastCommandWins | zyre_tools.cpp:29-68 | after any non-empty run of stop commands and watch commands with non-empty arguments, the filter is the one the last command sets, and nothing is printed |
| Actor.QuietWhileInactive | zyre_tools.cpp:78-80 | while both filter strings are empty, no run of events with non-empty peer and group prints anything |
| Actor.StopPrintSilences | zyre_tools.cpp:56-60 | after STOP PRINT both strings are empty, from any state, and no later event with non-empty peer and group is printed |
| Actor.UpsertIdempotent | zyre_tools.cpp:77 | repeating an event with the same (peer, name) leaves the whole actor state unchanged |
| Actor.UpsertLastWriteWins | zyre_tools.cpp:77 | a new name for a known peer replaces the old one |
| Actor.PeerRecorded | zyre_tools.cpp:77 | the peer of every network event the loop reaches, at any position of the stream, has an entry at the end of the run |
| Actor.Scenario | zyre_tools.cpp:29-90 | a shout from P1/Alice to G1 is not printed while inactive, is printed after a G1 watch and not after a P2 watch, and the directory ends as {P1: Alice} |
| Overlay.GetNodeGroups | zyre_tools.cpp:139-176 | the nested scan returns the back-to-front specification `NodeGroups`, which is empty when the group list is NULL and skips groups whose peer list is NULL |
| Overlay.HitsMembership | zyre_tools.cpp:160-169 | one peer list's scan pushes only the group's name, and does so iff the uuid is in the list |
| Overlay.HitsOnce | zyre_tools.cpp:160-169 | over a repeat-free peer list, the group is pushed exactly once if listed, else never |
| Overlay.GroupsOfMembership | zyre_tools.cpp:139-176 | a name is in the result iff some reported group of that name has a non-NULL peer list holding the uuid |
| Overlay.GroupsOfDistinct | zyre_tools.cpp:139-176 | with unique group names and repeat-free peer lists, no group occurs twice in the result |
| Overlay.GroupsOfIsListing | zyre_tools.cpp:139-176 | with repeat-free peer lists, the result equals the first-to-last filter of the groups that list the uuid, that is, the overlay's iteration order |
| Overlay.NullPeerListSkipped | zyre_tools.cpp:154-159 | a group whose peer list is NULL contributes nothing |
| Overlay.DescribePeer | zyre_tools.cpp:181-213 | a peer without a directory entry is reported as not existing; otherwise its name comes from the directory and every group shown really lists it |
| Subscription.StopPrinting | zyre_tools.cpp:217-230 | every own group is left, so the own set becomes empty, and STOP PRINT is sent |
| Subscription.PrintNodeShouts | zyre_tools.cpp:233-241 | exactly the groups getNodeGroups finds are added to the own set (none if it finds none), then the node-watch command with the uuid is sent |
| Subscription.PrintGroupShouts | zyre_tools.cpp:278-282 | exactly the named group is added to the own set, then the group-watch command with the name is sent |
| Subscription.WatchedPeerIsPrinted | zyre_tools.cpp:233-241 | once the actor has handled a node watch, every shout from that peer is printed, to any group; a group is found by the lookup, and so joined, iff some reported group of that name lists the peer, so every group the peer belongs to is joined |
| Subscription.WatchedGroupIsPrinted | zyre_tools.cpp:278-282 | once the actor has handled a group watch, every shout to that group is printed |
| Commands.Dispatch | zyre_tools.cpp:313-393 | an empty vector is skipped; exit/quit/q exits; node or group with under 2 tokens, or with info/listen and under 3 tokens, is an error; otherwise the third token is the argument; an unknown first or second token does nothing |
| Commands.DispatchUsage | zyre_tools.cpp:285-296 | every command line in the help syntax, plus stop, dispatches to the action it describes |
| Commands.DispatchIgnoresTrailing | zyre_tools.cpp:313-393 | tokens after the ones main reads never change a well-formed line's action |
| Commands.MessageFor | zyre_tools.cpp:326-392 | only stop, node listen and group listen send the actor a message, and each one sent is recognised and is not `$TERM` |
| Commands.OwnGroupsAfter | zyre_tools.cpp:326-392 | stop empties the own groups; the listen commands only add; every other action leaves them unchanged |
| Commands.Execute | zyre_tools.cpp:322-392 | one loop body sends the action's message and leaves the own groups as `OwnGroupsAfter` says |
| Commands.Outbox | zyre_tools.cpp:311-394 | every message sent before the loop ends is recognised by the actor and none terminates it |
| Commands.CommandLoop | zyre_tools.cpp:310-396 | main's loop sends the messages for the lines up to the first exit, then exactly one `$TERM`, and leaves the own groups as the lines' actions dictate |
| Commands.SessionRecognised | zyre_tools.cpp:310-396 | every message the actor receives in a session is recognised, so its `assert(false)` is unreachable, and only the last one terminates it |

## Left out

- The zpoller wait, zactor start-up and teardown, and the sharing of the global
  directory between the command thread and the actor without a lock are
  concurrency. The actor's wakeups are a given sequence. The directory is
  passed into `ReceiveLoop` and handed back, and the command loop never reads
  it while the actor writes.
- The real loop blocks forever when no wakeup comes. `ReceiveLoop` also stops
  when its finite sequence of wakeups runs out.
- zyre itself is not modelled: the wire format, discovery, `zyre_peers`,
  `zyre_peer_address`, and join/leave gossip. Group lists are input values.
  `Join`/`Leave` take effect immediately on `ownGroups`, and
  `zyre_own_groups` is read as that set.
- readline input, history and the `istringstream` tokenisation
  (zyre_tools.cpp:97-116). The token vectors are given.
- All printing to `std::cout`/`std::cerr`: `printNodeList`, `printGroupList`,
  `printGroupInfo`, `help`, the error messages, and the "No groups exist" line.
  The model keeps only whether a payload is printed, and the found / not-found
  branch of `printNodeInfo`. The peer's endpoint from `zyre_peer_address` is
  not part of `DescribePeer`.
- NULL frames from `zmsg_popstr` are left out. They are undefined behaviour in
  `std::string(NULL)` and `streq`. Events are always five frames, and a watch
  command always carries its argument frame. This is part of the
  `IsControlCommand` precondition.
- Actor.ReceiveLoop: an unrecognised control tag hits `assert(false)` in the
  source. Here it is excluded by the precondition that every control message
  is recognised. `Commands.SessionRecognised` shows that main only sends such
  messages.
- Memory freeing, `zclock_sleep`, `zyre_start`/`zyre_stop`, and the `zyre_new`
  failure exit in `main` are left out.
