/**
 * The receiving actor (receiveLoop in zyre_tools.cpp): it waits on its pipe
 * and on the zyre socket, keeps a filter made of two strings, upserts the
 * uuid-to-name directory on every network event and decides whether the
 * payload of a shout is printed. The empty string means "not watching".
 */
module Actor {
  import opened Protocol

  /** The event type of a broadcast to a group. */
  const SHOUT: string := "SHOUT"

  /** A message from the zyre socket, read as five string frames. */
  datatype Event = Event(kind: string, peer: string, name: string, group: string, message: string)

  /** What one return from the poller hands the actor. */
  datatype Wakeup =
    | Interrupted               // zmsg_recv on the pipe returned NULL
    | Control(frames: Message)  // a message on the pipe
    | Network(event: Event)     // a message on the zyre socket

  /**
   * The actor's state: its two filter strings, its terminated flag and the
   * global uuid-to-name directory.
   */
  datatype ActorState = ActorState(
    nodeToPrint: string,
    groupToPrint: string,
    terminated: bool,
    names: map<string, string>)

  /** The state on entry to the loop, over whatever the directory holds. */
  function Start(names: map<string, string>): (s: ActorState)
    ensures !s.terminated && s.names == names
    ensures WatchOf(s) == Inactive
  {
    ActorState("", "", false, names)
  }

  /** Handling of one control message. */
  function OnControl(s: ActorState, m: Message): (r: ActorState)
    requires IsControlCommand(m)
    ensures r.names == s.names
    ensures r.terminated <==> s.terminated || m[0] == TERM_TAG
    ensures m[0] == TERM_TAG ==> r.nodeToPrint == s.nodeToPrint && r.groupToPrint == s.groupToPrint
    ensures m[0] == PRINT_NODE_TAG ==> r.nodeToPrint == m[1] && r.groupToPrint == ""
    ensures m[0] == PRINT_GROUP_TAG ==> r.groupToPrint == m[1] && r.nodeToPrint == ""
    ensures m[0] == STOP_PRINT_TAG ==> r.nodeToPrint == "" && r.groupToPrint == ""
    ensures m[0] != TERM_TAG ==> FilterValid(r)
  {
    if m[0] == TERM_TAG then s.(terminated := true)
    else if m[0] == PRINT_NODE_TAG then s.(nodeToPrint := m[1], groupToPrint := "")
    else if m[0] == PRINT_GROUP_TAG then s.(groupToPrint := m[1], nodeToPrint := "")
    else s.(nodeToPrint := "", groupToPrint := "")
  }

  /**
   * Whether the payload of an event is printed, decided on the current
   * filter. While nothing is watched, exactly the shouts with an empty peer
   * or group match the empty sentinel, and nothing else prints.
   */
  predicate Prints(s: ActorState, e: Event)
    ensures s.nodeToPrint == "" && s.groupToPrint == "" ==>
              (Prints(s, e) <==> e.kind == SHOUT && (e.peer == "" || e.group == ""))
  {
    e.kind == SHOUT && (s.nodeToPrint == e.peer || s.groupToPrint == e.group)
  }

  /** Handling of one network event: the directory entry of its peer is upserted. */
  function OnNetwork(s: ActorState, e: Event): (r: ActorState)
    ensures e.peer in r.names && r.names[e.peer] == e.name
    ensures forall p :: p != e.peer ==> (p in r.names <==> p in s.names)
    ensures forall p :: p != e.peer && p in s.names ==> r.names[p] == s.names[p]
    ensures r.nodeToPrint == s.nodeToPrint && r.groupToPrint == s.groupToPrint
    ensures r.terminated == s.terminated
  {
    s.(names := s.names[e.peer := e.name])
  }

  /** Every control message in a stream of wakeups is one the actor recognises. */
  predicate Recognised(inputs: seq<Wakeup>) {
    forall i :: 0 <= i < |inputs| && inputs[i].Control? ==> IsControlCommand(inputs[i].frames)
  }

  /** The final state of a run and the payloads it printed, in order. */
  datatype Outcome = Outcome(final: ActorState, printed: seq<string>)

  /**
   * The loop as a function: wakeups are handled one at a time until the
   * actor is terminated, the pipe is interrupted or the wakeups run out.
   */
  function Run(s: ActorState, inputs: seq<Wakeup>): (r: Outcome)
    requires Recognised(inputs)
    ensures |r.printed| <= |inputs|
    ensures FilterValid(s) ==> FilterValid(r.final)
    decreases |inputs|
  {
    if s.terminated || inputs == [] then Outcome(s, [])
    else
      RecognisedTail(inputs);
      match inputs[0]
      case Interrupted => Outcome(s, [])
      case Control(m) => Run(OnControl(s, m), inputs[1..])
      case Network(e) =>
        var rest := Run(OnNetwork(s, e), inputs[1..]);
        Outcome(rest.final, (if Prints(s, e) then [e.message] else []) + rest.printed)
  }

  /** The wakeups after the first one are recognised as well. */
  lemma RecognisedTail(inputs: seq<Wakeup>)
    requires inputs != [] && Recognised(inputs)
    ensures Recognised(inputs[1..])
  {
    forall i | 0 <= i < |inputs[1..]| && inputs[1..][i].Control?
      ensures IsControlCommand(inputs[1..][i].frames)
    {
      assert inputs[1..][i] == inputs[i + 1];
    }
  }

  /** A network event that is a shout carrying the given payload. */
  predicate IsShoutOf(e: Event, payload: string) {
    e.kind == SHOUT && e.message == payload
  }

  /** Some wakeup of a stream is a shout carrying the given payload. */
  predicate ShoutedIn(inputs: seq<Wakeup>, payload: string) {
    exists i :: 0 <= i < |inputs| && inputs[i].Network? && IsShoutOf(inputs[i].event, payload)
  }

  /** Everything a run prints is the payload of a shout it received. */
  lemma {:induction false} PrintedAreShoutPayloads(s: ActorState, inputs: seq<Wakeup>)
    requires Recognised(inputs)
    ensures forall k :: 0 <= k < |Run(s, inputs).printed| ==> ShoutedIn(inputs, Run(s, inputs).printed[k])
    decreases |inputs|
  {
    if !s.terminated && inputs != [] && !inputs[0].Interrupted? {
      RecognisedTail(inputs);
      var next := if inputs[0].Control? then OnControl(s, inputs[0].frames) else OnNetwork(s, inputs[0].event);
      PrintedAreShoutPayloads(next, inputs[1..]);
      var tail := Run(next, inputs[1..]).printed;
      forall k | 0 <= k < |tail| ensures ShoutedIn(inputs, tail[k]) {
        assert ShoutedIn(inputs[1..], tail[k]);
        var i :| 0 <= i < |inputs[1..]| && inputs[1..][i].Network? && IsShoutOf(inputs[1..][i].event, tail[k]);
        assert inputs[1..][i] == inputs[i + 1];
      }
      if inputs[0].Network? && Prints(s, inputs[0].event) {
        assert IsShoutOf(inputs[0].event, inputs[0].event.message);
      }
    }
  }

  /** Directory entries are upserted, never removed. */
  lemma {:induction false} DirectoryNeverShrinks(s: ActorState, inputs: seq<Wakeup>)
    requires Recognised(inputs)
    ensures s.names.Keys <= Run(s, inputs).final.names.Keys
    decreases |inputs|
  {
    if !s.terminated && inputs != [] && !inputs[0].Interrupted? {
      RecognisedTail(inputs);
      var next := if inputs[0].Control? then OnControl(s, inputs[0].frames) else OnNetwork(s, inputs[0].event);
      DirectoryNeverShrinks(next, inputs[1..]);
    }
  }

  /**
   * The loop of receiveLoop, run over a finite sequence of wakeups. The
   * filter and the terminated flag are locals; the directory is global, so it
   * is passed in and handed back.
   */
  method ReceiveLoop(names0: map<string, string>, inputs: seq<Wakeup>)
    returns (names: map<string, string>, printed: seq<string>)
    requires Recognised(inputs)
    ensures names == Run(Start(names0), inputs).final.names
    ensures printed == Run(Start(names0), inputs).printed
  {
    var terminated := false;
    var nodeToPrint := "";
    var groupToPrint := "";
    names, printed := names0, [];
    var i := 0;
    while !terminated && i < |inputs|
      invariant 0 <= i <= |inputs|
      invariant Recognised(inputs[i..])
      invariant var rest := Run(ActorState(nodeToPrint, groupToPrint, terminated, names), inputs[i..]);
                Run(Start(names0), inputs) == Outcome(rest.final, printed + rest.printed)
    {
      assert inputs[i..][1..] == inputs[i + 1..];
      match inputs[i] {
        case Interrupted =>
          break;
        case Control(m) =>
          var command := m[0];
          if command == TERM_TAG {
            terminated := true;
          } else if command == PRINT_NODE_TAG {
            nodeToPrint := m[1];
            groupToPrint := "";
          } else if command == PRINT_GROUP_TAG {
            groupToPrint := m[1];
            nodeToPrint := "";
          } else if command == STOP_PRINT_TAG {
            nodeToPrint := "";
            groupToPrint := "";
          } else {
            assert false;
          }
        case Network(e) =>
          names := names[e.peer := e.name];
          if e.kind == SHOUT && (nodeToPrint == e.peer || groupToPrint == e.group) {
            printed := printed + [e.message];
          }
      }
      i := i + 1;
    }
  }

  // ---------------------------------------------------------------------
  // The filter as a three-case variant

  /** What is being watched. */
  datatype Watch = Inactive | WatchingNode(uuid: string) | WatchingGroup(name: string)

  /** At most one of the two filter strings is in use. */
  predicate FilterValid(s: ActorState) {
    s.nodeToPrint == "" || s.groupToPrint == ""
  }

  /** The watch a pair of filter strings stands for. */
  function WatchOf(s: ActorState): Watch {
    if s.nodeToPrint != "" then WatchingNode(s.nodeToPrint)
    else if s.groupToPrint != "" then WatchingGroup(s.groupToPrint)
    else Inactive
  }

  /** The filter strings that stand for a watch. */
  function FilterOf(w: Watch): (string, string) {
    match w
    case Inactive => ("", "")
    case WatchingNode(uuid) => (uuid, "")
    case WatchingGroup(name) => ("", name)
  }

  /** A watch whose uuid or group name is not the empty sentinel. */
  predicate WatchNonEmpty(w: Watch) {
    match w
    case Inactive => true
    case WatchingNode(uuid) => uuid != ""
    case WatchingGroup(name) => name != ""
  }

  /**
   * The sentinel encoding is a bijection between valid filter pairs and the
   * watches with non-empty arguments.
   */
  lemma SentinelEncodesWatch(s: ActorState, w: Watch)
    ensures FilterValid(s) ==> FilterOf(WatchOf(s)) == (s.nodeToPrint, s.groupToPrint)
    ensures FilterValid(s) ==> WatchNonEmpty(WatchOf(s))
    ensures WatchNonEmpty(w) ==> WatchOf(s.(nodeToPrint := FilterOf(w).0, groupToPrint := FilterOf(w).1)) == w
  {
  }

  /** A shout of an event matches a watch. */
  predicate Matches(w: Watch, e: Event) {
    match w
    case Inactive => false
    case WatchingNode(uuid) => uuid == e.peer
    case WatchingGroup(name) => name == e.group
  }

  /**
   * With a non-empty peer and group, the string test prints exactly the
   * shouts the watch matches; non-shout events are never printed.
   */
  lemma PrintsIffWatched(s: ActorState, e: Event)
    requires FilterValid(s)
    requires e.peer != "" && e.group != ""
    ensures Prints(s, e) <==> e.kind == SHOUT && Matches(WatchOf(s), e)
  {
  }

  /** Non-shout events are never printed, whatever the filter. */
  lemma OnlyShoutsPrint(s: ActorState, e: Event)
    requires e.kind != SHOUT
    ensures !Prints(s, e)
  {
  }

  /**
   * A consequence of the sentinel: the filter string not in use is "", so a
   * shout to a group named "" prints unless a group is watched, and a shout
   * from a peer whose uuid is "" prints unless a node is watched. In
   * particular both print while nothing is watched.
   */
  lemma SentinelMatchesEmptyName(s: ActorState, e: Event)
    requires FilterValid(s) && e.kind == SHOUT
    ensures e.group == "" && !WatchOf(s).WatchingGroup? ==> Prints(s, e)
    ensures e.peer == "" && !WatchOf(s).WatchingNode? ==> Prints(s, e)
    ensures WatchOf(s) == Inactive && (e.group == "" || e.peer == "") ==> Prints(s, e)
  {
  }

  /** The watch a control command sets, whatever was watched before. */
  function Watched(c: Command): Watch
    requires !c.Terminate?
  {
    match c
    case WatchNode(uuid) => WatchingNode(uuid)
    case WatchGroup(name) => WatchingGroup(name)
    case StopWatch => Inactive
  }

  /** The argument frame of a watch command is not the empty sentinel. */
  predicate ArgumentNonEmpty(m: Message) {
    (|m| >= 2 && (m[0] == PRINT_NODE_TAG || m[0] == PRINT_GROUP_TAG)) ==> m[1] != ""
  }

  /** Each watch command replaces the filter outright and leaves the directory alone. */
  lemma ControlSetsWatch(s: ActorState, m: Message)
    requires IsControlCommand(m) && m[0] != TERM_TAG && ArgumentNonEmpty(m)
    ensures FilterValid(OnControl(s, m))
    ensures WatchOf(OnControl(s, m)) == Watched(Decode(m))
    ensures OnControl(s, m).names == s.names && OnControl(s, m).terminated == s.terminated
  {
  }

  /** A control message that watches or stops watching, with a non-empty argument. */
  predicate IsWatchMessage(w: Wakeup) {
    w.Control? && IsControlCommand(w.frames) && w.frames[0] != TERM_TAG && ArgumentNonEmpty(w.frames)
  }

  /**
   * After any non-empty run of watch commands the filter is the one the
   * last command sets: no state of earlier commands survives.
   */
  lemma {:induction false} LastCommandWins(s: ActorState, inputs: seq<Wakeup>)
    requires !s.terminated && inputs != []
    requires forall i {:trigger inputs[i]} :: 0 <= i < |inputs| ==> IsWatchMessage(inputs[i])
    ensures Recognised(inputs) && IsWatchMessage(inputs[|inputs| - 1])
    ensures WatchOf(Run(s, inputs).final) == Watched(Decode(inputs[|inputs| - 1].frames))
    ensures FilterValid(Run(s, inputs).final) && Run(s, inputs).printed == []
    decreases |inputs|
  {
    var next := OnControl(s, inputs[0].frames);
    ControlSetsWatch(s, inputs[0].frames);
    if |inputs| > 1 {
      var rest := inputs[1..];
      assert forall i :: 0 <= i < |rest| ==> rest[i] == inputs[i + 1];
      LastCommandWins(next, rest);
    }
  }

  /** A network event whose peer and group are both non-empty. */
  predicate IsNamedEvent(w: Wakeup) {
    w.Network? && w.event.peer != "" && w.event.group != ""
  }

  /** While both filter strings are empty, no event with non-empty peer and group is printed. */
  lemma {:induction false} QuietWhileInactive(s: ActorState, inputs: seq<Wakeup>)
    requires s.nodeToPrint == "" && s.groupToPrint == ""
    requires forall i :: 0 <= i < |inputs| ==> IsNamedEvent(inputs[i])
    ensures Recognised(inputs)
    ensures Run(s, inputs).printed == []
    decreases |inputs|
  {
    if !s.terminated && inputs != [] {
      var rest := inputs[1..];
      assert forall i :: 0 <= i < |rest| ==> rest[i] == inputs[i + 1];
      QuietWhileInactive(OnNetwork(s, inputs[0].event), rest);
    }
  }

  /**
   * After STOP PRINT both filter strings are empty, and from then on no
   * event with non-empty peer and group is printed, whatever was watched.
   */
  lemma StopPrintSilences(s: ActorState, events: seq<Wakeup>)
    requires forall i :: 0 <= i < |events| ==> IsNamedEvent(events[i])
    ensures OnControl(s, [STOP_PRINT_TAG]).nodeToPrint == "" && OnControl(s, [STOP_PRINT_TAG]).groupToPrint == ""
    ensures Recognised([Control([STOP_PRINT_TAG])] + events)
    ensures Run(s, [Control([STOP_PRINT_TAG])] + events).printed == []
  {
    var inputs := [Control([STOP_PRINT_TAG])] + events;
    QuietWhileInactive(OnControl(s, [STOP_PRINT_TAG]), events);
    assert inputs[1..] == events;
  }

  /** Upserting the same peer and name twice is the same as upserting it once. */
  lemma UpsertIdempotent(s: ActorState, e: Event, e': Event)
    requires e'.peer == e.peer && e'.name == e.name
    ensures OnNetwork(OnNetwork(s, e), e') == OnNetwork(s, e)
  {
  }

  /** A new name for a known peer replaces the old one (last write wins). */
  lemma UpsertLastWriteWins(s: ActorState, e: Event, e': Event)
    requires e'.peer == e.peer
    ensures OnNetwork(OnNetwork(s, e), e').names == OnNetwork(s, e').names
  {
  }

  /** Every slice of a recognised stream of wakeups is recognised. */
  lemma RecognisedSlice(inputs: seq<Wakeup>, lo: int, hi: int)
    requires Recognised(inputs) && 0 <= lo <= hi <= |inputs|
    ensures Recognised(inputs[lo..hi])
  {
    forall k | 0 <= k < hi - lo && inputs[lo..hi][k].Control?
      ensures IsControlCommand(inputs[lo..hi][k].frames)
    {
      assert inputs[lo..hi][k] == inputs[lo + k];
    }
  }

  /**
   * Running two streams one after the other is running their concatenation,
   * as long as the first neither interrupts nor terminates the loop.
   */
  lemma {:induction false} RunAppend(s: ActorState, a: seq<Wakeup>, b: seq<Wakeup>)
    requires Recognised(a) && Recognised(b)
    requires forall k :: 0 <= k < |a| ==> !a[k].Interrupted?
    requires !Run(s, a).final.terminated
    ensures Recognised(a + b)
    ensures Run(s, a + b).final == Run(Run(s, a).final, b).final
    ensures Run(s, a + b).printed == Run(s, a).printed + Run(Run(s, a).final, b).printed
    decreases |a|
  {
    forall k | 0 <= k < |a + b| && (a + b)[k].Control?
      ensures IsControlCommand((a + b)[k].frames)
    {
      if k < |a| {
        assert (a + b)[k] == a[k];
      } else {
        assert (a + b)[k] == b[k - |a|];
      }
    }
    if a == [] {
      assert a + b == b;
    } else {
      RecognisedTail(a);
      assert (a + b)[0] == a[0];
      assert (a + b)[1..] == a[1..] + b;
      var next := if a[0].Control? then OnControl(s, a[0].frames) else OnNetwork(s, a[0].event);
      RunAppend(next, a[1..], b);
    }
  }

  /**
   * The loop reaches position i of a stream: no wakeup before it is an
   * interrupt, and the ones before it leave the actor running.
   */
  predicate Reaches(s: ActorState, inputs: seq<Wakeup>, i: int) {
    && 0 <= i <= |inputs|
    && Recognised(inputs[..i])
    && (forall k :: 0 <= k < i ==> !inputs[k].Interrupted?)
    && !Run(s, inputs[..i]).final.terminated
  }

  /** The peer of every network event the loop reaches has a directory entry at the end of the run. */
  lemma PeerRecorded(s: ActorState, inputs: seq<Wakeup>, i: int)
    requires Recognised(inputs)
    requires 0 <= i < |inputs| && inputs[i].Network? && Reaches(s, inputs, i)
    ensures inputs[i].event.peer in Run(s, inputs).final.names
  {
    var a, b := inputs[..i], inputs[i..];
    RecognisedSlice(inputs, i, |inputs|);
    RunAppend(s, a, b);
    assert a + b == inputs;
    var t := Run(s, a).final;
    RecognisedTail(b);
    assert b[1..] == inputs[i + 1..];
    DirectoryNeverShrinks(OnNetwork(t, inputs[i].event), b[1..]);
  }

  /**
   * A shout from a peer P1 named Alice to group G1 is not printed while
   * nothing is watched, is printed once G1 is watched, and is not printed
   * once the watch moves to peer P2; the directory records Alice.
   */
  lemma Scenario()
    ensures
      var hi := Network(Event(SHOUT, "P1", "Alice", "G1", "hi"));
      var inputs := [hi, Control([PRINT_GROUP_TAG, "G1"]), hi, Control([PRINT_NODE_TAG, "P2"]), hi];
      && Recognised(inputs)
      && Run(Start(map[]), inputs).printed == ["hi"]
      && Run(Start(map[]), inputs).final.names == map["P1" := "Alice"]
  {
    var hi := Network(Event(SHOUT, "P1", "Alice", "G1", "hi"));
    var inputs := [hi, Control([PRINT_GROUP_TAG, "G1"]), hi, Control([PRINT_NODE_TAG, "P2"]), hi];
    var s0 := Start(map[]);
    var s1 := OnNetwork(s0, hi.event);
    var s2 := OnControl(s1, [PRINT_GROUP_TAG, "G1"]);
    var s3 := OnNetwork(s2, hi.event);
    var s4 := OnControl(s3, [PRINT_NODE_TAG, "P2"]);
    var s5 := OnNetwork(s4, hi.event);
    assert Run(s5, inputs[5..]) == Outcome(s5, []);
    assert inputs[4..][1..] == inputs[5..];
    assert Run(s4, inputs[4..]) == Outcome(s5, []);
    assert inputs[3..][1..] == inputs[4..];
    assert Run(s3, inputs[3..]) == Outcome(s5, []);
    assert inputs[2..][1..] == inputs[3..];
    assert Run(s2, inputs[2..]) == Outcome(s5, ["hi"]);
    assert inputs[1..][1..] == inputs[2..];
    assert Run(s1, inputs[1..]) == Outcome(s5, ["hi"]);
    assert Run(s0, inputs) == Outcome(s5, ["hi"]);
    assert s5.names == map["P1" := "Alice"];
  }
}
