/**
 * The command loop of main: each tokenised input line is dispatched to one
 * action; the watch commands run their subscription side effects and send a
 * control message to the actor, and leaving the loop sends $TERM.
 */
module Commands {
  import opened Optional
  import opened Protocol
  import opened Overlay
  import opened Subscription

  /** What one input line asks for. */
  datatype Action =
    | Skip                      // an empty line
    | Exit
    | Help
    | Stop
    | NodeList
    | NodeInfo(uuid: string)
    | NodeListen(uuid: string)
    | GroupList
    | GroupInfo(name: string)
    | GroupListen(name: string)
    | Error                     // a node or group command missing a token
    | NoOp                      // an unknown command or sub-command

  predicate IsExitWord(t: string) {
    t == "exit" || t == "quit" || t == "q"
  }

  /** The first tokens main tests for. */
  predicate IsKnownCommand(t: string) {
    IsExitWord(t) || t == "help" || t == "stop" || t == "node" || t == "group"
  }

  /** The second tokens main tests for after node or group. */
  predicate IsKnownSubcommand(t: string) {
    t == "list" || t == "info" || t == "listen"
  }

  /** The actions that carry an argument token. */
  predicate HasArgument(a: Action) {
    a.NodeInfo? || a.NodeListen? || a.GroupInfo? || a.GroupListen?
  }

  function ArgumentOf(a: Action): string
    requires HasArgument(a)
  {
    match a
    case NodeInfo(u) => u
    case NodeListen(u) => u
    case GroupInfo(n) => n
    case GroupListen(n) => n
  }

  /**
   * The chain of tests in main's loop. Missing tokens are caught exactly
   * where main counts them; an unknown command or sub-command does nothing;
   * tokens after the ones main reads are ignored.
   */
  function Dispatch(cmd: seq<string>): (a: Action)
    ensures a == Skip <==> cmd == []
    ensures a == Exit <==> cmd != [] && IsExitWord(cmd[0])
    ensures a == Error <==>
              && cmd != [] && (cmd[0] == "node" || cmd[0] == "group")
              && (|cmd| < 2 || ((cmd[1] == "info" || cmd[1] == "listen") && |cmd| < 3))
    ensures a == NoOp <==>
              || (cmd != [] && !IsKnownCommand(cmd[0]))
              || (|cmd| >= 2 && (cmd[0] == "node" || cmd[0] == "group") && !IsKnownSubcommand(cmd[1]))
    ensures HasArgument(a) ==> |cmd| >= 3 && ArgumentOf(a) == cmd[2]
  {
    if cmd == [] then Skip
    else if IsExitWord(cmd[0]) then Exit
    else if cmd[0] == "help" then Help
    else if cmd[0] == "stop" then Stop
    else if cmd[0] == "node" then
      if |cmd| < 2 then Error
      else if cmd[1] == "list" then NodeList
      else if cmd[1] == "info" then (if |cmd| < 3 then Error else NodeInfo(cmd[2]))
      else if cmd[1] == "listen" then (if |cmd| < 3 then Error else NodeListen(cmd[2]))
      else NoOp
    else if cmd[0] == "group" then
      if |cmd| < 2 then Error
      else if cmd[1] == "list" then GroupList
      else if cmd[1] == "info" then (if |cmd| < 3 then Error else GroupInfo(cmd[2]))
      else if cmd[1] == "listen" then (if |cmd| < 3 then Error else GroupListen(cmd[2]))
      else NoOp
    else NoOp
  }

  /** The actions some command line asks for on purpose. */
  predicate IsCommand(a: Action) {
    !a.Skip? && !a.Error? && !a.NoOp?
  }

  /**
   * The command line that asks for an action, in the syntax help() prints
   * (which leaves out stop, and quit and q beside exit).
   */
  function Usage(a: Action): seq<string>
    requires IsCommand(a)
  {
    match a
    case Exit => ["exit"]
    case Help => ["help"]
    case Stop => ["stop"]
    case NodeList => ["node", "list"]
    case NodeInfo(u) => ["node", "info", u]
    case NodeListen(u) => ["node", "listen", u]
    case GroupList => ["group", "list"]
    case GroupInfo(n) => ["group", "info", n]
    case GroupListen(n) => ["group", "listen", n]
  }

  /** Every documented command line dispatches to the action it documents. */
  lemma DispatchUsage(a: Action)
    requires IsCommand(a)
    ensures Dispatch(Usage(a)) == a
  {
  }

  /** Trailing tokens never change what a well-formed line dispatches to. */
  lemma DispatchIgnoresTrailing(cmd: seq<string>, extra: seq<string>)
    requires IsCommand(Dispatch(cmd)) || Dispatch(cmd) == NoOp
    ensures Dispatch(cmd + extra) == Dispatch(cmd)
  {
    assert cmd != [];
    assert (cmd + extra)[0] == cmd[0];
    if |cmd| >= 2 {
      assert (cmd + extra)[1] == cmd[1];
    }
    if |cmd| >= 3 {
      assert (cmd + extra)[2] == cmd[2];
    }
  }

  /** The control message, if any, that carrying out an action sends the actor. */
  function MessageFor(a: Action): (m: Option<Message>)
    ensures m.Some? <==> a.Stop? || a.NodeListen? || a.GroupListen?
    ensures m.Some? ==> IsControlCommand(m.value) && m.value[0] != TERM_TAG
  {
    match a
    case Stop => Some(Encode(StopWatch))
    case NodeListen(u) => Some(Encode(WatchNode(u)))
    case GroupListen(n) => Some(Encode(WatchGroup(n)))
    case _ => None
  }

  /** The own groups of the node after an action has been carried out. */
  function OwnGroupsAfter(own: set<string>, view: GroupView, a: Action): (r: set<string>)
    ensures a.Stop? ==> r == {}
    ensures !a.Stop? ==> own <= r
    ensures !a.NodeListen? && !a.GroupListen? && !a.Stop? ==> r == own
  {
    match a
    case Stop => {}
    case NodeListen(u) => own + (set g | g in NodeGroups(view, u))
    case GroupListen(n) => own + {n}
    case _ => own
  }

  /**
   * The body of main's loop for a line that does not exit: carry out its
   * action against the node and report the message sent to the actor.
   * Listing and info commands only print and change nothing.
   */
  method Execute(node: ZyreNode, view: GroupView, a: Action) returns (sent: Option<Message>)
    requires !a.Exit?
    modifies node
    ensures sent == MessageFor(a)
    ensures node.ownGroups == OwnGroupsAfter(old(node.ownGroups), view, a)
  {
    match a
    case Stop =>
      var m := StopPrinting(node);
      sent := Some(m);
    case NodeListen(u) =>
      var m := PrintNodeShouts(node, view, u);
      sent := Some(m);
    case GroupListen(n) =>
      var m := PrintGroupShouts(node, n);
      sent := Some(m);
    case _ =>
      sent := None;
  }

  /** The messages main sends the actor for a sequence of lines, up to the first exit. */
  function Outbox(lines: seq<seq<string>>): (r: seq<Message>)
    ensures forall k :: 0 <= k < |r| ==> IsControlCommand(r[k]) && r[k][0] != TERM_TAG
    decreases |lines|
  {
    if lines == [] || Dispatch(lines[0]).Exit? then []
    else
      var m := MessageFor(Dispatch(lines[0]));
      (if m.Some? then [m.value] else []) + Outbox(lines[1..])
  }

  /** The own groups of the node after a sequence of lines, up to the first exit. */
  function OwnGroupsAfterAll(own: set<string>, lines: seq<seq<string>>, views: seq<GroupView>): set<string>
    requires |views| == |lines|
    decreases |lines|
  {
    if lines == [] || Dispatch(lines[0]).Exit? then own
    else OwnGroupsAfterAll(OwnGroupsAfter(own, views[0], Dispatch(lines[0])), lines[1..], views[1..])
  }

  lemma OutboxStep(lines: seq<seq<string>>)
    requires lines != [] && !Dispatch(lines[0]).Exit?
    ensures var m := MessageFor(Dispatch(lines[0]));
            Outbox(lines) == (if m.Some? then [m.value] else []) + Outbox(lines[1..])
  {
  }

  lemma OwnGroupsStep(own: set<string>, lines: seq<seq<string>>, views: seq<GroupView>)
    requires |views| == |lines| && lines != [] && !Dispatch(lines[0]).Exit?
    ensures OwnGroupsAfterAll(own, lines, views)
            == OwnGroupsAfterAll(OwnGroupsAfter(own, views[0], Dispatch(lines[0])), lines[1..], views[1..])
  {
  }

  /**
   * main's loop over the operator's lines, each executed against the group
   * list the overlay reports at that moment. The loop ends at exit or when
   * the lines run out (an interrupt); $TERM is sent last.
   */
  method CommandLoop(node: ZyreNode, lines: seq<seq<string>>, views: seq<GroupView>)
    returns (sent: seq<Message>)
    requires |views| == |lines|
    modifies node
    ensures sent == Outbox(lines) + [Encode(Terminate)]
    ensures node.ownGroups == OwnGroupsAfterAll(old(node.ownGroups), lines, views)
  {
    sent := [];
    var i := 0;
    while i < |lines|
      invariant 0 <= i <= |lines|
      invariant Outbox(lines) == sent + Outbox(lines[i..])
      invariant OwnGroupsAfterAll(old(node.ownGroups), lines, views)
                == OwnGroupsAfterAll(node.ownGroups, lines[i..], views[i..])
    {
      var cmd := lines[i];
      var a := Dispatch(cmd);
      if a.Exit? {
        break;
      }
      ghost var ownBefore := node.ownGroups;
      OutboxStep(lines[i..]);
      OwnGroupsStep(ownBefore, lines[i..], views[i..]);
      assert lines[i..][1..] == lines[i + 1..] && views[i..][1..] == views[i + 1..];
      var m := Execute(node, views[i], a);
      if m.Some? {
        sent := sent + [m.value];
      }
      i := i + 1;
    }
    sent := sent + [Encode(Terminate)];
  }

  /**
   * Every message main sends is one the actor recognises, and only the last
   * one terminates it.
   */
  lemma {:induction false} SessionRecognised(lines: seq<seq<string>>)
    ensures forall k :: 0 <= k < |Outbox(lines) + [Encode(Terminate)]| ==>
              IsControlCommand((Outbox(lines) + [Encode(Terminate)])[k])
    ensures forall k :: 0 <= k < |Outbox(lines)| ==> (Outbox(lines) + [Encode(Terminate)])[k][0] != TERM_TAG
  {
    var all := Outbox(lines) + [Encode(Terminate)];
    forall k | 0 <= k < |all| ensures IsControlCommand(all[k]) {
      if k < |Outbox(lines)| {
        assert all[k] == Outbox(lines)[k];
      }
    }
  }
}
