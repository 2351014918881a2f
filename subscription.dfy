/**
 * The subscription side of watching: stopPrinting, printNodeShouts and
 * printGroupShouts join or leave groups on the local zyre node so that the
 * shouts to watch are delivered, and then send the actor the matching
 * control message.
 */
module Subscription {
  import opened Protocol
  import opened Overlay
  import Actor

  /** The local zyre node, seen through the groups it has itself joined. */
  class ZyreNode {
    var ownGroups: set<string>

    constructor ()
      ensures ownGroups == {}
    {
      ownGroups := {};
    }

    /** zyre_join: joining a group already joined changes nothing. */
    method Join(group: string)
      modifies this
      ensures ownGroups == old(ownGroups) + {group}
    {
      ownGroups := ownGroups + {group};
    }

    /** zyre_leave: leaving a group not joined changes nothing. */
    method Leave(group: string)
      modifies this
      ensures ownGroups == old(ownGroups) - {group}
    {
      ownGroups := ownGroups - {group};
    }
  }

  /** stopPrinting: leave every own group, then tell the actor to stop printing. */
  method StopPrinting(node: ZyreNode) returns (sent: Message)
    modifies node
    ensures node.ownGroups == {}
    ensures sent == Encode(StopWatch)
  {
    var groups := node.ownGroups;
    while groups != {}
      invariant node.ownGroups == groups
      decreases |groups|
    {
      var group :| group in groups;
      node.Leave(group);
      groups := groups - {group};
    }
    sent := Encode(StopWatch);
  }

  /**
   * printNodeShouts: join every group the peer is found in (none when the
   * lookup finds none), then tell the actor to watch the peer.
   */
  method PrintNodeShouts(node: ZyreNode, view: GroupView, uuid: string) returns (sent: Message)
    modifies node
    ensures node.ownGroups == old(node.ownGroups) + (set g | g in NodeGroups(view, uuid))
    ensures sent == Encode(WatchNode(uuid))
  {
    var peerGroups := GetNodeGroups(view, uuid);
    for i := 0 to |peerGroups|
      invariant node.ownGroups == old(node.ownGroups) + (set g | g in peerGroups[..i])
    {
      assert peerGroups[..i + 1] == peerGroups[..i] + [peerGroups[i]];
      node.Join(peerGroups[i]);
    }
    assert peerGroups[..|peerGroups|] == peerGroups;
    sent := Encode(WatchNode(uuid));
  }

  /** printGroupShouts: join exactly that group, then tell the actor to watch it. */
  method PrintGroupShouts(node: ZyreNode, name: string) returns (sent: Message)
    modifies node
    ensures node.ownGroups == old(node.ownGroups) + {name}
    ensures sent == Encode(WatchGroup(name))
  {
    node.Join(name);
    sent := Encode(WatchGroup(name));
  }

  /**
   * Once the actor has handled what printNodeShouts sent, every later shout
   * from that peer is printed, to whichever group it goes; and the groups
   * joined (those the lookup finds) are exactly the reported groups whose
   * peer list holds the peer, so a shout to any group it belongs to is
   * delivered at all.
   */
  lemma WatchedPeerIsPrinted(s: Actor.ActorState, view: GroupView, uuid: string, e: Actor.Event)
    requires e.kind == Actor.SHOUT && e.peer == uuid
    ensures Actor.Prints(Actor.OnControl(s, Encode(WatchNode(uuid))), e)
    ensures e.group in NodeGroups(view, uuid) <==>
              view.Some? && exists i :: 0 <= i < |view.value| && view.value[i].name == e.group && Lists(view.value[i], uuid)
  {
    if view.Some? {
      GroupsOfMembership(view.value, uuid, e.group);
    }
  }

  /** Once the actor has handled what printGroupShouts sent, every shout to the group is printed. */
  lemma WatchedGroupIsPrinted(s: Actor.ActorState, name: string, e: Actor.Event)
    requires e.kind == Actor.SHOUT && e.group == name
    ensures Actor.Prints(Actor.OnControl(s, Encode(WatchGroup(name))), e)
  {
  }
}
