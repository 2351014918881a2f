/**
 * What the tool reads from the overlay about groups: getNodeGroups, which
 * scans every group the peers have joined for a given uuid, and the lookup
 * behind printNodeInfo.
 */
module Overlay {
  import opened Optional

  /**
   * One group as the overlay reports it: its name and its peer list, which
   * zyre_peers_by_group may return as NULL.
   */
  datatype GroupEntry = GroupEntry(name: string, peers: Option<seq<string>>)

  /**
   * What zyre_peer_groups reports: the groups in iteration order, or NULL.
   */
  type GroupView = Option<seq<GroupEntry>>

  /** The group names pushed while scanning one peer list: one per occurrence of uuid. */
  function Hits(name: string, peers: seq<string>, uuid: string): seq<string>
    decreases |peers|
  {
    if peers == [] then []
    else Hits(name, peers[..|peers| - 1], uuid) + (if peers[|peers| - 1] == uuid then [name] else [])
  }

  /** The group names one group contributes; a NULL peer list contributes none. */
  function EntryHits(g: GroupEntry, uuid: string): seq<string> {
    match g.peers
    case None => []
    case Some(peers) => Hits(g.name, peers, uuid)
  }

  /** The result of scanning the groups in order. */
  function GroupsOf(groups: seq<GroupEntry>, uuid: string): seq<string>
    decreases |groups|
  {
    if groups == [] then []
    else GroupsOf(groups[..|groups| - 1], uuid) + EntryHits(groups[|groups| - 1], uuid)
  }

  /** The result of getNodeGroups: nothing when the group list is NULL. */
  function NodeGroups(view: GroupView, uuid: string): seq<string> {
    match view
    case None => []
    case Some(groups) => GroupsOf(groups, uuid)
  }

  /** getNodeGroups: the names of the groups whose peer list holds uuid. */
  method GetNodeGroups(view: GroupView, uuid: string) returns (peerGroups: seq<string>)
    ensures peerGroups == NodeGroups(view, uuid)
    ensures view.None? ==> peerGroups == []
  {
    peerGroups := [];
    if view.None? {
      return;
    }
    var groups := view.value;
    var i := 0;
    while i < |groups|
      invariant 0 <= i <= |groups|
      invariant peerGroups == GroupsOf(groups[..i], uuid)
    {
      var group := groups[i];
      assert groups[..i + 1][..i] == groups[..i];
      if group.peers.None? {
        i := i + 1;
        continue;
      }
      var peers := group.peers.value;
      var j := 0;
      while j < |peers|
        invariant 0 <= j <= |peers|
        invariant peerGroups == GroupsOf(groups[..i], uuid) + Hits(group.name, peers[..j], uuid)
      {
        assert peers[..j + 1][..j] == peers[..j];
        if peers[j] == uuid {
          peerGroups := peerGroups + [group.name];
        }
        j := j + 1;
      }
      assert peers[..j] == peers;
      i := i + 1;
    }
    assert groups[..i] == groups;
  }

  /** The peer list of a group is reported and holds uuid. */
  predicate Lists(g: GroupEntry, uuid: string) {
    g.peers.Some? && uuid in g.peers.value
  }

  /** No string occurs twice. */
  predicate Distinct(s: seq<string>) {
    forall i, j :: 0 <= i < j < |s| ==> s[i] != s[j]
  }

  /** No two groups share a name. */
  predicate NamesDistinct(groups: seq<GroupEntry>) {
    forall i, j :: 0 <= i < j < |groups| ==> groups[i].name != groups[j].name
  }

  /** Every reported peer list is free of repeats. */
  predicate PeerListsDistinct(groups: seq<GroupEntry>) {
    forall i :: 0 <= i < |groups| && groups[i].peers.Some? ==> Distinct(groups[i].peers.value)
  }

  lemma {:induction false} HitsMembership(name: string, peers: seq<string>, uuid: string, x: string)
    ensures x in Hits(name, peers, uuid) <==> x == name && uuid in peers
    decreases |peers|
  {
    if peers != [] {
      var init := peers[..|peers| - 1];
      HitsMembership(name, init, uuid, x);
      assert peers == init + [peers[|peers| - 1]];
    }
  }

  /** Over a peer list without repeats, a group is pushed once if it lists uuid, else never. */
  lemma {:induction false} HitsOnce(name: string, peers: seq<string>, uuid: string)
    requires Distinct(peers)
    ensures Hits(name, peers, uuid) == if uuid in peers then [name] else []
    decreases |peers|
  {
    if peers != [] {
      var init := peers[..|peers| - 1];
      assert Distinct(init);
      HitsOnce(name, init, uuid);
      assert peers == init + [peers[|peers| - 1]];
      if peers[|peers| - 1] == uuid {
        assert uuid !in init;
      }
    }
  }

  /**
   * A name is in the result exactly when some group of that name reports a
   * peer list holding uuid.
   */
  lemma {:induction false} GroupsOfMembership(groups: seq<GroupEntry>, uuid: string, g: string)
    ensures g in GroupsOf(groups, uuid) <==>
              exists i :: 0 <= i < |groups| && groups[i].name == g && Lists(groups[i], uuid)
    decreases |groups|
  {
    if groups != [] {
      var n := |groups| - 1;
      var init, last := groups[..n], groups[n];
      GroupsOfMembership(init, uuid, g);
      if last.peers.Some? {
        HitsMembership(last.name, last.peers.value, uuid, g);
      }
      if g in GroupsOf(groups, uuid) {
        if g in GroupsOf(init, uuid) {
          var i :| 0 <= i < |init| && init[i].name == g && Lists(init[i], uuid);
          assert groups[i] == init[i];
        } else {
          assert groups[n].name == g && Lists(groups[n], uuid);
        }
      }
      if exists i :: 0 <= i < |groups| && groups[i].name == g && Lists(groups[i], uuid) {
        var i :| 0 <= i < |groups| && groups[i].name == g && Lists(groups[i], uuid);
        if i < n {
          assert init[i] == groups[i];
        }
      }
    }
  }

  /**
   * When group names are unique and each peer list is free of repeats, no
   * group appears twice in the result.
   */
  lemma {:induction false} GroupsOfDistinct(groups: seq<GroupEntry>, uuid: string)
    requires NamesDistinct(groups) && PeerListsDistinct(groups)
    ensures Distinct(GroupsOf(groups, uuid))
    decreases |groups|
  {
    if groups != [] {
      var n := |groups| - 1;
      var init, last := groups[..n], groups[n];
      assert NamesDistinct(init) && PeerListsDistinct(init) by {
        forall i | 0 <= i < |init| ensures init[i] == groups[i] { }
      }
      GroupsOfDistinct(init, uuid);
      var hits := EntryHits(last, uuid);
      if last.peers.Some? {
        HitsOnce(last.name, last.peers.value, uuid);
      }
      if hits != [] {
        assert hits == [last.name];
        GroupsOfMembership(init, uuid, last.name);
      }
    }
  }

  /**
   * The groups listing uuid, in iteration order: an independent,
   * first-to-last statement of the scan.
   */
  function Listing(groups: seq<GroupEntry>, uuid: string): seq<string>
    decreases |groups|
  {
    if groups == [] then []
    else (if Lists(groups[0], uuid) then [groups[0].name] else []) + Listing(groups[1..], uuid)
  }

  lemma {:induction false} ListingAppend(a: seq<GroupEntry>, b: seq<GroupEntry>, uuid: string)
    ensures Listing(a + b, uuid) == Listing(a, uuid) + Listing(b, uuid)
    decreases |a|
  {
    if a != [] {
      assert (a + b)[1..] == a[1..] + b;
      ListingAppend(a[1..], b, uuid);
    } else {
      assert a + b == b;
    }
  }

  /**
   * With repeat-free peer lists, getNodeGroups returns exactly the groups
   * that list uuid, in the order the overlay reports them, each once.
   */
  lemma {:induction false} GroupsOfIsListing(groups: seq<GroupEntry>, uuid: string)
    requires PeerListsDistinct(groups)
    ensures GroupsOf(groups, uuid) == Listing(groups, uuid)
    decreases |groups|
  {
    if groups != [] {
      var n := |groups| - 1;
      var init, last := groups[..n], groups[n];
      assert PeerListsDistinct(init) by {
        forall i | 0 <= i < |init| ensures init[i] == groups[i] { }
      }
      GroupsOfIsListing(init, uuid);
      if last.peers.Some? {
        HitsOnce(last.name, last.peers.value, uuid);
      }
      assert groups == init + [last];
      ListingAppend(init, [last], uuid);
      assert Listing([last], uuid) == (if Lists(last, uuid) then [last.name] else []) + Listing([], uuid);
    }
  }

  /** A group whose peer list is NULL adds nothing to the result. */
  lemma NullPeerListSkipped(groups: seq<GroupEntry>, name: string, uuid: string)
    ensures GroupsOf(groups + [GroupEntry(name, None)], uuid) == GroupsOf(groups, uuid)
  {
    var all := groups + [GroupEntry(name, None)];
    assert all[..|all| - 1] == groups;
  }

  /** What printNodeInfo shows for a known peer. */
  datatype PeerInfo = PeerInfo(uuid: string, name: string, groups: seq<string>)

  /**
   * The lookup behind printNodeInfo: a peer without a directory entry is
   * reported as not existing; otherwise its name and its groups are shown.
   */
  function DescribePeer(names: map<string, string>, view: GroupView, uuid: string): (r: Option<PeerInfo>)
    ensures r.Some? <==> uuid in names
    ensures r.Some? ==> r.value.uuid == uuid && r.value.name == names[uuid]
    ensures r.Some? ==> r.value.groups == NodeGroups(view, uuid)
    ensures r.Some? ==> forall g :: g in r.value.groups ==> view.Some? && exists i :: 0 <= i < |view.value| && view.value[i].name == g && Lists(view.value[i], uuid)
  {
    if uuid in names then
      var groups := NodeGroups(view, uuid);
      assert forall g :: g in groups ==> view.Some? && exists i :: 0 <= i < |view.value| && view.value[i].name == g && Lists(view.value[i], uuid) by {
        forall g | g in groups
          ensures view.Some? && exists i :: 0 <= i < |view.value| && view.value[i].name == g && Lists(view.value[i], uuid)
        {
          GroupsOfMembership(view.value, uuid, g);
        }
      }
      Some(PeerInfo(uuid, names[uuid], groups))
    else None
  }
}
