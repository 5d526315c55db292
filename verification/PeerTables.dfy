/**
 * The peer tables of the server and the messages of its peer handler (btcd/server.go).  One
 * goroutine owns the tables, so a run is a sequence of messages handled one after the other.
 */
module PeerTables {
  import opened Options
  import opened Iteration

  type Id = nat
  type Group = nat
  type Host = nat
  type Time = int

  /** What a peer is, fixed when it connects; group is the group key of its address. */
  datatype Peer = Peer(id: Id, inbound: bool, persistent: bool, group: Group, host: Host)

  datatype Tables = Tables(inbound: map<Id, Peer>, outbound: map<Id, Peer>, persistent: map<Id, Peer>,
                           groups: map<Group, int>, banned: map<Host, Time>)

  /** A Go map of counters reads as zero where it has no entry. */
  function GroupCount(groups: map<Group, int>, g: Group): int {
    if g in groups then groups[g] else 0
  }

  function Bump(groups: map<Group, int>, g: Group, delta: int): map<Group, int> {
    groups[g := GroupCount(groups, g) + delta]
  }

  function Count(s: Tables): nat {
    |s.inbound| + |s.outbound| + |s.persistent|
  }

  ghost predicate InTables(s: Tables, id: Id) {
    id in s.inbound || id in s.outbound || id in s.persistent
  }

  // ---------------------------------------------------------------- messages

  /** willing: the user agent is wanted, the server is not shutting down and the address splits. */
  datatype Msg =
    | Add(peer: Peer, connected: bool, willing: bool, now: Time)
    | Done(peer: Peer, versionKnown: bool)
    | Ban(peer: Peer, until: Time)
    | Remove(matching: set<Id>)
    | Disconnect(matching: set<Id>)

  predicate BannedAt(s: Tables, host: Host, now: Time) {
    host in s.banned && now < s.banned[host]
  }

  function LiftBan(s: Tables, host: Host): Tables {
    s.(banned := s.banned - {host})
  }

  function Enlist(s: Tables, p: Peer): Tables {
    if p.inbound then s.(inbound := s.inbound[p.id := p])
    else if p.persistent then s.(persistent := s.persistent[p.id := p], groups := Bump(s.groups, p.group, 1))
    else s.(outbound := s.outbound[p.id := p], groups := Bump(s.groups, p.group, 1))
  }

  /** handleAddPeerMsg */
  function AfterAdd(s: Tables, p: Peer, connected: bool, willing: bool, now: Time, maxPeers: nat): Tables {
    if !connected || !willing || BannedAt(s, p.host, now) then s
    else
      var s' := LiftBan(s, p.host);
      if Count(s') >= maxPeers then s' else Enlist(s', p)
  }

  /** handleDonePeerMsg */
  function AfterDone(s: Tables, p: Peer, versionKnown: bool): Tables {
    var groups := if !p.inbound && versionKnown then Bump(s.groups, p.group, -1) else s.groups;
    if p.persistent then
      if p.id in s.persistent then s.(persistent := s.persistent - {p.id}, groups := groups) else s
    else if p.inbound then
      if p.id in s.inbound then s.(inbound := s.inbound - {p.id}, groups := groups) else s
    else
      if p.id in s.outbound then s.(outbound := s.outbound - {p.id}, groups := groups) else s
  }

  function DropPersistent(s: Tables, id: Id): Tables
    requires id in s.persistent
  {
    s.(persistent := s.persistent - {id}, groups := Bump(s.groups, s.persistent[id].group, -1))
  }

  function DropOutbound(s: Tables, id: Id): Tables
    requires id in s.outbound
  {
    s.(outbound := s.outbound - {id}, groups := Bump(s.groups, s.outbound[id].group, -1))
  }

  /** A sequence of outbound peers dropped one by one. */
  ghost predicate DropsAll(s: Tables, ids: seq<Id>, s': Tables)
    decreases |ids|
  {
    if ids == [] then s' == s
    else ids[0] in s.outbound && DropsAll(DropOutbound(s, ids[0]), ids[1..], s')
  }

  /** One message handled; which of several matching peers goes first is left open, as in a map range. */
  ghost predicate Next(s: Tables, msg: Msg, s': Tables, maxPeers: nat) {
    match msg
    case Add(p, connected, willing, now) => s' == AfterAdd(s, p, connected, willing, now, maxPeers)
    case Done(p, versionKnown) => s' == AfterDone(s, p, versionKnown)
    case Ban(p, until) => s' == s.(banned := s.banned[p.host := until])
    case Remove(matching) =>
      if s.persistent.Keys !! matching then s' == s
      else exists id :: id in matching && id in s.persistent && s' == DropPersistent(s, id)
    case Disconnect(matching) =>
      if !(s.inbound.Keys !! matching) then
        exists id :: id in matching && id in s.inbound && s' == s.(inbound := s.inbound - {id})
      else
        && (exists ids: seq<Id> :: (forall i :: 0 <= i < |ids| ==> ids[i] in matching) && DropsAll(s, ids, s'))
        && s'.outbound.Keys !! matching
  }

  // ---------------------------------------------------------------- the invariant

  ghost function Members(m: map<Id, Peer>, g: Group): set<Id> {
    set id | id in m && m[id].group == g
  }

  ghost predicate Filed(s: Tables) {
    && (forall id :: id in s.inbound ==> s.inbound[id].id == id && s.inbound[id].inbound)
    && (forall id :: id in s.outbound ==>
          s.outbound[id].id == id && !s.outbound[id].inbound && !s.outbound[id].persistent)
    && (forall id :: id in s.persistent ==>
          s.persistent[id].id == id && !s.persistent[id].inbound && s.persistent[id].persistent)
  }

  ghost predicate GroupsOk(s: Tables) {
    forall g: Group :: GroupCount(s.groups, g) == |Members(s.outbound, g)| + |Members(s.persistent, g)|
  }

  /** known: the peers heard of; added and done: the ids whose add or done message has been handled. */
  datatype History = History(known: map<Id, Peer>, added: set<Id>, done: set<Id>)

  ghost predicate Inv(s: Tables, h: History, maxPeers: nat) {
    Filed(s) && GroupsOk(s) && Count(s) <= maxPeers && Recorded(s, h)
  }

  ghost predicate Recorded(s: Tables, h: History) {
    && (forall id :: InTables(s, id) ==> id in h.added && id !in h.done)
    && (forall id :: id in s.inbound ==> id in h.known && s.inbound[id] == h.known[id])
    && (forall id :: id in s.outbound ==> id in h.known && s.outbound[id] == h.known[id])
    && (forall id :: id in s.persistent ==> id in h.known && s.persistent[id] == h.known[id])
  }

  /**
   * What the rest of the server guarantees: ids are unique, inbound peers are not persistent, a peer is
   * added once, its version is known by then, and it is done only after it disconnected for good.
   */
  ghost predicate Fair(h: History, msg: Msg) {
    match msg
    case Add(p, connected, _, _) => Consistent(h, p) && p.id !in h.added && (p.id in h.done ==> !connected)
    case Done(p, versionKnown) => Consistent(h, p) && (p.id in h.added ==> versionKnown)
    case Ban(p, _) => Consistent(h, p)
    case Remove(_) => true
    case Disconnect(_) => true
  }

  ghost predicate Consistent(h: History, p: Peer) {
    (p.id in h.known ==> h.known[p.id] == p) && (p.inbound ==> !p.persistent)
  }

  ghost function Remember(h: History, msg: Msg): History {
    match msg
    case Add(p, _, _, _) => h.(known := h.known[p.id := p], added := h.added + {p.id})
    case Done(p, _) => h.(known := h.known[p.id := p], done := h.done + {p.id})
    case Ban(p, _) => h.(known := h.known[p.id := p])
    case Remove(_) => h
    case Disconnect(_) => h
  }

  lemma MembersAdd(m: map<Id, Peer>, p: Peer, g: Group)
    requires p.id !in m
    ensures |Members(m[p.id := p], g)| == |Members(m, g)| + if g == p.group then 1 else 0
  {
    assert p.id !in Members(m, g);
    assert Members(m[p.id := p], g) == if g == p.group then Members(m, g) + {p.id} else Members(m, g);
  }

  lemma MembersDrop(m: map<Id, Peer>, id: Id, g: Group)
    requires id in m
    ensures |Members(m - {id}, g)| == |Members(m, g)| - if g == m[id].group then 1 else 0
  {
    assert Members(m - {id}, g) == Members(m, g) - {id};
    assert id in Members(m, g) <==> g == m[id].group;
  }

  lemma SizeAdd(m: map<Id, Peer>, p: Peer)
    requires p.id !in m
    ensures |m[p.id := p]| == |m| + 1
  {
    assert m[p.id := p].Keys == m.Keys + {p.id};
  }

  lemma SizeDrop(m: map<Id, Peer>, id: Id)
    requires id in m
    ensures |m - {id}| == |m| - 1
  {
    assert (m - {id}).Keys == m.Keys - {id};
  }

  /** Remembering a peer changes nothing for the tables. */
  lemma RememberKeeps(s: Tables, h: History, h': History, maxPeers: nat)
    requires Inv(s, h, maxPeers)
    requires forall id :: id in h.known ==> id in h'.known && h'.known[id] == h.known[id]
    requires h.added <= h'.added && forall id :: id in h'.done ==> !InTables(s, id)
    ensures Inv(s, h', maxPeers)
  {
  }

  lemma EnlistInbound(s: Tables, h: History, p: Peer, maxPeers: nat)
    requires Inv(s, h, maxPeers) && p.inbound && Count(s) < maxPeers
    requires p.id in h.known && h.known[p.id] == p && p.id in h.added && p.id !in h.done && !InTables(s, p.id)
    ensures Inv(Enlist(s, p), h, maxPeers)
  {
    SizeAdd(s.inbound, p);
  }

  lemma EnlistOutbound(s: Tables, h: History, p: Peer, maxPeers: nat)
    requires Inv(s, h, maxPeers) && !p.inbound && !p.persistent && Count(s) < maxPeers
    requires p.id in h.known && h.known[p.id] == p && p.id in h.added && p.id !in h.done && !InTables(s, p.id)
    ensures Inv(Enlist(s, p), h, maxPeers)
  {
    var s' := Enlist(s, p);
    SizeAdd(s.outbound, p);
    forall g: Group
      ensures GroupCount(s'.groups, g) == |Members(s'.outbound, g)| + |Members(s'.persistent, g)|
    {
      MembersAdd(s.outbound, p, g);
    }
  }

  lemma EnlistPersistent(s: Tables, h: History, p: Peer, maxPeers: nat)
    requires Inv(s, h, maxPeers) && !p.inbound && p.persistent && Count(s) < maxPeers
    requires p.id in h.known && h.known[p.id] == p && p.id in h.added && p.id !in h.done && !InTables(s, p.id)
    ensures Inv(Enlist(s, p), h, maxPeers)
  {
    var s' := Enlist(s, p);
    SizeAdd(s.persistent, p);
    forall g: Group
      ensures GroupCount(s'.groups, g) == |Members(s'.outbound, g)| + |Members(s'.persistent, g)|
    {
      MembersAdd(s.persistent, p, g);
    }
  }

  lemma AddKeeps(s: Tables, h: History, p: Peer, connected: bool, willing: bool, now: Time, maxPeers: nat)
    requires Inv(s, h, maxPeers) && Fair(h, Add(p, connected, willing, now))
    ensures Inv(AfterAdd(s, p, connected, willing, now, maxPeers), Remember(h, Add(p, connected, willing, now)),
                maxPeers)
  {
    var h' := Remember(h, Add(p, connected, willing, now));
    assert !InTables(s, p.id);
    RememberKeeps(s, h, h', maxPeers);
    if connected && willing && !BannedAt(s, p.host, now) {
      LiftBanKeeps(s, h', p.host, maxPeers);
      if Count(s) < maxPeers {
        EnlistKeeps(LiftBan(s, p.host), h', p, maxPeers);
      }
    }
  }

  lemma LiftBanKeeps(s: Tables, h: History, host: Host, maxPeers: nat)
    requires Inv(s, h, maxPeers)
    ensures Inv(LiftBan(s, host), h, maxPeers)
  {
    BansDoNotMatter(s, LiftBan(s, host).banned);
    BansAreNotRecorded(s, h, LiftBan(s, host).banned);
  }

  lemma BansDoNotMatter(s: Tables, banned: map<Host, Time>)
    ensures GroupsOk(s.(banned := banned)) <==> GroupsOk(s)
    ensures Filed(s.(banned := banned)) <==> Filed(s)
  {
  }

  lemma BansAreNotRecorded(s: Tables, h: History, banned: map<Host, Time>)
    requires Recorded(s, h)
    ensures Recorded(s.(banned := banned), h)
  {
    var s' := s.(banned := banned);
    assert forall id :: InTables(s', id) ==> InTables(s, id);
  }

  lemma EnlistKeeps(s: Tables, h: History, p: Peer, maxPeers: nat)
    requires Inv(s, h, maxPeers) && (p.inbound ==> !p.persistent) && Count(s) < maxPeers
    requires p.id in h.known && h.known[p.id] == p && p.id in h.added && p.id !in h.done && !InTables(s, p.id)
    ensures Inv(Enlist(s, p), h, maxPeers)
  {
    if p.inbound {
      EnlistInbound(s, h, p, maxPeers);
    } else if p.persistent {
      EnlistPersistent(s, h, p, maxPeers);
    } else {
      EnlistOutbound(s, h, p, maxPeers);
    }
  }

  lemma DropOutboundKeeps(s: Tables, h: History, id: Id, maxPeers: nat)
    requires Inv(s, h, maxPeers) && id in s.outbound
    ensures Inv(DropOutbound(s, id), h, maxPeers)
  {
    var s' := DropOutbound(s, id);
    SizeDrop(s.outbound, id);
    forall g: Group
      ensures GroupCount(s'.groups, g) == |Members(s'.outbound, g)| + |Members(s'.persistent, g)|
    {
      MembersDrop(s.outbound, id, g);
    }
  }

  lemma DropPersistentKeeps(s: Tables, h: History, id: Id, maxPeers: nat)
    requires Inv(s, h, maxPeers) && id in s.persistent
    ensures Inv(DropPersistent(s, id), h, maxPeers)
  {
    var s' := DropPersistent(s, id);
    SizeDrop(s.persistent, id);
    forall g: Group
      ensures GroupCount(s'.groups, g) == |Members(s'.outbound, g)| + |Members(s'.persistent, g)|
    {
      MembersDrop(s.persistent, id, g);
    }
  }

  lemma {:induction false} DropsAllKeeps(s: Tables, h: History, ids: seq<Id>, s': Tables, maxPeers: nat)
    requires Inv(s, h, maxPeers) && DropsAll(s, ids, s')
    ensures Inv(s', h, maxPeers)
    decreases |ids|
  {
    if ids != [] {
      DropOutboundKeeps(s, h, ids[0], maxPeers);
      DropsAllKeeps(DropOutbound(s, ids[0]), h, ids[1..], s', maxPeers);
    }
  }

  lemma DropInboundKeeps(s: Tables, h: History, id: Id, maxPeers: nat)
    requires Inv(s, h, maxPeers) && id in s.inbound
    ensures Inv(s.(inbound := s.inbound - {id}), h, maxPeers)
  {
    SizeDrop(s.inbound, id);
  }

  /** A done message takes its peer out of its table, with the group count if it was counted. */
  lemma DoneKeeps(s: Tables, h: History, p: Peer, versionKnown: bool, maxPeers: nat)
    requires Inv(s, h, maxPeers) && Fair(h, Done(p, versionKnown))
    ensures Inv(AfterDone(s, p, versionKnown), Remember(h, Done(p, versionKnown)), maxPeers)
  {
    var s' := AfterDone(s, p, versionKnown);
    var h' := Remember(h, Done(p, versionKnown));
    if p.id in s.inbound {
      assert InTables(s, p.id) && s.inbound[p.id] == p;
    }
    if p.id in s.outbound {
      assert InTables(s, p.id) && s.outbound[p.id] == p;
    }
    if p.id in s.persistent {
      assert InTables(s, p.id) && s.persistent[p.id] == p;
    }
    if p.persistent && p.id in s.persistent {
      DropPersistentKeeps(s, h, p.id, maxPeers);
    } else if p.inbound && p.id in s.inbound {
      DropInboundKeeps(s, h, p.id, maxPeers);
    } else if !p.inbound && !p.persistent && p.id in s.outbound {
      DropOutboundKeeps(s, h, p.id, maxPeers);
    }
    assert Inv(s', h, maxPeers);
    assert !InTables(s', p.id);
    RememberKeeps(s', h, h', maxPeers);
  }

  lemma NextKeeps(s: Tables, h: History, msg: Msg, s': Tables, maxPeers: nat)
    requires Inv(s, h, maxPeers) && Fair(h, msg) && Next(s, msg, s', maxPeers)
    ensures Inv(s', Remember(h, msg), maxPeers)
  {
    match msg
    case Add(p, connected, willing, now) => AddKeeps(s, h, p, connected, willing, now, maxPeers);
    case Done(p, versionKnown) => DoneKeeps(s, h, p, versionKnown, maxPeers);
    case Ban(p, until) => RememberKeeps(s', h, Remember(h, msg), maxPeers);
    case Remove(matching) =>
      if s' != s {
        var id :| id in matching && id in s.persistent && s' == DropPersistent(s, id);
        DropPersistentKeeps(s, h, id, maxPeers);
      }
    case Disconnect(matching) =>
      if !(s.inbound.Keys !! matching) {
        var id :| id in matching && id in s.inbound && s' == s.(inbound := s.inbound - {id});
        DropInboundKeeps(s, h, id, maxPeers);
      } else {
        var ids: seq<Id> :| (forall i :: 0 <= i < |ids| ==> ids[i] in matching) && DropsAll(s, ids, s');
        DropsAllKeeps(s, h, ids, s', maxPeers);
      }
  }

  // ---------------------------------------------------------------- runs

  const START := Tables(map[], map[], map[], map[], map[])
  const NO_HISTORY := History(map[], {}, {})

  ghost function HistoryOf(msgs: seq<Msg>): History {
    if msgs == [] then NO_HISTORY else Remember(HistoryOf(msgs[..|msgs| - 1]), msgs[|msgs| - 1])
  }

  ghost predicate IsRun(states: seq<Tables>, msgs: seq<Msg>, maxPeers: nat) {
    && |states| == |msgs| + 1 && states[0] == START
    && forall i :: 0 <= i < |msgs| ==>
         Fair(HistoryOf(msgs[..i]), msgs[i]) && Next(states[i], msgs[i], states[i + 1], maxPeers)
  }

  lemma {:induction false} RunKeepsInv(states: seq<Tables>, msgs: seq<Msg>, maxPeers: nat, n: nat)
    requires IsRun(states, msgs, maxPeers) && n < |states|
    ensures Inv(states[n], HistoryOf(msgs[..n]), maxPeers)
  {
    if n == 0 {
      forall g: Group
        ensures GroupCount(START.groups, g) == |Members(START.outbound, g)| + |Members(START.persistent, g)|
      {
        assert Members(map[], g) == {};
      }
    } else {
      RunKeepsInv(states, msgs, maxPeers, n - 1);
      assert msgs[..n][..n - 1] == msgs[..n - 1];
      NextKeeps(states[n - 1], HistoryOf(msgs[..n - 1]), msgs[n - 1], states[n], maxPeers);
    }
  }

  /** In every state of every run the group counts are those of the tables, and there are never too many peers. */
  lemma GroupCountsAgree(states: seq<Tables>, msgs: seq<Msg>, maxPeers: nat, n: nat, g: Group)
    requires IsRun(states, msgs, maxPeers) && n < |states|
    ensures GroupCount(states[n].groups, g) == |Members(states[n].outbound, g)| + |Members(states[n].persistent, g)|
    ensures Count(states[n]) <= maxPeers
  {
    RunKeepsInv(states, msgs, maxPeers, n);
  }

  /** Once its done message has been handled, before or after its add, a peer is in no table ever after. */
  lemma DoneForGood(states: seq<Tables>, msgs: seq<Msg>, maxPeers: nat, i: nat, n: nat)
    requires IsRun(states, msgs, maxPeers) && i < n < |states| && msgs[i].Done?
    ensures !InTables(states[n], msgs[i].peer.id)
  {
    RunKeepsInv(states, msgs, maxPeers, n);
    DoneRemembered(msgs[..n], i);
  }

  lemma {:induction false} DoneRemembered(msgs: seq<Msg>, i: nat)
    requires i < |msgs| && msgs[i].Done?
    ensures msgs[i].peer.id in HistoryOf(msgs).done
  {
    var n := |msgs| - 1;
    if i < n {
      assert msgs[..n][i] == msgs[i];
      DoneRemembered(msgs[..n], i);
    }
  }

  // ---------------------------------------------------------------- the handlers

  /** peerState */
  class PeerState {
    var inboundPeers: map<Id, Peer>
    var outboundPeers: map<Id, Peer>
    var persistentPeers: map<Id, Peer>
    var banned: map<Host, Time>
    var outboundGroups: map<Group, int>

    ghost function Abs(): Tables
      reads this
    {
      Tables(inboundPeers, outboundPeers, persistentPeers, outboundGroups, banned)
    }

    constructor ()
      ensures Abs() == START
    {
      inboundPeers, outboundPeers, persistentPeers, banned, outboundGroups := map[], map[], map[], map[], map[];
    }

    method Increment(g: Group, delta: int)
      modifies this`outboundGroups
      ensures outboundGroups == Bump(old(outboundGroups), g, delta)
    {
      outboundGroups := outboundGroups[g := (if g in outboundGroups then outboundGroups[g] else 0) + delta];
    }

    method HandleAddPeer(p: Peer, connected: bool, willing: bool, now: Time, maxPeers: nat) returns (added: bool)
      modifies this
      ensures Next(old(Abs()), Add(p, connected, willing, now), Abs(), maxPeers)
      ensures added <==>
              && connected && willing && old(|inboundPeers| + |outboundPeers| + |persistentPeers|) < maxPeers
              && (p.host in old(banned) ==> old(banned)[p.host] <= now)
      ensures added ==>
                if p.inbound then p.id in inboundPeers
                else if p.persistent then p.id in persistentPeers
                else p.id in outboundPeers
    {
      if !connected {
        return false;
      }
      if !willing {
        return false;
      }
      if p.host in banned {
        if now < banned[p.host] {
          return false;
        }
        banned := banned - {p.host};
      }
      assert banned == old(banned) - {p.host};
      if |inboundPeers| + |outboundPeers| + |persistentPeers| >= maxPeers {
        return false;
      }
      if p.inbound {
        inboundPeers := inboundPeers[p.id := p];
      } else {
        Increment(p.group, 1);
        if p.persistent {
          persistentPeers := persistentPeers[p.id := p];
        } else {
          outboundPeers := outboundPeers[p.id := p];
        }
      }
      return true;
    }

    method HandleDonePeer(p: Peer, versionKnown: bool)
      modifies this
      ensures Next(old(Abs()), Done(p, versionKnown), Abs(), 0)
    {
      var listed := if p.persistent then p.id in persistentPeers
                    else if p.inbound then p.id in inboundPeers
                    else p.id in outboundPeers;
      if listed {
        if !p.inbound && versionKnown {
          Increment(p.group, -1);
        }
        if p.persistent {
          persistentPeers := persistentPeers - {p.id};
        } else if p.inbound {
          inboundPeers := inboundPeers - {p.id};
        } else {
          outboundPeers := outboundPeers - {p.id};
        }
      }
    }

    method HandleBanPeer(p: Peer, until: Time)
      modifies this`banned
      ensures Next(old(Abs()), Ban(p, until), Abs(), 0)
    {
      banned := banned[p.host := until];
    }

    /** handleQuery, removeNodeMsg */
    method HandleRemove(matching: set<Id>) returns (found: bool)
      modifies this
      ensures found <==> !(old(persistentPeers).Keys !! matching)
      ensures Next(old(Abs()), Remove(matching), Abs(), 0)
    {
      var hit := FindPeer(persistentPeers, matching);
      if hit.None? {
        return false;
      }
      var id := hit.value;
      assert !(persistentPeers.Keys !! matching);
      Increment(persistentPeers[id].group, -1);
      persistentPeers := persistentPeers - {id};
      assert Abs() == DropPersistent(old(Abs()), id);
      return true;
    }

    /** handleQuery, disconnectNodeMsg: one inbound peer, or else every matching outbound peer. */
    method HandleDisconnect(matching: set<Id>) returns (found: bool)
      modifies this
      ensures found <==> !(old(inboundPeers).Keys !! matching) || !(old(outboundPeers).Keys !! matching)
      ensures Next(old(Abs()), Disconnect(matching), Abs(), 0)
    {
      var hit := FindPeer(inboundPeers, matching);
      if hit.Some? {
        assert !(inboundPeers.Keys !! matching);
        inboundPeers := inboundPeers - {hit.value};
        assert Abs() == old(Abs()).(inbound := old(Abs()).inbound - {hit.value});
        return true;
      }
      hit := FindPeer(outboundPeers, matching);
      found := hit.Some?;
      ghost var ids: seq<Id> := [];
      assert DropsAll(old(Abs()), ids, Abs());
      while hit.Some?
        invariant hit.Some? ==> hit.value in outboundPeers && hit.value in matching
        invariant hit.None? ==> outboundPeers.Keys !! matching
        invariant inboundPeers == old(inboundPeers)
        invariant forall i :: 0 <= i < |ids| ==> ids[i] in matching
        invariant DropsAll(old(Abs()), ids, Abs())
        decreases |outboundPeers|, if hit.Some? then 1 else 0
      {
        var id := hit.value;
        ghost var before := Abs();
        SizeDrop(outboundPeers, id);
        Increment(outboundPeers[id].group, -1);
        outboundPeers := outboundPeers - {id};
        DropsOneMore(old(Abs()), ids, before, id);
        ids := ids + [id];
        hit := FindPeer(outboundPeers, matching);
      }
    }
  }

  /** disconnectPeer up to the removal: some peer of the list that matches. */
  method FindPeer(list: map<Id, Peer>, matching: set<Id>) returns (r: Option<Id>)
    ensures r.None? <==> list.Keys !! matching
    ensures r.Some? ==> r.value in list && r.value in matching
  {
    var rest := list.Keys;
    while rest != {}
      invariant rest <= list.Keys
      invariant forall id :: id in list && id in matching ==> id in rest
      decreases |rest|
    {
      var id := Pick(rest);
      if id in matching {
        return Some(id);
      }
      rest := rest - {id};
    }
    return None;
  }

  lemma {:induction false} DropsOneMore(s: Tables, ids: seq<Id>, t: Tables, id: Id)
    requires DropsAll(s, ids, t) && id in t.outbound
    ensures DropsAll(s, ids + [id], DropOutbound(t, id))
    decreases |ids|
  {
    if ids == [] {
      assert ([id] + [])[1..] == [];
      assert ids + [id] == [id];
    } else {
      DropsOneMore(DropOutbound(s, ids[0]), ids[1..], t, id);
      assert (ids + [id])[1..] == ids[1..] + [id];
    }
  }
}
