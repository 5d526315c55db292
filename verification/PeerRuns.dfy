/**
 * Who is in the peer tables of the server over a run of messages, told from the messages alone
 * (btcd/server.go): when a ban is in force, who is admitted, and who leaves.
 */
module PeerRuns {
  import opened PeerTables

  // ---------------------------------------------------------------- bans

  /** The host was heard of again once its ban was over, by a peer that could have been added. */
  predicate Forgives(msg: Msg, host: Host, until: Time) {
    msg.Add? && msg.peer.host == host && msg.connected && msg.willing && until <= msg.now
  }

  predicate Bans(msg: Msg, host: Host) {
    msg.Ban? && msg.peer.host == host
  }

  /** Message i bans the host until then, and nothing that came after it changed that. */
  ghost predicate BanStands(msgs: seq<Msg>, host: Host, until: Time, i: nat) {
    && i < |msgs| && Bans(msgs[i], host) && msgs[i].until == until
    && forall j :: i < j < |msgs| ==> !Bans(msgs[j], host) && !Forgives(msgs[j], host, until)
  }

  ghost predicate Banned(msgs: seq<Msg>, host: Host, until: Time) {
    exists i: nat :: BanStands(msgs, host, until, i)
  }

  /** What one more message does to the standing ban of a host. */
  lemma BannedOneMore(msgs: seq<Msg>, m: Msg, host: Host, until: Time)
    ensures Banned(msgs + [m], host, until) <==>
            if Bans(m, host) then m.until == until
            else Banned(msgs, host, until) && !Forgives(m, host, until)
  {
    var n := |msgs|;
    var all := msgs + [m];
    if Banned(all, host, until) {
      var i: nat :| BanStands(all, host, until, i);
      if i < n {
        assert all[n] == m && all[i] == msgs[i];
        forall j | i < j < n
          ensures !Bans(msgs[j], host) && !Forgives(msgs[j], host, until)
        {
          assert all[j] == msgs[j];
        }
        assert BanStands(msgs, host, until, i);
      }
    }
    if Bans(m, host) && m.until == until {
      assert BanStands(all, host, until, n);
    }
    if Banned(msgs, host, until) && !Bans(m, host) && !Forgives(m, host, until) {
      var i: nat :| BanStands(msgs, host, until, i);
      assert BanStands(all, host, until, i);
    }
  }

  ghost predicate Record(s: Tables, host: Host, until: Time) {
    host in s.banned && s.banned[host] == until
  }

  lemma RecordAfter(s: Tables, m: Msg, s': Tables, maxPeers: nat, host: Host, until: Time)
    requires Next(s, m, s', maxPeers)
    ensures Record(s', host, until) <==>
            if Bans(m, host) then m.until == until
            else Record(s, host, until) && !Forgives(m, host, until)
  {
    if m.Add? {
      AddLiftsBan(s, m, maxPeers);
    } else {
      OthersKeepBans(s, m, s', maxPeers);
    }
  }

  lemma OthersKeepBans(s: Tables, m: Msg, s': Tables, maxPeers: nat)
    requires Next(s, m, s', maxPeers) && !m.Add?
    ensures s'.banned == if m.Ban? then s.banned[m.peer.host := m.until] else s.banned
  {
    if m.Remove? || m.Disconnect? {
      LeavingKeepsBans(s, m, s', maxPeers);
    }
  }

  lemma LeavingKeepsBans(s: Tables, m: Msg, s': Tables, maxPeers: nat)
    requires Next(s, m, s', maxPeers) && (m.Remove? || m.Disconnect?)
    ensures s'.banned == s.banned
  {
    if m.Disconnect? && s.inbound.Keys !! m.matching {
      var ids: seq<Id> :| (forall i :: 0 <= i < |ids| ==> ids[i] in m.matching) && DropsAll(s, ids, s');
      DropsKeepBans(s, ids, s');
    }
  }

  lemma AddLiftsBan(s: Tables, m: Msg, maxPeers: nat)
    requires m.Add?
    ensures AfterAdd(s, m.peer, m.connected, m.willing, m.now, maxPeers).banned ==
            if m.connected && m.willing && !BannedAt(s, m.peer.host, m.now) then s.banned - {m.peer.host} else s.banned
  {
  }

  lemma {:induction false} DropsKeepBans(s: Tables, ids: seq<Id>, s': Tables)
    requires DropsAll(s, ids, s')
    ensures s'.banned == s.banned && s'.inbound == s.inbound && s'.persistent == s.persistent
    decreases |ids|
  {
    if ids != [] {
      DropsKeepBans(DropOutbound(s, ids[0]), ids[1..], s');
    }
  }

  /** In every state of every run the bans on record are those that stand. */
  lemma {:induction false} BansOnRecord(states: seq<Tables>, msgs: seq<Msg>, maxPeers: nat, n: nat, host: Host,
                                        until: Time)
    requires IsRun(states, msgs, maxPeers) && n <= |msgs|
    ensures Record(states[n], host, until) <==> Banned(msgs[..n], host, until)
  {
    if n > 0 {
      BansOnRecord(states, msgs, maxPeers, n - 1, host, until);
      assert msgs[..n] == msgs[..n - 1] + [msgs[n - 1]];
      BannedOneMore(msgs[..n - 1], msgs[n - 1], host, until);
      RecordAfter(states[n - 1], msgs[n - 1], states[n], maxPeers, host, until);
    }
  }

  // ---------------------------------------------------------------- who is admitted

  /** No ban that stands reaches beyond now. */
  ghost predicate Free(msgs: seq<Msg>, host: Host, now: Time) {
    forall until :: Banned(msgs, host, until) ==> until <= now
  }

  /** While a ban of its host stands and is not over, a peer changes nothing. */
  lemma BannedIsRefused(states: seq<Tables>, msgs: seq<Msg>, maxPeers: nat, n: nat, until: Time)
    requires IsRun(states, msgs, maxPeers) && n < |msgs| && msgs[n].Add?
    requires Banned(msgs[..n], msgs[n].peer.host, until) && msgs[n].now < until
    ensures states[n + 1] == states[n]
  {
    BansOnRecord(states, msgs, maxPeers, n, msgs[n].peer.host, until);
    assert Next(states[n], msgs[n], states[n + 1], maxPeers);
  }

  lemma FreeIsNotBanned(states: seq<Tables>, msgs: seq<Msg>, maxPeers: nat, n: nat, host: Host, now: Time)
    requires IsRun(states, msgs, maxPeers) && n <= |msgs|
    ensures BannedAt(states[n], host, now) <==> !Free(msgs[..n], host, now)
  {
    if host in states[n].banned {
      BansOnRecord(states, msgs, maxPeers, n, host, states[n].banned[host]);
    }
    if !Free(msgs[..n], host, now) {
      var until :| Banned(msgs[..n], host, until) && until > now;
      BansOnRecord(states, msgs, maxPeers, n, host, until);
    }
  }

  /** The peer is in its own table and in no other. */
  ghost predicate InItsTable(s: Tables, p: Peer) {
    && (p.id in s.inbound <==> p.inbound) && (p.id in s.persistent <==> !p.inbound && p.persistent)
    && (p.id in s.outbound <==> !p.inbound && !p.persistent)
    && (p.inbound ==> s.inbound[p.id] == p)
    && (!p.inbound && p.persistent ==> s.persistent[p.id] == p)
    && (!p.inbound && !p.persistent ==> s.outbound[p.id] == p)
  }

  /** The tables agree on every peer but this one. */
  ghost predicate SameOthers(s: Tables, s': Tables, id: Id) {
    forall other: Id :: other != id ==>
      && Same(s.inbound, s'.inbound, other) && Same(s.outbound, s'.outbound, other)
      && Same(s.persistent, s'.persistent, other)
  }

  predicate Same(m: map<Id, Peer>, m': map<Id, Peer>, id: Id) {
    (id in m <==> id in m') && (id in m ==> m[id] == m'[id])
  }

  /**
   * An add message admits its peer exactly if it is connected and wanted, its host is free and fewer
   * than the limit are listed; then it is in its own table only.  No other peer is affected.
   */
  lemma AdmittedExactly(states: seq<Tables>, msgs: seq<Msg>, maxPeers: nat, n: nat)
    requires IsRun(states, msgs, maxPeers) && n < |msgs| && msgs[n].Add?
    ensures var p := msgs[n].peer;
            && !InTables(states[n], p.id) && SameOthers(states[n], states[n + 1], p.id)
            && (InTables(states[n + 1], p.id) <==>
                && msgs[n].connected && msgs[n].willing && Free(msgs[..n], p.host, msgs[n].now)
                && Count(states[n]) < maxPeers)
            && (InTables(states[n + 1], p.id) ==> InItsTable(states[n + 1], p))
  {
    var p := msgs[n].peer;
    FreeIsNotBanned(states, msgs, maxPeers, n, p.host, msgs[n].now);
    NotListedYet(states, msgs, maxPeers, n);
    assert Next(states[n], msgs[n], states[n + 1], maxPeers);
    AddedAlone(states[n], msgs[n], maxPeers);
  }

  lemma NotListedYet(states: seq<Tables>, msgs: seq<Msg>, maxPeers: nat, n: nat)
    requires IsRun(states, msgs, maxPeers) && n < |msgs| && msgs[n].Add?
    ensures !InTables(states[n], msgs[n].peer.id)
  {
    RunKeepsInv(states, msgs, maxPeers, n);
    assert Fair(HistoryOf(msgs[..n]), msgs[n]);
  }

  lemma AddedAlone(s: Tables, m: Msg, maxPeers: nat)
    requires m.Add? && !InTables(s, m.peer.id)
    ensures var s' := AfterAdd(s, m.peer, m.connected, m.willing, m.now, maxPeers);
            && SameOthers(s, s', m.peer.id)
            && (InTables(s', m.peer.id) <==>
                m.connected && m.willing && !BannedAt(s, m.peer.host, m.now) && Count(s) < maxPeers)
            && (InTables(s', m.peer.id) ==> InItsTable(s', m.peer))
  {
    var s' := AfterAdd(s, m.peer, m.connected, m.willing, m.now, maxPeers);
    if m.connected && m.willing && !BannedAt(s, m.peer.host, m.now) && Count(s) < maxPeers {
      EnlistedAlone(LiftBan(s, m.peer.host), m.peer);
    } else {
      assert s'.inbound == s.inbound && s'.outbound == s.outbound && s'.persistent == s.persistent;
    }
  }

  lemma EnlistedAlone(s: Tables, p: Peer)
    requires !InTables(s, p.id)
    ensures SameOthers(s, Enlist(s, p), p.id) && InItsTable(Enlist(s, p), p)
  {
  }

  // ---------------------------------------------------------------- who leaves

  /** The messages that may take a peer out. */
  predicate Dismisses(msg: Msg, id: Id) {
    match msg
    case Done(p, _) => p.id == id
    case Remove(matching) => id in matching
    case Disconnect(matching) => id in matching
    case Add(_, _, _, _) => false
    case Ban(_, _) => false
  }

  lemma {:induction false} DropsOnly(s: Tables, ids: seq<Id>, s': Tables, id: Id)
    requires DropsAll(s, ids, s')
    ensures id in s'.outbound <==> id in s.outbound && id !in ids
    ensures id in s'.outbound ==> s'.outbound[id] == s.outbound[id]
    decreases |ids|
  {
    if ids != [] {
      DropsOnly(DropOutbound(s, ids[0]), ids[1..], s', id);
    }
  }

  /** A listed peer stays listed unless it is done, or asked to leave. */
  lemma StaysUnlessDismissed(states: seq<Tables>, msgs: seq<Msg>, maxPeers: nat, n: nat, id: Id)
    requires IsRun(states, msgs, maxPeers) && n < |msgs| && InTables(states[n], id) && !Dismisses(msgs[n], id)
    ensures InTables(states[n + 1], id)
  {
    var s, s' := states[n], states[n + 1];
    assert Next(s, msgs[n], s', maxPeers);
    match msgs[n]
    case Disconnect(matching) => var gone := DisconnectTakes(s, matching, s', maxPeers);
    case Remove(matching) => var gone := RemoveTakesOne(s, matching, s', maxPeers);
    case _ =>
  }

  /** Asked to remove, the server drops one matching persistent peer if there is one, and no other. */
  lemma RemoveTakesOne(s: Tables, matching: set<Id>, s': Tables, maxPeers: nat) returns (gone: set<Id>)
    requires Next(s, Remove(matching), s', maxPeers)
    ensures gone <= matching && gone <= s.persistent.Keys
    ensures |gone| == if s.persistent.Keys !! matching then 0 else 1
    ensures s'.persistent == s.persistent - gone && s'.inbound == s.inbound && s'.outbound == s.outbound
  {
    if s.persistent.Keys !! matching {
      gone := {};
      assert s.persistent - {} == s.persistent;
    } else {
      var id :| id in matching && id in s.persistent && s' == DropPersistent(s, id);
      gone := {id};
    }
  }

  /** Asked to disconnect, it drops one matching inbound peer, or else every matching outbound peer. */
  lemma DisconnectTakes(s: Tables, matching: set<Id>, s': Tables, maxPeers: nat) returns (gone: set<Id>)
    requires Next(s, Disconnect(matching), s', maxPeers)
    ensures s'.persistent == s.persistent && gone <= matching
    ensures if s.inbound.Keys !! matching
            then s'.inbound == s.inbound && s'.outbound == s.outbound - matching
            else |gone| == 1 && gone <= s.inbound.Keys && s'.inbound == s.inbound - gone && s'.outbound == s.outbound
  {
    gone := {};
    if s.inbound.Keys !! matching {
      var ids: seq<Id> :| (forall i :: 0 <= i < |ids| ==> ids[i] in matching) && DropsAll(s, ids, s');
      DropsKeepBans(s, ids, s');
      forall id: Id
        ensures id in s'.outbound <==> id in s.outbound && id !in matching
        ensures id in s'.outbound ==> s'.outbound[id] == s.outbound[id]
      {
        DropsOnly(s, ids, s', id);
      }
      assert s'.outbound == s.outbound - matching;
    } else {
      var id :| id in matching && id in s.inbound && s' == s.(inbound := s.inbound - {id});
      gone := {id};
    }
  }
}
