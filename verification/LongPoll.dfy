/**
 * The long-poll registry of the block template state (gbtWorkState in btcd/rpcserver.go; section
 * "Long Polling" of BIP 22).  Channels are numbered in the order they are made; a time is None when
 * it is not initialised.
 */
module LongPolls {
  import opened Iteration
  import opened Options

  type Hash = nat
  type Chan = nat

  /** Seconds since 1970, possibly before. */
  datatype Time = Unix(seconds: int)

  type Waiting = map<Time, Chan>
  type NotifyMap = map<Hash, Waiting>

  // ---------------------------------------------------------------- the registry as a flat map

  datatype Registry = Registry(open: map<(Hash, Time), Chan>, closed: set<Chan>, made: nat)

  datatype Op = Ask(hash: Hash, time: Time) | Notify(latest: Hash, since: Option<Time>)

  /** A template is stale once the tip is another block, or the mempool is newer. */
  predicate Stale(latest: Hash, since: Option<Time>, hash: Hash, time: Time) {
    hash != latest || (since.Some? && time.seconds < since.value.seconds)
  }

  ghost function Next(r: Registry, op: Op): Registry {
    match op
    case Ask(h, g) =>
      if (h, g) in r.open then r else r.(open := r.open[(h, g) := r.made], made := r.made + 1)
    case Notify(l, t) =>
      Registry(map p | p in r.open && !Stale(l, t, p.0, p.1) :: r.open[p],
               r.closed + set p | p in r.open && Stale(l, t, p.0, p.1) :: r.open[p],
               r.made)
  }

  ghost function Run(r: Registry, ops: seq<Op>): Registry {
    if ops == [] then r else Next(Run(r, ops[..|ops| - 1]), ops[|ops| - 1])
  }

  /** Registered channels are open and each registered once. */
  ghost predicate Inv(r: Registry) {
    && (forall p :: p in r.open ==> r.open[p] < r.made && r.open[p] !in r.closed)
    && (forall p, q :: p in r.open && q in r.open && r.open[p] == r.open[q] ==> p == q)
    && (forall c :: c in r.closed ==> c < r.made)
  }

  lemma NextKeepsInv(r: Registry, op: Op)
    requires Inv(r)
    ensures Inv(Next(r, op)) && r.closed <= Next(r, op).closed && r.made <= Next(r, op).made
  {
  }

  /** A notification of another tip, or of this tip with a mempool that changed after the template's time. */
  ghost predicate MakesStale(op: Op, hash: Hash, time: Time) {
    && op.Notify?
    && (op.latest == hash ==> op.since.Some? && op.since.value.seconds > time.seconds)
  }

  /**
   * The channel handed out for a template is closed exactly when a later notification makes that
   * template stale, and until then it is the one everyone else asking for the template gets.
   */
  lemma {:induction false} ClosedExactlyWhenStale(r: Registry, hash: Hash, time: Time, ops: seq<Op>)
    requires Inv(r)
    ensures var r1 := Next(r, Ask(hash, time));
            (hash, time) in r1.open &&
            var c, r2 := r1.open[(hash, time)], Run(r1, ops);
            && Inv(r2) && c < r2.made
            && (c in r2.closed <==> exists op :: op in ops && MakesStale(op, hash, time))
            && (c !in r2.closed ==> (hash, time) in r2.open && r2.open[(hash, time)] == c)
  {
    var r1 := Next(r, Ask(hash, time));
    NextKeepsInv(r, Ask(hash, time));
    if ops != [] {
      var init, last := ops[..|ops| - 1], ops[|ops| - 1];
      assert ops == init + [last];
      ClosedExactlyWhenStale(r, hash, time, init);
      var r2 := Run(r1, init);
      NextKeepsInv(r2, last);
      assert last in ops;
    }
  }

  // ---------------------------------------------------------------- the registry as nested maps

  ghost function Keys(nm: NotifyMap): (r: set<(Hash, Time)>)
    ensures forall h: Hash, g :: (h, g) in r <==> h in nm && g in nm[h]
  {
    set h, g | h in nm && g in nm[h] :: (h, g)
  }

  ghost function Flat(nm: NotifyMap): map<(Hash, Time), Chan> {
    map p | p in Keys(nm) :: nm[p.0][p.1]
  }

  /** The channels registered under these hashes. */
  ghost function Under(nm: NotifyMap, hs: set<Hash>): set<Chan> {
    set h, g | h in hs && h in nm && g in nm[h] :: nm[h][g]
  }

  ghost function Chans(w: Waiting): set<Chan> {
    set g | g in w :: w[g]
  }

  /** Those of one hash that wait since before a time. */
  ghost function Before(w: Waiting, since: Time): set<Chan> {
    set g | g in w && g.seconds < since.seconds :: w[g]
  }

  ghost function After(w: Waiting, since: Time): Waiting {
    map g | g in w && g.seconds >= since.seconds :: w[g]
  }

  /** Only what waits since `since` or later is left of a hash, and nothing at all rather than an empty map. */
  ghost function Trimmed(nm: NotifyMap, h: Hash, since: Time): NotifyMap
    requires h in nm
  {
    if After(nm[h], since) == map[] then nm - {h} else nm[h := After(nm[h], since)]
  }

  ghost predicate Distinct(w: Waiting) {
    forall a, b :: a in w && b in w && w[a] == w[b] ==> a == b
  }

  /** The flat invariant, read off the nested maps. */
  lemma EntriesAre(nm: NotifyMap, closed: set<Chan>, made: nat, h: Hash, g: Time, h': Hash, g': Time)
    requires Inv(Registry(Flat(nm), closed, made))
    requires h in nm && g in nm[h] && h' in nm && g' in nm[h']
    ensures nm[h][g] !in closed && (nm[h][g] == nm[h'][g'] ==> h == h' && g == g')
  {
    assert (h, g) in Flat(nm) && (h', g') in Flat(nm);
    assert Flat(nm)[(h, g)] == nm[h][g] && Flat(nm)[(h', g')] == nm[h'][g'];
  }

  ghost function Kept(nm: NotifyMap, hs: set<Hash>): NotifyMap {
    map h | h in nm && h in hs :: nm[h]
  }

  lemma UnderMore(nm: NotifyMap, hs: set<Hash>, h: Hash)
    requires h in nm
    ensures Under(nm, hs + {h}) == Under(nm, hs) + Chans(nm[h])
  {
  }

  /** The channels of one hash are open, and differ from each other and from those of other hashes. */
  lemma GroupIsOpen(nm: NotifyMap, closed: set<Chan>, made: nat, h: Hash, others: set<Hash>)
    requires Inv(Registry(Flat(nm), closed, made)) && h in nm && h !in others
    ensures forall g :: g in nm[h] ==> nm[h][g] !in closed + Under(nm, others)
    ensures Distinct(nm[h])
  {
    forall g | g in nm[h]
      ensures nm[h][g] !in closed + Under(nm, others)
    {
      EntriesAre(nm, closed, made, h, g, h, g);
      forall h', g' | h' in others && h' in nm && g' in nm[h']
        ensures nm[h'][g'] != nm[h][g]
      {
        EntriesAre(nm, closed, made, h, g, h', g');
      }
    }
    forall a, b | a in nm[h] && b in nm[h] && nm[h][a] == nm[h][b]
      ensures a == b
    {
      EntriesAre(nm, closed, made, h, a, h, b);
    }
  }

  /** Each group of channels is open, whichever other groups have been closed. */
  ghost predicate GroupsOpen(nm: NotifyMap, closed: set<Chan>) {
    forall h, others :: h in nm && h !in others ==> Distinct(nm[h]) && Chans(nm[h]) !! (closed + Under(nm, others))
  }

  lemma GroupsAreOpen(nm: NotifyMap, closed: set<Chan>, made: nat)
    requires Inv(Registry(Flat(nm), closed, made))
    ensures GroupsOpen(nm, closed)
  {
    forall h, others | h in nm && h !in others
      ensures Distinct(nm[h]) && Chans(nm[h]) !! (closed + Under(nm, others))
    {
      GroupIsOpen(nm, closed, made, h, others);
    }
  }

  /** The loop over the hashes: what is kept while some are still to be visited, and what was dropped. */
  ghost function KeptSoFar(nm: NotifyMap, todo: set<Hash>, latest: Hash): NotifyMap {
    Kept(nm, todo + {latest})
  }

  ghost function DroppedSoFar(nm: NotifyMap, todo: set<Hash>, latest: Hash): set<Hash> {
    nm.Keys - todo - {latest}
  }

  lemma DropStep(nm: NotifyMap, todo: set<Hash>, latest: Hash, h: Hash)
    requires h in todo && todo <= nm.Keys
    ensures h != latest ==> KeptSoFar(nm, todo, latest) - {h} == KeptSoFar(nm, todo - {h}, latest)
    ensures h != latest ==> DroppedSoFar(nm, todo, latest) + {h} == DroppedSoFar(nm, todo - {h}, latest)
    ensures h != latest ==> h in KeptSoFar(nm, todo, latest) && KeptSoFar(nm, todo, latest)[h] == nm[h]
    ensures h == latest ==> KeptSoFar(nm, todo, latest) == KeptSoFar(nm, todo - {h}, latest)
    ensures h == latest ==> DroppedSoFar(nm, todo, latest) == DroppedSoFar(nm, todo - {h}, latest)
  {
    assert h == latest ==> todo + {latest} == todo - {h} + {latest};
  }

  lemma DropEnds(nm: NotifyMap, latest: Hash)
    ensures KeptSoFar(nm, nm.Keys, latest) == nm && Under(nm, DroppedSoFar(nm, nm.Keys, latest)) == {}
    ensures KeptSoFar(nm, {}, latest) == Kept(nm, {latest}) && DroppedSoFar(nm, {}, latest) == nm.Keys - {latest}
  {
    assert {} + {latest} == {latest};
    assert nm.Keys - {} - {latest} == nm.Keys - {latest};
  }

  /** The loop over the times of one hash. */
  ghost function LeftSoFar(w: Waiting, todo: set<Time>, since: Time): Waiting {
    map g | g in w && (g in todo || g.seconds >= since.seconds) :: w[g]
  }

  ghost function ClosedSoFar(w: Waiting, todo: set<Time>, since: Time): set<Chan> {
    set g | g in w && g !in todo && g.seconds < since.seconds :: w[g]
  }

  lemma TrimStep(w: Waiting, was: set<Chan>, todo: set<Time>, since: Time, g: Time)
    requires g in todo && todo <= w.Keys && Distinct(w) && Chans(w) !! was
    ensures g in LeftSoFar(w, todo, since) && LeftSoFar(w, todo, since)[g] == w[g]
    ensures w[g] !in was + ClosedSoFar(w, todo, since)
    ensures g.seconds < since.seconds ==> LeftSoFar(w, todo, since) - {g} == LeftSoFar(w, todo - {g}, since)
    ensures g.seconds < since.seconds ==>
              was + ClosedSoFar(w, todo, since) + {w[g]} == was + ClosedSoFar(w, todo - {g}, since)
    ensures g.seconds >= since.seconds ==> LeftSoFar(w, todo, since) == LeftSoFar(w, todo - {g}, since)
    ensures g.seconds >= since.seconds ==> ClosedSoFar(w, todo, since) == ClosedSoFar(w, todo - {g}, since)
  {
    assert w[g] in Chans(w);
  }

  lemma TrimEnds(w: Waiting, since: Time)
    ensures LeftSoFar(w, w.Keys, since) == w && ClosedSoFar(w, w.Keys, since) == {}
    ensures LeftSoFar(w, {}, since) == After(w, since) && ClosedSoFar(w, {}, since) == Before(w, since)
  {
  }

  /** The nested maps after a notification. */
  ghost function Notified(nm: NotifyMap, latest: Hash, since: Option<Time>): NotifyMap {
    var kept := Kept(nm, {latest});
    if since.Some? && latest in kept then Trimmed(kept, latest, since.value) else kept
  }

  ghost function NotifiedChans(nm: NotifyMap, latest: Hash, since: Option<Time>): set<Chan> {
    Under(nm, nm.Keys - {latest}) + if since.Some? && latest in nm then Before(nm[latest], since.value) else {}
  }

  lemma NotifiedEntries(nm: NotifyMap, latest: Hash, since: Option<Time>, h: Hash, g: Time)
    ensures (h in Notified(nm, latest, since) && g in Notified(nm, latest, since)[h]) <==>
            (h in nm && g in nm[h] && !Stale(latest, since, h, g))
    ensures h in nm && g in nm[h] && !Stale(latest, since, h, g) ==> Notified(nm, latest, since)[h][g] == nm[h][g]
  {
    var kept := Kept(nm, {latest});
    if since.Some? && latest in kept {
      assert g in After(kept[latest], since.value) <==> g in nm[latest] && g.seconds >= since.value.seconds;
    }
  }

  lemma NotifiedFlat(nm: NotifyMap, latest: Hash, since: Option<Time>)
    ensures Flat(Notified(nm, latest, since)) == map p | p in Flat(nm) && !Stale(latest, since, p.0, p.1) :: Flat(nm)[p]
  {
    var after := Notified(nm, latest, since);
    forall h: Hash, g
      ensures (h, g) in Flat(after) <==> (h, g) in Flat(nm) && !Stale(latest, since, h, g)
      ensures (h, g) in Flat(after) ==> Flat(after)[(h, g)] == Flat(nm)[(h, g)]
    {
      NotifiedEntries(nm, latest, since, h, g);
    }
  }

  lemma NotifiedClosed(nm: NotifyMap, latest: Hash, since: Option<Time>)
    ensures NotifiedChans(nm, latest, since) ==
            set p | p in Flat(nm) && Stale(latest, since, p.0, p.1) :: Flat(nm)[p]
  {
    var stale := set p | p in Flat(nm) && Stale(latest, since, p.0, p.1) :: Flat(nm)[p];
    forall c | c in NotifiedChans(nm, latest, since)
      ensures c in stale
    {
      if c in Under(nm, nm.Keys - {latest}) {
        var h, g :| h in nm.Keys - {latest} && h in nm && g in nm[h] && nm[h][g] == c;
        assert (h, g) in Flat(nm) && Flat(nm)[(h, g)] == c;
      } else {
        var g :| g in nm[latest] && g.seconds < since.value.seconds && nm[latest][g] == c;
        assert (latest, g) in Flat(nm) && Flat(nm)[(latest, g)] == c;
      }
    }
    forall c | c in stale
      ensures c in NotifiedChans(nm, latest, since)
    {
      var p :| p in Flat(nm) && Stale(latest, since, p.0, p.1) && Flat(nm)[p] == c;
      assert p.0 in nm && p.1 in nm[p.0] && nm[p.0][p.1] == c;
    }
  }

  ghost predicate NoneEmpty(nm: NotifyMap) {
    forall h :: h in nm ==> nm[h] != map[]
  }

  lemma NotifiedNoneEmpty(nm: NotifyMap, latest: Hash, since: Option<Time>)
    requires NoneEmpty(nm)
    ensures NoneEmpty(Notified(nm, latest, since))
  {
  }

  class WorkState {
    var notifyMap: NotifyMap
    var closed: set<Chan>
    var made: nat

    ghost function View(): Registry
      reads this
    {
      Registry(Flat(notifyMap), closed, made)
    }

    ghost predicate Valid()
      reads this
    {
      Inv(View()) && NoneEmpty(notifyMap)
    }

    constructor ()
      ensures Valid() && View() == Registry(map[], {}, 0)
    {
      notifyMap, closed, made := map[], {}, 0;
    }

    /** Closing a closed channel panics. */
    method Close(c: Chan)
      requires c !in closed
      modifies this`closed
      ensures closed == old(closed) + {c}
    {
      closed := closed + {c};
    }

    /** Closes every channel of one hash: none is closed, and no two are the same. */
    method CloseAll(w: Waiting)
      requires Chans(w) !! closed && Distinct(w)
      modifies this`closed
      ensures closed == old(closed) + Chans(w)
    {
      var todo := w.Keys;
      while todo != {}
        invariant todo <= w.Keys
        invariant closed == old(closed) + set g | g in w && g !in todo :: w[g]
        decreases |todo|
      {
        var g := Pick(todo);
        Close(w[g]);
        todo := todo - {g};
      }
    }

    /** The channels of one hash are closed and its entry dropped. */
    method DropGroup(h: Hash, ghost nm: NotifyMap, ghost was: set<Chan>, ghost dropped: set<Hash>)
      requires h in notifyMap && h in nm && notifyMap[h] == nm[h] && h !in dropped
      requires GroupsOpen(nm, was) && closed == was + Under(nm, dropped)
      modifies this`notifyMap, this`closed
      ensures notifyMap == old(notifyMap) - {h}
      ensures closed == was + Under(nm, dropped + {h})
    {
      UnderMore(nm, dropped, h);
      CloseAll(notifyMap[h]);
      notifyMap := notifyMap - {h};
    }

    /** The first loop: every hash but the latest is dropped. */
    method DropOthers(latest: Hash)
      requires GroupsOpen(notifyMap, closed)
      modifies this`notifyMap, this`closed
      ensures notifyMap == Kept(old(notifyMap), {latest})
      ensures closed == old(closed) + Under(old(notifyMap), old(notifyMap).Keys - {latest})
    {
      ghost var nm, was := notifyMap, closed;
      DropEnds(nm, latest);
      assert was + {} == was;
      var todo := notifyMap.Keys;
      while todo != {}
        invariant todo <= nm.Keys && DroppingAt(nm, was, todo, latest)
        decreases |todo|
      {
        var h := Pick(todo);
        VisitHash(h, latest, nm, was, todo);
        todo := todo - {h};
      }
      assert todo == {};
    }

    /** The state of the first loop. */
    ghost predicate DroppingAt(nm: NotifyMap, was: set<Chan>, todo: set<Hash>, latest: Hash)
      reads this
    {
      notifyMap == KeptSoFar(nm, todo, latest) && closed == was + Under(nm, DroppedSoFar(nm, todo, latest))
    }

    method VisitHash(h: Hash, latest: Hash, ghost nm: NotifyMap, ghost was: set<Chan>, ghost todo: set<Hash>)
      requires GroupsOpen(nm, was) && h in todo && todo <= nm.Keys && DroppingAt(nm, was, todo, latest)
      modifies this`notifyMap, this`closed
      ensures DroppingAt(nm, was, todo - {h}, latest)
    {
      DropStep(nm, todo, latest, h);
      if h != latest {
        DropGroup(h, nm, was, DroppedSoFar(nm, todo, latest));
      }
    }

    /** The second loop, over the channels of the latest hash. */
    method DropOlder(latest: Hash, since: Time)
      requires latest in notifyMap
      requires Chans(notifyMap[latest]) !! closed && Distinct(notifyMap[latest])
      modifies this`notifyMap, this`closed
      ensures closed == old(closed) + Before(old(notifyMap[latest]), since)
      ensures notifyMap == Trimmed(old(notifyMap), latest, since)
    {
      var channels := CloseOlder(notifyMap[latest], since);
      notifyMap := if channels == map[] then notifyMap - {latest} else notifyMap[latest := channels];
    }

    method CloseOlder(w: Waiting, since: Time) returns (channels: Waiting)
      requires Chans(w) !! closed && Distinct(w)
      modifies this`closed
      ensures closed == old(closed) + Before(w, since) && channels == After(w, since)
    {
      channels := w;
      TrimEnds(w, since);
      var todo := channels.Keys;
      while todo != {}
        invariant todo <= w.Keys
        invariant channels == LeftSoFar(w, todo, since)
        invariant closed == old(closed) + ClosedSoFar(w, todo, since)
        decreases |todo|
      {
        var g := Pick(todo);
        TrimStep(w, old(closed), todo, since, g);
        if g.seconds < since.seconds {
          Close(channels[g]);
          channels := channels - {g};
        }
        todo := todo - {g};
      }
    }

    /** Exactly the templates that are now stale are closed and dropped; none is closed twice. */
    method NotifyLongPollers(latest: Hash, since: Option<Time>)
      requires Valid()
      modifies this`notifyMap, this`closed
      ensures Valid() && View() == Next(old(View()), Notify(latest, since))
    {
      ghost var nm := notifyMap;
      NotifiedFlat(nm, latest, since);
      NotifiedClosed(nm, latest, since);
      NotifiedNoneEmpty(nm, latest, since);
      NextKeepsInv(View(), Notify(latest, since));
      GroupsAreOpen(nm, closed, made);
      Sweep(latest, since);
    }

    method Sweep(latest: Hash, since: Option<Time>)
      requires GroupsOpen(notifyMap, closed)
      modifies this`notifyMap, this`closed
      ensures notifyMap == Notified(old(notifyMap), latest, since)
      ensures closed == old(closed) + NotifiedChans(old(notifyMap), latest, since)
    {
      ghost var nm, was := notifyMap, closed;
      DropOthers(latest);
      if since.None? || latest !in notifyMap {
        return;
      }
      assert latest !in nm.Keys - {latest};
      DropOlder(latest, since.value);
    }

    /** The one channel for a template, made if there is none. */
    method TemplateUpdateChan(hash: Hash, time: Time) returns (c: Chan)
      requires Valid()
      modifies this`notifyMap, this`made
      ensures Valid() && View() == Next(old(View()), Ask(hash, time))
      ensures (hash, time) in View().open && View().open[(hash, time)] == c
    {
      c := FindOrMake(hash, time);
      AskIs(old(notifyMap), notifyMap, closed, old(made), made, hash, time, c);
    }

    method FindOrMake(hash: Hash, time: Time) returns (c: Chan)
      modifies this`notifyMap, this`made
      ensures FoundOrMade(old(notifyMap), notifyMap, old(made), made, hash, time, c)
    {
      var channels: Waiting := if hash in notifyMap then notifyMap[hash] else map[];
      if time in channels {
        c := channels[time];
      } else {
        c := made;
        made := made + 1;
        channels := channels[time := c];
        notifyMap := notifyMap[hash := channels];
      }
    }
  }

  ghost function Asked(nm: NotifyMap, hash: Hash, time: Time, c: Chan): NotifyMap {
    nm[hash := (if hash in nm then nm[hash] else map[])[time := c]]
  }

  lemma AskedFlat(nm: NotifyMap, hash: Hash, time: Time, c: Chan)
    ensures Flat(Asked(nm, hash, time, c)) == Flat(nm)[(hash, time) := c]
    ensures (hash, time) in Flat(nm) <==> hash in nm && time in nm[hash]
  {
    var after := Asked(nm, hash, time, c);
    assert Keys(after) == Keys(nm) + {(hash, time)};
    forall p | p in Keys(after)
      ensures Flat(after)[p] == Flat(nm)[(hash, time) := c][p]
    {
    }
  }

  lemma AskedNoneEmpty(nm: NotifyMap, hash: Hash, time: Time, c: Chan)
    requires NoneEmpty(nm)
    ensures NoneEmpty(Asked(nm, hash, time, c))
  {
    assert time in Asked(nm, hash, time, c)[hash];
  }

  lemma AskFirst(nm: NotifyMap, closed: set<Chan>, made: nat, hash: Hash, time: Time)
    requires !(hash in nm && time in nm[hash])
    ensures var r := Registry(Flat(Asked(nm, hash, time, made)), closed, made + 1);
            && r == Next(Registry(Flat(nm), closed, made), Ask(hash, time))
            && (hash, time) in r.open && r.open[(hash, time)] == made
  {
    AskedFlat(nm, hash, time, made);
  }

  ghost predicate FoundOrMade(nm: NotifyMap, nm': NotifyMap, made: nat, made': nat, hash: Hash, time: Time, c: Chan) {
    if hash in nm && time in nm[hash] then c == nm[hash][time] && nm' == nm && made' == made
    else c == made && nm' == Asked(nm, hash, time, c) && made' == made + 1
  }

  lemma AskIs(nm: NotifyMap, nm': NotifyMap, closed: set<Chan>, made: nat, made': nat, hash: Hash, time: Time, c: Chan)
    requires Inv(Registry(Flat(nm), closed, made)) && NoneEmpty(nm)
    requires FoundOrMade(nm, nm', made, made', hash, time, c)
    ensures var r := Registry(Flat(nm'), closed, made');
            && r == Next(Registry(Flat(nm), closed, made), Ask(hash, time)) && Inv(r)
            && (hash, time) in r.open && r.open[(hash, time)] == c
    ensures NoneEmpty(nm')
  {
    if hash in nm && time in nm[hash] {
      AskAgain(nm, closed, made, hash, time);
    } else {
      AskFirst(nm, closed, made, hash, time);
      AskedNoneEmpty(nm, hash, time, made);
    }
    NextKeepsInv(Registry(Flat(nm), closed, made), Ask(hash, time));
  }

  lemma AskAgain(nm: NotifyMap, closed: set<Chan>, made: nat, hash: Hash, time: Time)
    requires hash in nm && time in nm[hash]
    ensures var r := Registry(Flat(nm), closed, made);
            && r == Next(r, Ask(hash, time))
            && (hash, time) in r.open && r.open[(hash, time)] == nm[hash][time]
  {
  }
}
