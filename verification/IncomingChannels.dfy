/**
  The ticket manager's map of channel queues (ticket-manager/src/manager.rs): synchronizing it
  with the chain, receiving tickets, and the stake that remains on a channel
  (ticket-manager/src/factory.rs).
 */
module IncomingChannels {
  import opened Wrappers
  import opened IndexCounter
  import opened TicketQueue
  import opened Redemption

  type ChannelId = nat

  /** An incoming channel; `closed` says whether its closure time has passed. */
  datatype Incoming = Incoming(id: ChannelId, epoch: nat, ticketIndex: nat, closed: bool)
  {
    predicate Redeems(t: Ticket) { epoch <= t.epoch && ticketIndex <= t.index }
  }

  function Live(incoming: set<Incoming>): set<Incoming> {
    set c | c in incoming && !c.closed
  }

  function Ids(incoming: set<Incoming>): set<ChannelId> {
    set c | c in incoming :: c.id
  }

  lemma IdsStep(incoming: set<Incoming>, c: Incoming)
    ensures Ids(incoming + {c}) == Ids(incoming) + {c.id}
  {
    assert c in incoming + {c};
  }

  /** `t` is redeemable for every entry of its channel in `incoming`. */
  ghost predicate Redeemable(incoming: set<Incoming>, t: Ticket) {
    forall c :: c in incoming && c.id == t.channel ==> c.epoch <= t.epoch && c.ticketIndex <= t.index
  }

  /** `t` belongs to a channel that is not closed, and can be redeemed there. */
  ghost predicate IsRetained(incoming: set<Incoming>, t: Ticket) {
    && (exists c :: c in incoming && !c.closed && c.id == t.channel)
    && (forall c :: c in incoming && !c.closed && c.id == t.channel ==> c.epoch <= t.epoch && c.ticketIndex <= t.index)
  }

  lemma LiveIsRetained(incoming: set<Incoming>, t: Ticket)
    ensures t.channel in Ids(Live(incoming)) && Redeemable(Live(incoming), t) <==> IsRetained(incoming, t)
    ensures t.channel in Ids(Live(incoming)) <==> exists c :: c in incoming && !c.closed && c.id == t.channel
  {
    if t.channel in Ids(Live(incoming)) {
      var c :| c in Live(incoming) && c.id == t.channel;
      assert c in incoming && !c.closed;
    }
    if c :| c in incoming && !c.closed && c.id == t.channel {
      assert c in Live(incoming);
    }
  }

  /** How often `t` is stored. */
  ghost function Count(stored: map<ChannelId, seq<Ticket>>, t: Ticket): nat {
    if t.channel in stored then multiset(stored[t.channel])[t] else 0
  }

  /** The queue without the unredeemable tickets at its front. */
  function Prune(q: seq<Ticket>, c: Incoming): seq<Ticket> {
    if q == [] || c.Redeems(q[0]) then q else Prune(q[1..], c)
  }

  /** Those tickets. */
  function Dropped(q: seq<Ticket>, c: Incoming): seq<Ticket> {
    if q == [] || c.Redeems(q[0]) then [] else [q[0]] + Dropped(q[1..], c)
  }

  lemma {:induction false} DroppedAndPruned(q: seq<Ticket>, c: Incoming)
    ensures Dropped(q, c) + Prune(q, c) == q
  {
    if q != [] && !c.Redeems(q[0]) {
      DroppedAndPruned(q[1..], c);
    }
  }

  ghost predicate StoredWell(id: ChannelId, q: seq<Ticket>) {
    Sorted(q) && forall t :: t in q ==> t.channel == id
  }

  lemma LoadIsValid(q: seq<Ticket>)
    requires Sorted(q)
    ensures Loaded(q).Valid() && Loaded(q).items == q
  {
    LoadAgrees(q);
    if q != [] {
      assert q[0] in q && q[|q| - 1] in q;
    }
  }

  /** No redeemable ticket of the queue comes before an unredeemable one. */
  ghost predicate Prunable(q: seq<Ticket>, c: Incoming) {
    forall i, j :: 0 <= i < j < |q| && c.Redeems(q[i]) ==> c.Redeems(q[j])
  }

  /** Pruning leaves redeemable tickets only if and only if the queue is prunable. */
  lemma {:induction false} PruneIsExact(q: seq<Ticket>, c: Incoming)
    ensures (forall t :: t in Prune(q, c) ==> c.Redeems(t)) <==> Prunable(q, c)
  {
    if q == [] {
    } else if c.Redeems(q[0]) {
      assert (forall t :: t in q ==> c.Redeems(t)) <==> Prunable(q, c);
    } else {
      PruneIsExact(q[1..], c);
      if Prunable(q[1..], c) {
        forall i, j | 0 <= i < j < |q| && c.Redeems(q[i]) ensures c.Redeems(q[j]) {
          assert q[i] == q[1..][i - 1] && q[j] == q[1..][j - 1];
        }
      }
      if Prunable(q, c) {
        assert forall i :: 0 <= i < |q[1..]| ==> q[1..][i] == q[i + 1];
      }
    }
  }

  /** It never drops a redeemable one. */
  lemma {:induction false} PruneKeepsRedeemables(q: seq<Ticket>, c: Incoming)
    ensures forall t :: c.Redeems(t) ==> multiset(Prune(q, c))[t] == multiset(q)[t]
  {
    if q != [] && !c.Redeems(q[0]) {
      PruneKeepsRedeemables(q[1..], c);
      assert q == [q[0]] + q[1..];
    }
  }

  /** A stored queue of one epoch is prunable: its tickets are in the order of their indices. */
  lemma SingleEpochIsPrunable(q: seq<Ticket>, c: Incoming)
    requires Sorted(q) && SingleEpoch(q)
    ensures Prunable(q, c)
  {
    forall i, j | 0 <= i < j < |q| && c.Redeems(q[i]) ensures c.Redeems(q[j]) {
      assert q[i].Leq(q[j]) && q[i].epoch == q[j].epoch;
    }
  }

  lemma {:induction false} PruneIsSuffix(q: seq<Ticket>, c: Incoming) returns (n: nat)
    ensures n <= |q| && Prune(q, c) == q[n..]
  {
    n := 0;
    if q != [] && !c.Redeems(q[0]) {
      n := PruneIsSuffix(q[1..], c);
      n := n + 1;
    }
  }

  /** Pruning for one channel entry leaves a stored queue as it should be. */
  lemma PruneStaysWell(id: ChannelId, q: seq<Ticket>, c: Incoming)
    requires StoredWell(id, q)
    ensures StoredWell(id, Prune(q, c)) && (SingleEpoch(q) ==> SingleEpoch(Prune(q, c)))
    ensures forall d :: Prunable(q, d) ==> Prunable(Prune(q, c), d)
  {
    var n := PruneIsSuffix(q, c);
  }

  /** With two epochs in one queue pruning may stop too early: the second ticket is below the
      channel's ticket index and stays, because the first is not. */
  lemma PruneStopsAtTheFirstRedeemable(c: Incoming, t: Ticket, u: Ticket)
    requires t.epoch < u.epoch && c.Redeems(t) && !c.Redeems(u)
    ensures Sorted([t, u]) && Prune([t, u], c) == [t, u] && !Prunable([t, u], c)
  {
    PruneIsExact([t, u], c);
    assert u in [t, u];
  }

  /** What the manager keeps for a channel matches what the store holds for it. */
  ghost predicate Mirrors(c: Channel, q: seq<Ticket>) {
    c.queue.items == q && c.queue.Valid()
  }

  ghost predicate Consistent(stored: map<ChannelId, seq<Ticket>>, channels: map<ChannelId, Channel>) {
    && (forall id :: id in stored ==> StoredWell(id, stored[id]))
    && (forall id :: id in channels ==> id in stored && Mirrors(channels[id], stored[id]))
  }

  ghost predicate SingleEpochs(stored: map<ChannelId, seq<Ticket>>) {
    forall id :: id in stored ==> SingleEpoch(stored[id])
  }

  lemma StaysConsistent(stored: map<ChannelId, seq<Ticket>>, channels: map<ChannelId, Channel>, id: ChannelId, c: Channel)
    requires Consistent(stored, channels)
    requires StoredWell(id, c.queue.items) && c.queue.Valid()
    ensures Consistent(stored[id := c.queue.items], channels[id := c])
    ensures SingleEpochs(stored) && SingleEpoch(c.queue.items) ==> SingleEpochs(stored[id := c.queue.items])
  {
  }

  lemma InsertStaysWell(c: Channel, t: Ticket)
    requires StoredWell(t.channel, c.queue.items) && c.queue.Valid()
    ensures StoredWell(t.channel, c.Insert(t).queue.items)
  {
    c.InsertKeepsValid(t);
    c.queue.DrainEmpties();
    InsertMembers(c.queue.items, t);
    assert forall u :: u in c.Insert(t).queue.items ==> u == t || u in c.queue.items;
  }

  lemma NeglectStaysWell(id: ChannelId, c: Channel, maxIndex: nat)
    requires StoredWell(id, c.queue.items) && c.queue.Valid()
    ensures StoredWell(id, c.Neglect(maxIndex).queue.items)
  {
    c.NeglectKeepsValid(maxIndex);
    c.NeglectSplits(maxIndex);
    assert forall t :: t in c.Neglect(maxIndex).queue.items ==> t in c.queue.items;
  }

  /** A channel with an already filled queue. */
  function Opened(q: seq<Ticket>): Channel {
    Channel(Loaded(q), Stats(|q|, 0, 0, 0))
  }

  /** The books of an opened queue balance, with every stored ticket taken for an arrival. */
  lemma OpenedBalances(q: seq<Ticket>)
    ensures var m := Start(Loaded(q));
            && m.channel == Opened(q) && m.arrived == multiset(q) && m.worth == Sum(q) && m.Conserves()
  {
    LoadAgrees(q);
  }

  function QueueOf(stored: map<ChannelId, seq<Ticket>>, id: ChannelId): seq<Ticket> {
    if id in stored then stored[id] else []
  }

  /** `gone` is what `after` no longer stores of `before`, ticket by ticket. */
  ghost predicate Splits(before: map<ChannelId, seq<Ticket>>, after: map<ChannelId, seq<Ticket>>, gone: seq<Ticket>) {
    forall t :: multiset(gone)[t] + Count(after, t) == Count(before, t)
  }

  lemma SplitsStep(a: map<ChannelId, seq<Ticket>>, b: map<ChannelId, seq<Ticket>>, c: map<ChannelId, seq<Ticket>>,
                   gone: seq<Ticket>, more: seq<Ticket>)
    requires Splits(a, b, gone) && Splits(b, c, more)
    ensures Splits(a, c, gone + more)
  {
    forall t ensures multiset(gone + more)[t] + Count(c, t) == Count(a, t) {
      assert multiset(gone)[t] + Count(b, t) == Count(a, t);
      assert multiset(more)[t] + Count(c, t) == Count(b, t);
    }
  }

  lemma QueueSplits(stored: map<ChannelId, seq<Ticket>>, id: ChannelId, gone: seq<Ticket>, rest: seq<Ticket>)
    requires QueueOf(stored, id) == gone + rest && StoredWell(id, gone + rest)
    ensures Splits(stored, stored[id := rest], gone)
    ensures rest == [] ==> Splits(stored, stored - {id}, gone)
  {
    forall t ensures multiset(gone)[t] + Count(stored[id := rest], t) == Count(stored, t) {
      if t.channel != id {
        assert t in gone ==> t in gone + rest;
      }
    }
  }

  /** `after` stores of `before` what it did, but for the tickets that `c` cannot redeem. */
  ghost predicate Drops(before: map<ChannelId, seq<Ticket>>, after: map<ChannelId, seq<Ticket>>, c: Incoming) {
    forall t :: Count(after, t) == if t.channel == c.id && !c.Redeems(t) then 0 else Count(before, t)
  }

  lemma OpeningStaysConsistent(stored: map<ChannelId, seq<Ticket>>, channels: map<ChannelId, Channel>, c: Incoming,
                               rest: seq<Ticket>)
    requires Consistent(stored, channels) && rest == Prune(QueueOf(stored, c.id), c)
    ensures Consistent(stored[c.id := rest], channels[c.id := Opened(rest)])
  {
    PruneStaysWell(c.id, QueueOf(stored, c.id), c);
    LoadIsValid(rest);
    StaysConsistent(stored, channels, c.id, Opened(rest));
  }

  /** Opening drops what cannot be redeemed, and that only, if and only if the queue is prunable. */
  lemma OpeningIsExact(stored: map<ChannelId, seq<Ticket>>, c: Incoming)
    requires StoredWell(c.id, QueueOf(stored, c.id))
    ensures Drops(stored, Pruned(stored, c), c) <==> Prunable(QueueOf(stored, c.id), c)
  {
    var q, rest := QueueOf(stored, c.id), Prune(QueueOf(stored, c.id), c);
    var after := Pruned(stored, c);
    PruneIsExact(q, c);
    PruneKeepsRedeemables(q, c);
    PruneStaysWell(c.id, q, c);
    if Drops(stored, after, c) {
      forall t | t in rest ensures c.Redeems(t) {
        assert t in multiset(rest) && Count(after, t) > 0;
      }
    }
    if Prunable(q, c) {
      forall t ensures Count(after, t) == if t.channel == c.id && !c.Redeems(t) then 0 else Count(stored, t) {
        assert t in rest <==> t in multiset(rest);
      }
    }
  }

  ghost predicate AllWell(stored: map<ChannelId, seq<Ticket>>) {
    forall id :: id in stored ==> StoredWell(id, stored[id])
  }

  /** The queues after pruning for one channel entry. */
  function Pruned(stored: map<ChannelId, seq<Ticket>>, c: Incoming): map<ChannelId, seq<Ticket>> {
    stored[c.id := Prune(QueueOf(stored, c.id), c)]
  }

  /** Every stored queue is prunable for the entries of its channel. */
  ghost predicate AllPrunable(stored: map<ChannelId, seq<Ticket>>, incoming: set<Incoming>) {
    forall c :: c in incoming ==> Prunable(QueueOf(stored, c.id), c)
  }

  lemma SingleEpochsArePrunable(stored: map<ChannelId, seq<Ticket>>, incoming: set<Incoming>)
    requires AllWell(stored) && SingleEpochs(stored)
    ensures AllPrunable(stored, incoming)
  {
    forall c | c in incoming ensures Prunable(QueueOf(stored, c.id), c) {
      SingleEpochIsPrunable(QueueOf(stored, c.id), c);
    }
  }

  lemma PruneKeepsAllPrunable(stored: map<ChannelId, seq<Ticket>>, incoming: set<Incoming>, c: Incoming)
    requires AllWell(stored) && AllPrunable(stored, incoming)
    ensures AllPrunable(Pruned(stored, c), incoming)
  {
    PruneStaysWell(c.id, QueueOf(stored, c.id), c);
  }

  /** `stored` retains of `before` the tickets of the channels `ids` that `done` can redeem. */
  ghost predicate Retains(before: map<ChannelId, seq<Ticket>>, stored: map<ChannelId, seq<Ticket>>,
                          ids: set<ChannelId>, done: set<Incoming>)
  {
    forall t :: Count(stored, t) == if t.channel in ids && Redeemable(done, t) then Count(before, t) else 0
  }

  lemma RetainsStep(before: map<ChannelId, seq<Ticket>>, stored: map<ChannelId, seq<Ticket>>,
                    after: map<ChannelId, seq<Ticket>>, ids: set<ChannelId>, done: set<Incoming>, c: Incoming)
    requires Retains(before, stored, ids, done)
    requires Drops(stored, after, c)
    ensures Retains(before, after, ids, done + {c})
  {
    forall t ensures Redeemable(done + {c}, t) <==> Redeemable(done, t) && (c.id == t.channel ==> c.Redeems(t)) {
      assert c in done + {c};
    }
  }

  lemma {:induction false} PruneTwice(q: seq<Ticket>, c: Incoming)
    ensures Prune(Prune(q, c), c) == Prune(q, c)
  {
    if q != [] && !c.Redeems(q[0]) {
      PruneTwice(q[1..], c);
    }
  }

  lemma PruningStep(stored: map<ChannelId, seq<Ticket>>, c: Incoming)
    requires AllWell(stored)
    ensures AllWell(Pruned(stored, c)) && (SingleEpochs(stored) ==> SingleEpochs(Pruned(stored, c)))
    ensures Splits(stored, Pruned(stored, c), Dropped(QueueOf(stored, c.id), c))
  {
    var q := QueueOf(stored, c.id);
    PruneStaysWell(c.id, q, c);
    DroppedAndPruned(q, c);
    QueueSplits(stored, c.id, Dropped(q, c), Prune(q, c));
  }

  /** The channel entries pruned for so far, last one outermost. */
  datatype Prunings = Purged | Then(prev: Prunings, entry: Incoming)
  {
    function Entries(): set<Incoming> {
      if Purged? then {} else prev.Entries() + {entry}
    }

    function Stored(stored: map<ChannelId, seq<Ticket>>): map<ChannelId, seq<Ticket>> {
      if Purged? then stored else Pruned(prev.Stored(stored), entry)
    }

    function Gone(stored: map<ChannelId, seq<Ticket>>): seq<Ticket> {
      if Purged? then [] else prev.Gone(stored) + Dropped(QueueOf(prev.Stored(stored), entry.id), entry)
    }

    lemma {:induction false} StaysWell(stored: map<ChannelId, seq<Ticket>>)
      requires AllWell(stored)
      ensures AllWell(Stored(stored)) && (SingleEpochs(stored) ==> SingleEpochs(Stored(stored)))
      ensures Splits(stored, Stored(stored), Gone(stored))
    {
      if Then? {
        prev.StaysWell(stored);
        var current := prev.Stored(stored);
        PruningStep(current, entry);
        SplitsStep(stored, current, Stored(stored), prev.Gone(stored), Dropped(QueueOf(current, entry.id), entry));
      }
    }

    lemma {:induction false} Keys(stored: map<ChannelId, seq<Ticket>>)
      ensures Stored(stored).Keys == stored.Keys + Ids(Entries())
    {
      if Then? {
        prev.Keys(stored);
        IdsStep(prev.Entries(), entry);
      }
    }

    /** What becomes of a channel's queue when the channel has one entry. */
    lemma {:induction false} StoredAt(stored: map<ChannelId, seq<Ticket>>, c: Incoming)
      requires forall d :: d in Entries() && d.id == c.id ==> d == c
      ensures QueueOf(Stored(stored), c.id) ==
              if c in Entries() then Prune(QueueOf(stored, c.id), c) else QueueOf(stored, c.id)
    {
      if Then? {
        prev.StoredAt(stored, c);
        PruneTwice(QueueOf(stored, c.id), c);
      }
    }

    lemma {:induction false} KeepsPrunable(stored: map<ChannelId, seq<Ticket>>, live: set<Incoming>)
      requires AllWell(stored) && AllPrunable(stored, live)
      ensures AllPrunable(Stored(stored), live)
    {
      if Then? {
        prev.KeepsPrunable(stored, live);
        prev.StaysWell(stored);
        PruneKeepsAllPrunable(prev.Stored(stored), live, entry);
      }
    }

    lemma {:induction false} RetainsRedeemables(stored: map<ChannelId, seq<Ticket>>, live: set<Incoming>, ids: set<ChannelId>)
      requires AllWell(stored) && AllPrunable(stored, live) && Entries() <= live
      requires Retains(stored, stored, ids, {})
      ensures Retains(stored, Stored(stored), ids, Entries())
    {
      if Then? {
        var current := prev.Stored(stored);
        prev.RetainsRedeemables(stored, live, ids);
        prev.StaysWell(stored);
        prev.KeepsPrunable(stored, live);
        assert entry in live;
        OpeningIsExact(current, entry);
        RetainsStep(stored, current, Stored(stored), ids, prev.Entries(), entry);
      }
    }
  }

  lemma PurgedRetains(before: map<ChannelId, seq<Ticket>>, purged: map<ChannelId, seq<Ticket>>, live: set<Incoming>)
    requires IsPurged(before, purged, live)
    ensures Retains(purged, purged, Ids(live), {})
    ensures AllPrunable(before, live) ==> AllPrunable(purged, live)
    ensures AllWell(before) ==> AllWell(purged)
    ensures SingleEpochs(before) ==> SingleEpochs(purged)
  {
    forall c | c in live ensures QueueOf(purged, c.id) == QueueOf(before, c.id) {
      assert c.id in Ids(live);
    }
  }

  lemma RetainsFromBefore(before: map<ChannelId, seq<Ticket>>, purged: map<ChannelId, seq<Ticket>>,
                          after: map<ChannelId, seq<Ticket>>, live: set<Incoming>)
    requires IsPurged(before, purged, live)
    requires Retains(purged, after, Ids(live), live)
    ensures Retains(before, after, Ids(live), live)
  {
    forall t: Ticket ensures t.channel in Ids(live) ==> Count(purged, t) == Count(before, t) {
    }
  }

  predicate IsPurged(before: map<ChannelId, seq<Ticket>>, purged: map<ChannelId, seq<Ticket>>, live: set<Incoming>) {
    purged == map id | id in before && id in Ids(live) :: before[id]
  }

  /** Purging the queues of other channels and pruning those of the live ones, in any order,
      loses and repeats nothing. */
  lemma SyncSplits(before: map<ChannelId, seq<Ticket>>, purged: map<ChannelId, seq<Ticket>>, live: set<Incoming>,
                   done: Prunings, gone: seq<Ticket>)
    requires AllWell(before) && IsPurged(before, purged, live) && done.Entries() == live
    requires Splits(before, purged, gone)
    ensures done.Stored(purged).Keys == Ids(live)
    ensures Splits(before, done.Stored(purged), gone + done.Gone(purged))
  {
    PurgedRetains(before, purged, live);
    done.StaysWell(purged);
    done.Keys(purged);
    SplitsStep(before, purged, done.Stored(purged), gone, done.Gone(purged));
  }

  /** If the queues are prunable it retains exactly the redeemable tickets of the live channels. */
  lemma SyncRetains(before: map<ChannelId, seq<Ticket>>, purged: map<ChannelId, seq<Ticket>>, live: set<Incoming>,
                    done: Prunings)
    requires AllWell(before) && IsPurged(before, purged, live) && done.Entries() == live
    requires AllPrunable(before, live)
    ensures Retains(before, done.Stored(purged), Ids(live), live)
  {
    PurgedRetains(before, purged, live);
    done.RetainsRedeemables(purged, live, Ids(live));
    RetainsFromBefore(before, purged, done.Stored(purged), live);
  }

  /** Each channel has one entry. */
  ghost predicate OneEntryEach(live: set<Incoming>) {
    forall c, d :: c in live && d in live && c.id == d.id ==> c == d
  }

  /** With one entry for each channel, only if they are. */
  lemma SyncRetainsIsPrunable(before: map<ChannelId, seq<Ticket>>, purged: map<ChannelId, seq<Ticket>>,
                              live: set<Incoming>, done: Prunings)
    requires AllWell(before) && IsPurged(before, purged, live) && done.Entries() == live && OneEntryEach(live)
    requires Retains(before, done.Stored(purged), Ids(live), live)
    ensures AllPrunable(before, live)
  {
    PurgedRetains(before, purged, live);
    done.StaysWell(purged);
    forall c | c in live ensures Prunable(QueueOf(before, c.id), c) {
      assert c.id in Ids(live) && QueueOf(purged, c.id) == QueueOf(before, c.id);
      done.StoredAt(purged, c);
      RetainedAreRedeemable(before, done.Stored(purged), live, c);
      PruneIsExact(QueueOf(before, c.id), c);
    }
  }

  lemma RetainedAreRedeemable(before: map<ChannelId, seq<Ticket>>, after: map<ChannelId, seq<Ticket>>,
                              live: set<Incoming>, c: Incoming)
    requires AllWell(after) && c in live && Retains(before, after, Ids(live), live)
    ensures forall t :: t in QueueOf(after, c.id) ==> c.Redeems(t)
  {
    forall t | t in QueueOf(after, c.id) ensures c.Redeems(t) {
      assert t in multiset(after[c.id]) && t.channel == c.id && Count(after, t) > 0;
    }
  }

  lemma SyncKeepsSingleEpochs(before: map<ChannelId, seq<Ticket>>, purged: map<ChannelId, seq<Ticket>>,
                              live: set<Incoming>, done: Prunings)
    requires AllWell(before) && IsPurged(before, purged, live) && SingleEpochs(before)
    ensures SingleEpochs(done.Stored(purged)) && AllPrunable(before, live)
  {
    PurgedRetains(before, purged, live);
    done.StaysWell(purged);
    SingleEpochsArePrunable(before, live);
  }

  lemma RetainsIsExact(before: map<ChannelId, seq<Ticket>>, after: map<ChannelId, seq<Ticket>>, incoming: set<Incoming>)
    requires Retains(before, after, Ids(Live(incoming)), Live(incoming))
    ensures forall t :: Count(after, t) == if IsRetained(incoming, t) then Count(before, t) else 0
  {
    forall t ensures Count(after, t) == if IsRetained(incoming, t) then Count(before, t) else 0 {
      LiveIsRetained(incoming, t);
    }
  }

  lemma LiveIdsAreExact(incoming: set<Incoming>)
    ensures forall id :: id in Ids(Live(incoming)) <==> exists c :: c in incoming && !c.closed && c.id == id
  {
    forall id ensures id in Ids(Live(incoming)) <==> exists c :: c in incoming && !c.closed && c.id == id {
      LiveIsRetained(incoming, Ticket(id, 0, 0, 0, 0));
    }
  }

  datatype Received = Accepted(neglected: seq<Ticket>) | QueueNotEmpty

  /** The loop that pops unredeemable tickets off a queue. */
  method PopUnredeemable(q: seq<Ticket>, c: Incoming) returns (neglected: seq<Ticket>, queue: seq<Ticket>)
    ensures neglected + queue == q && neglected == Dropped(q, c) && queue == Prune(q, c)
  {
    neglected, queue := [], q;
    while queue != [] && (queue[0].epoch < c.epoch || queue[0].index < c.ticketIndex)
      invariant neglected + queue == q
      invariant Prune(queue, c) == Prune(q, c) && neglected + Dropped(queue, c) == Dropped(q, c)
      decreases |queue|
    {
      neglected := neglected + [queue[0]];
      queue := queue[1..];
    }
  }

  /** `stored` are the queues of the store.  An opened queue shares its tickets with the store,
      so the two are kept equal. */
  class TicketManager {
    var stored: map<ChannelId, seq<Ticket>>
    var channels: map<ChannelId, Channel>

    ghost predicate Valid()
      reads this
    {
      Consistent(stored, channels)
    }

    constructor (stored: map<ChannelId, seq<Ticket>>)
      requires forall id :: id in stored ==> StoredWell(id, stored[id])
      ensures Valid() && this.stored == stored && channels == map[]
    {
      this.stored := stored;
      channels := map[];
    }

    /** Splits the stored tickets into retained and returned ones.  When the queues are prunable,
        as those of one epoch are, the retained ones are exactly the redeemable tickets of the
        channels that are not closed; with one entry for each channel, only then. */
    method SyncFromIncomingChannels(incoming: set<Incoming>) returns (neglected: seq<Ticket>)
      requires Valid()
      modifies this
      ensures Valid() && stored.Keys == channels.Keys == Ids(Live(incoming))
      ensures Splits(old(stored), stored, neglected)
      ensures AllPrunable(old(stored), Live(incoming)) ==> Retains(old(stored), stored, Ids(Live(incoming)), Live(incoming))
      ensures OneEntryEach(Live(incoming)) && Retains(old(stored), stored, Ids(Live(incoming)), Live(incoming)) ==>
                AllPrunable(old(stored), Live(incoming))
      ensures SingleEpochs(old(stored)) ==> SingleEpochs(stored) && AllPrunable(old(stored), Live(incoming))
      ensures forall id :: id in stored <==> exists c :: c in incoming && !c.closed && c.id == id
      ensures SingleEpochs(old(stored)) ==>
                forall t :: Count(stored, t) == if IsRetained(incoming, t) then Count(old(stored), t) else 0
    {
      ghost var before := stored;
      neglected := PurgeClosed(incoming);
      ghost var purged := stored;
      var gone, done := OpenLive(incoming);
      SyncSplits(before, purged, Live(incoming), done, neglected);
      if AllPrunable(before, Live(incoming)) {
        SyncRetains(before, purged, Live(incoming), done);
      }
      if OneEntryEach(Live(incoming)) && Retains(before, stored, Ids(Live(incoming)), Live(incoming)) {
        SyncRetainsIsPrunable(before, purged, Live(incoming), done);
      }
      if SingleEpochs(before) {
        SyncKeepsSingleEpochs(before, purged, Live(incoming), done);
        SyncRetains(before, purged, Live(incoming), done);
        RetainsIsExact(before, stored, incoming);
      }
      LiveIdsAreExact(incoming);
      neglected := neglected + gone;
    }

    /** Opens the queues of the channels that are not closed and prunes them, entry by entry. */
    method OpenLive(incoming: set<Incoming>) returns (gone: seq<Ticket>, ghost done: Prunings)
      requires Valid() && channels.Keys <= stored.Keys <= Ids(Live(incoming))
      modifies this
      ensures Valid() && channels.Keys == Ids(Live(incoming)) && done.Entries() == Live(incoming)
      ensures stored == done.Stored(old(stored)) && gone == done.Gone(old(stored))
    {
      ghost var purged := stored;
      done := Purged;
      var todo := Live(incoming);
      gone := [];
      while todo != {}
        invariant Valid() && Live(incoming) == done.Entries() + todo
        invariant stored == done.Stored(purged) && gone == done.Gone(purged)
        invariant Ids(done.Entries()) <= channels.Keys <= Ids(Live(incoming))
      {
        var c :| c in todo;
        var more := OpenAndPrune(c);
        IdsStep(done.Entries(), c);
        gone, done, todo := gone + more, Then(done, c), todo - {c};
      }
    }

    /** Deletes the queues of channels that are gone or closed and returns their tickets. */
    method PurgeClosed(incoming: set<Incoming>) returns (neglected: seq<Ticket>)
      requires Valid()
      modifies this
      ensures Valid() && IsPurged(old(stored), stored, Live(incoming))
      ensures Splits(old(stored), stored, neglected)
    {
      neglected := [];
      var live := Ids(Live(incoming));
      var ids := stored.Keys;
      while ids != {}
        invariant Valid() && ids <= old(stored).Keys
        invariant stored == map id | id in old(stored) && (id in ids || id in live) :: old(stored)[id]
        invariant Splits(old(stored), stored, neglected)
      {
        var id :| id in ids;
        if id !in live {
          ghost var before := stored;
          var gone := DeleteQueue(id);
          SplitsStep(old(stored), before, stored, neglected, gone);
          neglected := neglected + gone;
        }
        ids := ids - {id};
      }
    }

    method DeleteQueue(id: ChannelId) returns (gone: seq<Ticket>)
      requires Valid() && id in stored
      modifies this
      ensures Valid() && stored == old(stored) - {id} && channels == old(channels) - {id}
      ensures gone == old(stored)[id] && Splits(old(stored), stored, gone)
    {
      gone := stored[id];
      QueueSplits(stored, id, gone, []);
      stored := stored - {id};
      channels := channels - {id};
    }

    /** Opens the queue of `c`, or creates it, and pops tickets off it up to the first that can
        still be redeemed. */
    method OpenAndPrune(c: Incoming) returns (neglected: seq<Ticket>)
      requires Valid()
      modifies this
      ensures Valid() && channels.Keys == old(channels).Keys + {c.id}
      ensures stored == Pruned(old(stored), c)
      ensures neglected == Dropped(QueueOf(old(stored), c.id), c)
    {
      var queue;
      neglected, queue := PopUnredeemable(QueueOf(stored, c.id), c);
      OpeningStaysConsistent(stored, channels, c, queue);
      stored := stored[c.id := queue];
      channels := channels[c.id := Opened(queue)];
    }

    /** A winning ticket arrives.  The first ticket of a channel opens its queue, which must be
        empty in the store. */
    method InsertIncomingTicket(t: Ticket) returns (r: Received)
      requires Valid()
      modifies this
      ensures Valid() && (SingleEpochs(old(stored)) ==> SingleEpochs(stored))
      ensures r.QueueNotEmpty? <==> t.channel !in old(channels) && t.channel in old(stored) && old(stored)[t.channel] != []
      ensures r.QueueNotEmpty? ==> stored == old(stored) && channels == old(channels)
      ensures r.Accepted? ==>
                var c := if t.channel in old(channels) then old(channels)[t.channel]
                         else Opened([]);
                && channels == old(channels)[t.channel := c.Insert(t)]
                && stored == old(stored)[t.channel := c.Insert(t).queue.items]
                && r.neglected == c.InsertNeglects(t)
                && (SingleEpoch(c.queue.items) ==> c.KeepsLatest(t, channels[t.channel], r.neglected))
    {
      var c := Opened([]);
      if t.channel in channels {
        c := channels[t.channel];
      } else if t.channel in stored && stored[t.channel] != [] {
        return QueueNotEmpty;
      }
      c.InsertKeepsValid(t);
      InsertMatches(c, t);
      InsertStaysWell(c, t);
      StaysConsistent(stored, channels, t.channel, c.Insert(t));
      stored := stored[t.channel := c.Insert(t).queue.items];
      channels := channels[t.channel := c.Insert(t)];
      r := Accepted(c.InsertNeglects(t));
    }

    /** Neglects the tickets of a channel up to an index; `None` when there is no queue. */
    method NeglectTickets(id: ChannelId, upToIndex: Option<nat>) returns (r: Option<seq<Ticket>>)
      requires Valid()
      modifies this
      ensures Valid() && (SingleEpochs(old(stored)) ==> SingleEpochs(stored))
      ensures r.None? <==> id !in old(channels)
      ensures r.None? ==> stored == old(stored) && channels == old(channels)
      ensures r.Some? ==>
                var maxIndex := if upToIndex.Some? then upToIndex.value else MAX_TICKET_INDEX;
                && channels == old(channels)[id := old(channels)[id].Neglect(maxIndex)]
                && stored == old(stored)[id := channels[id].queue.items]
                && r.value + stored[id] == old(stored)[id]
                && (SingleEpoch(old(stored)[id]) ==>
                      forall t :: t in r.value <==> t in old(stored)[id] && t.index <= maxIndex)
    {
      if id !in channels {
        return None;
      }
      var maxIndex := if upToIndex.Some? then upToIndex.value else MAX_TICKET_INDEX;
      var c := channels[id];
      c.NeglectKeepsValid(maxIndex);
      c.NeglectSplits(maxIndex);
      NeglectStaysWell(id, c, maxIndex);
      StaysConsistent(stored, channels, id, c.Neglect(maxIndex));
      if c.queue.Managed() {
        c.NeglectIsExact(maxIndex);
      }
      r := Some(UpTo(c.queue.items, maxIndex));
      stored := stored[id := c.Neglect(maxIndex).queue.items];
      channels := channels[id := c.Neglect(maxIndex)];
    }

    /** The end of an attempt to redeem `t`, by a stream on the channel's current queue. */
    method CompleteRedemption(id: ChannelId, t: Ticket, outcome: Outcome)
      requires Valid() && id in channels
      modifies this
      ensures Valid() && (SingleEpochs(old(stored)) ==> SingleEpochs(stored))
      ensures channels == old(channels)[id := old(channels)[id].Complete(t, outcome)]
      ensures stored == old(stored)[id := channels[id].queue.items]
    {
      var c := channels[id].Complete(t, outcome);
      channels[id].CompleteKeepsValid(t, outcome);
      assert forall u :: u in c.queue.items ==> u in stored[id];
      StaysConsistent(stored, channels, id, c);
      stored := stored[id := c.queue.items];
      channels := channels[id := c];
    }

    /** `remaining_incoming_channel_stake` while the manager is alive: the balance less the value
        of every queued ticket of the channel, and zero when that is more than the balance. */
    method RemainingStake(id: ChannelId, balance: nat) returns (stake: nat)
      requires Valid()
      ensures id !in channels ==> stake == balance
      ensures id in channels ==> stake == Minus(balance, channels[id].queue.UnrealizedValue(None))
      ensures id in channels && SingleEpoch(stored[id]) ==>
                stake == if balance < Sum(stored[id]) then 0 else balance - Sum(stored[id])
    {
      var unrealized := if id in channels then channels[id].queue.UnrealizedValue(None) else 0;
      if id in channels && SingleEpoch(stored[id]) {
        channels[id].queue.FastPathIsExact();
      }
      stake := Minus(balance, unrealized);
    }
  }
}
