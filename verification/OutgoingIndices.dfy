/**
  Outgoing ticket indices over process lifetimes (ticket-manager/src/utils.rs, factory.rs).

  `Factory` is the tracker together with its durable store, as values; the classes below change
  the same state in place, each method tied to the function or relation on `Factory` that it
  computes.  `IsRun` strings these together over any number of crashes and restarts.
 */
module OutgoingIndices {
  import opened Wrappers
  import opened IndexCounter

  datatype Key = Key(channel: nat, epoch: nat)

  datatype Status = Open | PendingToClose | Closed

  datatype Channel = Channel(id: nat, epoch: nat, status: Status, ticketIndex: nat)
  {
    function KeyOf(): Key { Key(id, epoch) }
  }

  /** `OutgoingIndexEntry` when no other thread is inside a call on it. */
  datatype Entry = Entry(index: nat, dirty: bool)
  {
    function AfterIncrement(min: nat): Entry {
      Entry(Max(index, min) + 1, dirty || Max(index, min) <= MAX_TICKET_INDEX)
    }

    function Incremented(min: nat): nat {
      Cap(Max(index, min))
    }

    function AfterSet(value: nat): Entry {
      Entry(Max(index, value), dirty || index < value)
    }

    function Get(): nat { Cap(index) }
  }

  /** An entry changes as the atomic operations of a call that nothing interrupts change it. */
  lemma EntryFollowsMachine(m: Machine, t: Thread, min: nat, to: nat)
    requires m.PcOf(t).Idle?
    ensures var entry := Entry(m.index, m.dirty);
            var taken := m.Act(Begin(t, Take(min))).Step(t).Step(t).Step(t).Step(t);
            var raised := m.Act(Begin(t, Raise(to))).Step(t).Step(t);
            && entry.AfterIncrement(min) == Entry(taken.index, taken.dirty)
            && taken.calls != [] && entry.Incremented(min) == taken.calls[|taken.calls| - 1].Returned()
            && entry.AfterSet(to) == Entry(raised.index, raised.dirty)
  {
    m.Uninterrupted(t, min);
    m.UninterruptedSet(t, to);
  }

  function EntryOr(cache: map<Key, Entry>, key: Key, index: nat): Entry {
    if key in cache then cache[key] else Entry(index, true)
  }

  function OpenChannels(channels: set<Channel>): set<Channel> {
    set c | c in channels && c.status.Open?
  }

  function KeysOf(channels: set<Channel>): set<Key> {
    set c | c in channels :: c.KeyOf()
  }

  datatype Factory = Factory(cache: map<Key, Entry>, removed: set<Key>, store: map<Key, nat>)
  {
    /** The key whose entry the first index of a new epoch retires. */
    function Retires(channel: Channel): Option<Key> {
      if IssuedIndex(channel) == 0 && channel.epoch > 1 && Key(channel.id, channel.epoch - 1) in cache
      then Some(Key(channel.id, channel.epoch - 1))
      else None
    }

    function IssuedIndex(channel: Channel): nat {
      EntryOr(cache, channel.KeyOf(), 0).Incremented(channel.ticketIndex)
    }

    function Issue(channel: Channel): Factory {
      var entry := EntryOr(cache, channel.KeyOf(), 0).AfterIncrement(channel.ticketIndex);
      var issued := this.(cache := cache[channel.KeyOf() := entry]);
      match Retires(channel)
      case None => issued
      case Some(previous) => issued.(cache := issued.cache - {previous}, removed := removed + {previous})
    }

    function DirtyKeys(): set<Key> {
      set k | k in cache && cache[k].dirty
    }

    function Written(keys: set<Key>): Factory {
      Factory(
        map k | k in cache :: if k in keys then cache[k].(dirty := false) else cache[k],
        removed,
        store + map k | k in keys && k in cache :: cache[k].Get())
    }

    lemma WrittenStep(keys: set<Key>, k: Key)
      requires k in cache
      ensures var w := Written(keys);
              Written(keys + {k})
              == Factory(w.cache[k := w.cache[k].(dirty := false)], removed, w.store[k := w.cache[k].Get()])
    {
      var w := Written(keys);
      assert Written(keys + {k}).cache == w.cache[k := w.cache[k].(dirty := false)];
      assert Written(keys + {k}).store == w.store[k := w.cache[k].Get()];
    }

    function Deleted(keys: set<Key>): Factory {
      Factory(cache, removed - keys, store - keys)
    }

    /** A save in which the store rejects the write or deletion of each key in `failing`. */
    function Save(failing: set<Key>): Factory {
      Written(DirtyKeys() - failing).Deleted(removed - failing)
    }

    predicate SaveSucceeds(failing: set<Key>) {
      DirtyKeys() * failing == {} && removed * failing == {}
    }

    /** If `k`'s entry is clean, the store holds its index. */
    predicate InStep(k: Key) {
      k in cache && !cache[k].dirty ==> k in store && store[k] == cache[k].Get()
    }

    /** After a successful save the store holds every tracked index but those of keys that were
        marked removed, and nothing is dirty or marked any more. */
    lemma SaveMirrors(failing: set<Key>)
      requires (forall k :: InStep(k)) && SaveSucceeds(failing)
      ensures var f := Save(failing);
              && f.cache.Keys == cache.Keys && f.removed == {}
              && (forall k :: k in cache ==> f.cache[k] == Entry(cache[k].index, false))
              && (forall k :: k in cache && k !in removed ==> k in f.store && f.store[k] == Cap(cache[k].index))
              && (forall k :: k in removed ==> k !in f.store)
    {
      assert forall k :: k in DirtyKeys() ==> k !in DirtyKeys() * failing;
      assert DirtyKeys() - failing == DirtyKeys();
      assert forall k :: k in removed ==> k !in removed * failing;
      assert removed - failing == removed;
      assert forall k :: k in cache ==> InStep(k);
    }

    /** What synchronizing with the open channels `open` makes of the entry of one of their keys:
        its index is the largest of what the tracker had, what the store had, and the ticket
        indices of the open channels with that key. */
    ghost predicate IsSynced(open: set<Channel>, key: Key, entry: Entry) {
      var before := EntryOr(cache, key, 0);
      var resumed := Max(before.index, if key in store then store[key] else 0);
      && resumed <= entry.index
      && (forall c :: c in open && c.KeyOf() == key ==> c.ticketIndex <= entry.index)
      && (entry.index == resumed || exists c :: c in open && c.KeyOf() == key && c.ticketIndex == entry.index)
      && entry.dirty == (before.dirty || before.index < entry.index)
    }

    ghost predicate SyncsCache(open: set<Channel>, after: map<Key, Entry>) {
      && after.Keys == cache.Keys + KeysOf(open)
      && (forall k :: k in cache && k !in KeysOf(open) ==> after[k] == cache[k])
      && (forall k :: k in KeysOf(open) ==> IsSynced(open, k, after[k]))
    }

    ghost predicate Syncs(channels: set<Channel>, after: Factory) {
      && after.removed == removed
      && after.store == (map k | k in store && k in KeysOf(OpenChannels(channels)) :: store[k])
      && SyncsCache(OpenChannels(channels), after.cache)
    }

    lemma SyncedEntry(done: set<Channel>, current: map<Key, Entry>, c: Channel)
      requires SyncsCache(done, current)
      ensures var key := c.KeyOf();
              var index := Max(if key in store then store[key] else 0, c.ticketIndex);
              IsSynced(done + {c}, key, EntryOr(current, key, index).AfterSet(index))
    {
      var key := c.KeyOf();
      if key in KeysOf(done) {
        assert IsSynced(done, key, current[key]);
      }
      assert c in done + {c};
    }

    lemma SyncStep(done: set<Channel>, current: map<Key, Entry>, c: Channel)
      requires SyncsCache(done, current)
      ensures var key := c.KeyOf();
              var index := Max(if key in store then store[key] else 0, c.ticketIndex);
              SyncsCache(done + {c}, current[key := EntryOr(current, key, index).AfterSet(index)])
    {
      var key := c.KeyOf();
      var index := Max(if key in store then store[key] else 0, c.ticketIndex);
      var entry := EntryOr(current, key, index).AfterSet(index);
      assert KeysOf(done + {c}) == KeysOf(done) + {key};
      SyncedEntry(done, current, c);
      forall k | k in KeysOf(done) && k != key ensures IsSynced(done + {c}, k, current[k]) {
        assert IsSynced(done, k, current[k]);
      }
    }
  }

  // ----- The operations in place -----

  class IndexStore {
    var indices: map<Key, nat>

    constructor ()
      ensures indices == map[]
    {
      indices := map[];
    }
  }

  class OutgoingIndexCache {
    var cache: map<Key, Entry>
    var removed: set<Key>

    constructor ()
      ensures cache == map[] && removed == {}
    {
      cache, removed := map[], {};
    }

    method NextAtLeast(key: Key, min: nat) returns (index: nat)
      modifies this`cache
      ensures index == EntryOr(old(cache), key, 0).Incremented(min)
      ensures cache == old(cache)[key := EntryOr(old(cache), key, 0).AfterIncrement(min)]
    {
      var entry := EntryOr(cache, key, 0);
      index := entry.Incremented(min);
      cache := cache[key := entry.AfterIncrement(min)];
    }

    method Upsert(key: Key, index: nat) returns (current: nat)
      modifies this`cache
      ensures current == Cap(Max(EntryOr(old(cache), key, index).index, index))
      ensures cache == old(cache)[key := EntryOr(old(cache), key, index).AfterSet(index)]
    {
      var entry := EntryOr(cache, key, index).AfterSet(index);
      current := entry.Get();
      cache := cache[key := entry];
    }

    method Remove(key: Key) returns (found: bool)
      modifies this
      ensures found == (key in old(cache))
      ensures cache == old(cache) - {key}
      ensures removed == if found then old(removed) + {key} else old(removed)
    {
      found := key in cache;
      if found {
        cache := cache - {key};
        removed := removed + {key};
      }
    }

    /** Saves the dirty entries and deletes the removed ones; goes on after a failure and reports
        how many there were. */
    method Save(store: IndexStore, failing: set<Key>) returns (failed: nat)
      modifies this, store
      ensures Factory(cache, removed, store.indices)
              == old(Factory(cache, removed, store.indices)).Save(failing)
      ensures failed == 0 <==> old(Factory(cache, removed, store.indices)).SaveSucceeds(failing)
    {
      var unwritten := WriteDirty(store, failing);
      var undeleted := DeleteRemoved(store, failing);
      failed := unwritten + undeleted;
    }

    method WriteDirty(store: IndexStore, failing: set<Key>) returns (failed: nat)
      modifies this`cache, store
      ensures var before := old(Factory(cache, removed, store.indices));
              && Factory(cache, removed, store.indices) == before.Written(before.DirtyKeys() - failing)
              && (failed == 0 <==> before.DirtyKeys() * failing == {})
    {
      ghost var before := Factory(cache, removed, store.indices);
      failed := 0;
      var todo := set k | k in cache && cache[k].dirty;
      ghost var done: set<Key> := {};
      while todo != {}
        invariant before.DirtyKeys() == todo + done
        invariant Factory(cache, removed, store.indices) == before.Written(done - failing)
        invariant failed == 0 <==> done * failing == {}
      {
        var k :| k in todo;
        if k in failing {
          failed := failed + 1;
          assert done + {k} - failing == done - failing;
        } else {
          before.WrittenStep(done - failing, k);
          assert done + {k} - failing == done - failing + {k};
          store.indices := store.indices[k := cache[k].Get()];
          cache := cache[k := cache[k].(dirty := false)];
        }
        todo, done := todo - {k}, done + {k};
      }
    }

    method DeleteRemoved(store: IndexStore, failing: set<Key>) returns (failed: nat)
      modifies this`removed, store
      ensures var before := old(Factory(cache, removed, store.indices));
              && Factory(cache, removed, store.indices) == before.Deleted(before.removed - failing)
              && (failed == 0 <==> before.removed * failing == {})
    {
      ghost var before := Factory(cache, removed, store.indices);
      failed := 0;
      var todo := removed;
      ghost var done: set<Key> := {};
      while todo != {}
        invariant before.removed == todo + done && todo !! done
        invariant Factory(cache, removed, store.indices) == before.Deleted(done - failing)
        invariant failed == 0 <==> done * failing == {}
      {
        var k :| k in todo;
        if k in failing {
          failed := failed + 1;
        } else {
          store.indices := store.indices - {k};
          removed := removed - {k};
        }
        todo, done := todo - {k}, done + {k};
      }
    }
  }

  class TicketFactory {
    const tracker: OutgoingIndexCache
    const store: IndexStore

    constructor (tracker: OutgoingIndexCache, store: IndexStore)
      ensures this.tracker == tracker && this.store == store
    {
      this.tracker, this.store := tracker, store;
    }

    ghost function Model(): Factory
      reads this, tracker, store
    {
      Factory(tracker.cache, tracker.removed, store.indices)
    }

    method NextOutgoingTicketIndex(channel: Channel) returns (index: nat)
      modifies tracker
      ensures index == old(Model().IssuedIndex(channel))
      ensures Model() == old(Model().Issue(channel))
    {
      index := tracker.NextAtLeast(channel.KeyOf(), channel.ticketIndex);
      if index == 0 && channel.epoch > 1 {
        var found := tracker.Remove(Key(channel.id, channel.epoch - 1));
      }
    }

    method SaveOutgoingIndices(failing: set<Key>) returns (ok: bool)
      modifies tracker, store
      ensures Model() == old(Model().Save(failing))
      ensures ok == old(Model().SaveSucceeds(failing))
    {
      var failed := tracker.Save(store, failing);
      ok := failed == 0;
    }

    method SyncFromOutgoingChannels(channels: set<Channel>)
      modifies tracker, store
      ensures old(Model()).Syncs(channels, Model())
    {
      ghost var before := Model();
      var todo := OpenChannels(channels);
      var open := KeysOf(todo);
      var stored := store.indices.Keys;
      while stored != {}
        invariant stored <= before.store.Keys
        invariant store.indices == map k | k in before.store && (k in stored || k in open) :: before.store[k]
        invariant tracker.cache == before.cache && tracker.removed == before.removed
      {
        var k :| k in stored;
        if k !in open {
          store.indices := store.indices - {k};
        }
        stored := stored - {k};
      }
      ghost var done: set<Channel> := {};
      while todo != {}
        invariant done + todo == OpenChannels(channels)
        invariant before.SyncsCache(done, tracker.cache)
        invariant store.indices == map k | k in before.store && k in open :: before.store[k]
        invariant tracker.removed == before.removed
      {
        var c :| c in todo;
        var index := if c.KeyOf() in store.indices then store.indices[c.KeyOf()] else 0;
        before.SyncStep(done, tracker.cache, c);
        var current := tracker.Upsert(c.KeyOf(), Max(index, c.ticketIndex));
        todo, done := todo - {c}, done + {c};
      }
    }
  }

  // ----- Runs over any number of process lifetimes -----

  /** `Boot` is a crash followed by the synchronization that a new process starts with. */
  datatype Event =
    | Boot(channels: set<Channel>)
    | Sync(channels: set<Channel>)
    | Issued(channel: Channel, index: nat)
    | Saved(failing: set<Key>, ok: bool)
  {
    predicate Issues(k: Key) { Issued? && channel.KeyOf() == k }

    /** A synchronization that does not find the channel of `k` open in that epoch. */
    ghost predicate Misses(k: Key) {
      (Boot? || Sync?) && !exists c :: c in channels && c.status == Open && c.id == k.channel && c.epoch == k.epoch
    }

    /** A synchronization that finds the channel of `k` with a ticket index above `v`. */
    ghost predicate Lifts(k: Key, v: nat) {
      (Boot? || Sync?) &&
      exists c :: c in channels && c.status == Open && c.id == k.channel && c.epoch == k.epoch && v < c.ticketIndex
    }
  }

  ghost predicate Next(f: Factory, e: Event, g: Factory) {
    match e
    case Boot(channels) => Factory(map[], {}, f.store).Syncs(channels, g)
    case Sync(channels) => f.Syncs(channels, g)
    case Issued(channel, index) => g == f.Issue(channel) && index == f.IssuedIndex(channel)
    case Saved(failing, ok) => g == f.Save(failing) && ok == f.SaveSucceeds(failing)
  }

  /** A run on a store that holds whatever `fs[0]` says; `fs[i]` is the state before `es[i]`. */
  ghost predicate IsRun(fs: seq<Factory>, es: seq<Event>) {
    && |fs| == |es| + 1
    && fs[0].cache == map[] && fs[0].removed == {}
    && forall i :: 0 <= i < |es| ==> Next(fs[i], es[i], fs[i + 1])
  }

  ghost predicate NoBoot(es: seq<Event>, i: nat, n: nat)
    requires n <= |es|
  {
    forall j :: i < j < n ==> !es[j].Boot?
  }

  /** The event is the first issue of the next epoch that drops the entry of `k`. */
  predicate Retired(f: Factory, e: Event, k: Key) {
    && e.Issued? && e.index == 0 && 1 < e.channel.epoch
    && e.channel.id == k.channel && e.channel.epoch == k.epoch + 1 && k in f.cache
  }

  lemma MissesExactly(e: Event, k: Key)
    requires e.Boot? || e.Sync?
    ensures e.Misses(k) <==> k !in KeysOf(OpenChannels(e.channels))
  {
    if k in KeysOf(OpenChannels(e.channels)) {
      var c :| c in OpenChannels(e.channels) && c.KeyOf() == k;
      assert c in e.channels && c.status == Open;
    }
    if c :| c in e.channels && c.status == Open && c.id == k.channel && c.epoch == k.epoch {
      assert c in OpenChannels(e.channels) && c.KeyOf() == k;
    }
  }

  lemma LiftsExactly(e: Event, k: Key, v: nat)
    requires e.Boot? || e.Sync?
    ensures e.Lifts(k, v) <==> exists c :: c in OpenChannels(e.channels) && c.KeyOf() == k && v < c.ticketIndex
  {
    if c :| c in e.channels && c.status == Open && c.id == k.channel && c.epoch == k.epoch && v < c.ticketIndex {
      assert c in OpenChannels(e.channels) && c.KeyOf() == k;
    }
    if c :| c in OpenChannels(e.channels) && c.KeyOf() == k && v < c.ticketIndex {
      assert c in e.channels && c.status == Open;
    }
  }

  ghost predicate NoneRetires(fs: seq<Factory>, es: seq<Event>, k: Key, i: nat, n: nat)
    requires n <= |es| <= |fs|
  {
    forall m :: i < m < n ==> !Retired(fs[m], es[m], k)
  }

  // ----- What is issued again, and what is not -----

  /** The counter of `k` has gone past `v`. */
  predicate Past(f: Factory, k: Key, v: nat) { k in f.cache && v < f.cache[k].index }

  predicate Stored(f: Factory, k: Key, v: nat) { k in f.store && v < f.store[k] }

  predicate IsDirty(f: Factory, k: Key) { k in f.cache && f.cache[k].dirty }

  /** The event makes the tracker forget that it has gone past `v`. */
  ghost predicate Forgets(f: Factory, e: Event, k: Key, v: nat) {
    Retired(f, e, k) || (e.Boot? && (e.Misses(k) || !Stored(f, k, v)))
  }

  /** A synchronization that brings the counter of `k` past `v`, wherever it was. */
  ghost predicate Restores(f: Factory, e: Event, k: Key, v: nat) {
    e.Sync? && (e.Lifts(k, v) || (Stored(f, k, v) && !e.Misses(k)))
  }

  /** What is issued for `k` is above `v` exactly when the counter is past it, unless the channel
      itself is. */
  lemma IssueReadsPast(f: Factory, c: Channel, v: nat)
    requires v < MAX_TICKET_INDEX
    ensures v < f.IssuedIndex(c) <==> Past(f, c.KeyOf(), v) || v < c.ticketIndex
  {
  }

  /** A counter that is past `v` stays past it exactly when the event does not forget it; what does
      bring it past `v` is issuing, restoring, and a restart when the channel itself is. */
  lemma EventKeepsPast(f: Factory, e: Event, g: Factory, k: Key, v: nat)
    requires Next(f, e, g)
    ensures Past(f, k, v) && !e.Boot? ==> (Past(g, k, v) <==> !Forgets(f, e, k, v))
    ensures e.Boot? ==> (Past(g, k, v) <==> !Forgets(f, e, k, v) || e.Lifts(k, v))
    ensures !Past(f, k, v) && !e.Boot? && !e.Issues(k) ==> (Past(g, k, v) <==> Restores(f, e, k, v))
  {
    if e.Boot? || e.Sync? {
      MissesExactly(e, k);
      LiftsExactly(e, k, v);
      var from := if e.Boot? then Factory(map[], {}, f.store) else f;
      var open := OpenChannels(e.channels);
      if k in KeysOf(open) {
        assert from.IsSynced(open, k, g.cache[k]);
      }
    }
  }

  lemma RememberedStaysPast(f: Factory, e: Event, g: Factory, k: Key, v: nat)
    requires Next(f, e, g) && Past(f, k, v) && !Forgets(f, e, k, v)
    ensures Past(g, k, v)
  {
    EventKeepsPast(f, e, g, k, v);
  }

  lemma {:induction false} StaysPast(fs: seq<Factory>, es: seq<Event>, k: Key, v: nat, i: nat, n: nat)
    requires IsRun(fs, es) && i < n <= |es| && Past(fs[i + 1], k, v)
    requires forall m :: i < m < n ==> !Forgets(fs[m], es[m], k, v)
    ensures Past(fs[n], k, v)
  {
    if i + 1 < n {
      StaysPast(fs, es, k, v, i, n - 1);
      assert Next(fs[n - 1], es[n - 1], fs[n]);
      RememberedStaysPast(fs[n - 1], es[n - 1], fs[n], k, v);
    }
  }

  /** Once an index below the maximum is issued, whatever is issued later for the same channel and
      epoch is larger, in any lifetime, as long as nothing in between makes the tracker forget. */
  lemma NeverReissued(fs: seq<Factory>, es: seq<Event>, k: Key, i: nat, j: nat)
    requires IsRun(fs, es)
    requires i < j < |es| && es[i].Issues(k) && es[j].Issues(k) && es[i].index < MAX_TICKET_INDEX
    requires forall m :: i < m < j ==> !Forgets(fs[m], es[m], k, es[i].index)
    ensures es[i].index < es[j].index
  {
    assert Next(fs[i], es[i], fs[i + 1]) && Next(fs[j], es[j], fs[j + 1]);
    StaysPast(fs, es, k, es[i].index, i, j);
    IssueReadsPast(fs[j], es[j].channel, es[i].index);
  }

  /** After event `i` and before event `n` the process does not restart and `k` is not issued. */
  ghost predicate NoneIssues(es: seq<Event>, k: Key, i: nat, n: nat)
    requires n <= |es|
  {
    forall m :: i < m < n ==> !es[m].Boot? && !es[m].Issues(k)
  }

  /** A synchronization restored `k` and no event retired it since. */
  ghost predicate RestoredAt(fs: seq<Factory>, es: seq<Event>, k: Key, v: nat, m: nat, n: nat)
    requires m < n <= |es| <= |fs|
  {
    Restores(fs[m], es[m], k, v) && NoneRetires(fs, es, k, m, n)
  }

  /** After event `i`, the counter of `k` has not been retired, or has been restored since. */
  ghost predicate KeptOrRestored(fs: seq<Factory>, es: seq<Event>, k: Key, v: nat, i: nat, n: nat, past: bool)
    requires n <= |es| <= |fs|
  {
    (past && NoneRetires(fs, es, k, i, n)) || exists m :: i < m < n && RestoredAt(fs, es, k, v, m, n)
  }

  lemma KeptStep(fs: seq<Factory>, es: seq<Event>, k: Key, v: nat, i: nat, n: nat, past: bool)
    requires i + 1 < n <= |es| <= |fs|
    ensures KeptOrRestored(fs, es, k, v, i, n, past) <==>
            || (KeptOrRestored(fs, es, k, v, i, n - 1, past) && !Retired(fs[n - 1], es[n - 1], k))
            || Restores(fs[n - 1], es[n - 1], k, v)
  {
    var l := n - 1;
    assert NoneRetires(fs, es, k, i, n) <==> NoneRetires(fs, es, k, i, l) && !Retired(fs[l], es[l], k);
    assert forall m :: i < m < l ==>
             (RestoredAt(fs, es, k, v, m, n) <==> RestoredAt(fs, es, k, v, m, l) && !Retired(fs[l], es[l], k));
    assert RestoredAt(fs, es, k, v, l, n) <==> Restores(fs[l], es[l], k, v);
  }

  lemma {:induction false} PastIsExact(fs: seq<Factory>, es: seq<Event>, k: Key, v: nat, i: nat, n: nat)
    requires IsRun(fs, es) && i < n <= |es| && NoneIssues(es, k, i, n)
    ensures Past(fs[n], k, v) <==> KeptOrRestored(fs, es, k, v, i, n, Past(fs[i + 1], k, v))
  {
    if i + 1 < n {
      var m := n - 1;
      PastIsExact(fs, es, k, v, i, m);
      assert Next(fs[m], es[m], fs[n]);
      EventKeepsPast(fs[m], es[m], fs[n], k, v);
      KeptStep(fs, es, k, v, i, n, Past(fs[i + 1], k, v));
    }
  }

  /** In one lifetime the next issue of `k` is larger if and only if the first index of the next
      epoch did not retire `k` in between, or a synchronization restored it afterwards, or the
      channel has moved on. */
  lemma ReissueIsExact(fs: seq<Factory>, es: seq<Event>, k: Key, i: nat, j: nat)
    requires IsRun(fs, es) && i < j < |es| && NoneIssues(es, k, i, j)
    requires es[i].Issues(k) && es[j].Issues(k) && es[i].index < MAX_TICKET_INDEX
    ensures es[i].index < es[j].index <==>
            KeptOrRestored(fs, es, k, es[i].index, i, j, true) || es[i].index < es[j].channel.ticketIndex
  {
    assert Next(fs[i], es[i], fs[i + 1]) && Next(fs[j], es[j], fs[j + 1]);
    PastIsExact(fs, es, k, es[i].index, i, j);
    IssueReadsPast(fs[j], es[j].channel, es[i].index);
  }

  /** The first index of a lifetime is above `v` if and only if the restart recovers that, from the
      store for an open channel or from the channel itself, and no event retires it, or a
      synchronization restores it afterwards, or the channel has moved on. */
  lemma RestartIsExact(fs: seq<Factory>, es: seq<Event>, k: Key, v: nat, b: nat, j: nat)
    requires IsRun(fs, es) && b < j < |es| && NoneIssues(es, k, b, j)
    requires es[b].Boot? && es[j].Issues(k) && v < MAX_TICKET_INDEX
    ensures v < es[j].index <==>
            || KeptOrRestored(fs, es, k, v, b, j, es[b].Lifts(k, v) || (Stored(fs[b], k, v) && !es[b].Misses(k)))
            || v < es[j].channel.ticketIndex
  {
    assert Next(fs[b], es[b], fs[b + 1]) && Next(fs[j], es[j], fs[j + 1]);
    EventKeepsPast(fs[b], es[b], fs[b + 1], k, v);
    PastIsExact(fs, es, k, v, b, j);
    IssueReadsPast(fs[j], es[j].channel, v);
  }

  // ----- What a save is good for -----

  /** A successful save will store an index above `v`. */
  predicate Savable(f: Factory, k: Key, v: nat) {
    Past(f, k, v) && k !in f.removed && (!f.cache[k].dirty ==> Stored(f, k, v))
  }

  predicate Secured(f: Factory, k: Key, v: nat) {
    Past(f, k, v) && k !in f.removed && Stored(f, k, v)
  }

  lemma SaveSecures(f: Factory, failing: set<Key>, k: Key, v: nat)
    requires Past(f, k, v) && v < MAX_TICKET_INDEX
    ensures f.SaveSucceeds(failing) ==> (Secured(f.Save(failing), k, v) <==> Savable(f, k, v))
    ensures Savable(f, k, v) ==> Savable(f.Save(failing), k, v)
    ensures Secured(f, k, v) ==> Secured(f.Save(failing), k, v)
  {
    if f.SaveSucceeds(failing) {
      assert k in f.DirtyKeys() ==> k !in f.DirtyKeys() * failing;
      assert k in f.removed ==> k !in f.removed * failing;
    }
  }

  /** What one event does to a secured or savable index, exactly: a successful save secures what
      is savable; retirement loses it; so does a synchronization that misses the channel, but for
      an entry that is still to be saved; a restart keeps what is stored for an open channel. */
  lemma EventKeepsSecured(f: Factory, e: Event, g: Factory, k: Key, v: nat)
    requires Next(f, e, g) && v < MAX_TICKET_INDEX
    ensures Secured(f, k, v) && !e.Boot? ==> (Secured(g, k, v) <==> !Retired(f, e, k) && !e.Misses(k))
    ensures e.Boot? ==> (Secured(g, k, v) <==> Stored(f, k, v) && !e.Misses(k))
    ensures Savable(f, k, v) && !e.Boot? ==>
              (Savable(g, k, v) <==> !Retired(f, e, k) && (e.Misses(k) ==> IsDirty(f, k)))
    ensures Past(f, k, v) && e.Saved? && e.ok ==> (Secured(g, k, v) <==> Savable(f, k, v))
  {
    EventKeepsPast(f, e, g, k, v);
    if e.Saved? && Past(f, k, v) {
      SaveSecures(f, e.failing, k, v);
    }
    if e.Boot? || e.Sync? {
      MissesExactly(e, k);
    }
    if (e.Boot? || e.Sync?) && k in KeysOf(OpenChannels(e.channels)) {
      var from := if e.Boot? then Factory(map[], {}, f.store) else f;
      assert from.IsSynced(OpenChannels(e.channels), k, g.cache[k]);
    }
  }

  /** Between the issue at `i` and event `n`, with a save at `s`, no event loses the issued index:
      none retires `k`, and a synchronization misses the channel only before the save, while the
      entry is still to be saved. */
  ghost predicate NoneLoses(fs: seq<Factory>, es: seq<Event>, k: Key, i: nat, s: nat, n: nat)
    requires n <= |es| <= |fs|
  {
    forall m :: i < m < n ==>
      !Retired(fs[m], es[m], k) && (es[m].Misses(k) ==> m < s && IsDirty(fs[m], k))
  }

  lemma {:induction false} StaysSecured(fs: seq<Factory>, es: seq<Event>, k: Key, v: nat, i: nat, s: nat, n: nat)
    requires IsRun(fs, es) && i < s < |es| && i < n <= |es| && v < MAX_TICKET_INDEX
    requires es[s].Saved? && es[s].ok && NoBoot(es, i, s)
    requires Savable(fs[i + 1], k, v) && NoneLoses(fs, es, k, i, s, n)
    ensures n <= s ==> Savable(fs[n], k, v)
    ensures s < n ==> Secured(fs[n], k, v)
  {
    if i + 1 < n {
      var m := n - 1;
      StaysSecured(fs, es, k, v, i, s, m);
      assert Next(fs[m], es[m], fs[n]);
      EventKeepsSecured(fs[m], es[m], fs[n], k, v);
    }
  }

  /** An index is never issued again, in any lifetime, once a save of the lifetime that issued it
      has succeeded: crashes do no harm from then on. */
  lemma NeverReissuedOnceSaved(fs: seq<Factory>, es: seq<Event>, k: Key, i: nat, s: nat, j: nat)
    requires IsRun(fs, es) && i < s < j < |es|
    requires es[i].Issues(k) && es[j].Issues(k) && es[i].index < MAX_TICKET_INDEX
    requires es[s].Saved? && es[s].ok && NoBoot(es, i, s)
    requires k !in fs[i].removed && NoneLoses(fs, es, k, i, s, j)
    ensures es[i].index < es[j].index
  {
    var v := es[i].index;
    assert Next(fs[i], es[i], fs[i + 1]);
    assert Savable(fs[i + 1], k, v);
    forall m | i < m < j ensures !Forgets(fs[m], es[m], k, v) {
      StaysSecured(fs, es, k, v, i, s, m);
    }
    NeverReissued(fs, es, k, i, j);
  }

  /** Event `m` retired `k`, and no save since has deleted it. */
  ghost predicate AwaitsDeletion(fs: seq<Factory>, es: seq<Event>, k: Key, m: nat, n: nat)
    requires m < n <= |es| <= |fs|
  {
    && Retired(fs[m], es[m], k)
    && forall j :: m < j < n ==> !es[j].Boot? && (es[j].Saved? ==> k in es[j].failing)
  }

  /** A key is marked removed if and only if the first index of the next epoch retired it in this
      lifetime and no save since could delete it. */
  lemma {:induction false} RemovedIsExact(fs: seq<Factory>, es: seq<Event>, k: Key, n: nat)
    requires IsRun(fs, es) && n <= |es|
    ensures k in fs[n].removed <==> exists m :: 0 <= m < n && AwaitsDeletion(fs, es, k, m, n)
  {
    if n > 0 {
      var l := n - 1;
      RemovedIsExact(fs, es, k, l);
      assert Next(fs[l], es[l], fs[n]);
      if k in fs[n].removed {
        if Retired(fs[l], es[l], k) {
          assert AwaitsDeletion(fs, es, k, l, n);
        } else {
          var m :| 0 <= m < l && AwaitsDeletion(fs, es, k, m, l);
          assert AwaitsDeletion(fs, es, k, m, n);
        }
      }
      if m :| 0 <= m < n && AwaitsDeletion(fs, es, k, m, n) {
        assert m < l ==> AwaitsDeletion(fs, es, k, m, l);
      }
    }
  }

  // ----- Clean entries and the store -----

  /** Issuing leaves a clean entry out of step exactly when the channel's ticket index lifts it
      past the maximum at once: only then does the index it saves change without a mark. */
  lemma IssueKeepsInStep(f: Factory, c: Channel)
    requires f.InStep(c.KeyOf())
    ensures var k := c.KeyOf();
            f.Issue(c).InStep(k) <==>
            !(k in f.cache && !f.cache[k].dirty && f.cache[k].index < MAX_TICKET_INDEX < c.ticketIndex)
  {
    assert f.Retires(c) != Some(c.KeyOf());
  }

  /** A clean entry of a channel that the synchronization misses, whose stored index is purged; a
      clean entry lifted past the maximum at once; a retired key that is tracked again before its
      deletion. */
  ghost predicate FallsOutOfStep(f: Factory, e: Event, k: Key) {
    k in f.cache &&
    match e
    case Boot(_) => false
    case Sync(_) => e.Misses(k) && !f.cache[k].dirty
    case Issued(c, _) => e.Issues(k) && !f.cache[k].dirty && f.cache[k].index < MAX_TICKET_INDEX < c.ticketIndex
    case Saved(failing, _) => k in f.removed && k !in failing
  }

  /** One event keeps a clean entry equal to what is stored, but for those three; a restart makes
      every entry so. */
  lemma EventKeepsInStep(f: Factory, e: Event, g: Factory, k: Key)
    requires Next(f, e, g)
    ensures e.Boot? ==> g.InStep(k)
    ensures f.InStep(k) ==> (g.InStep(k) <==> !FallsOutOfStep(f, e, k))
  {
    match e
    case Boot(channels) =>
      if k in KeysOf(OpenChannels(channels)) {
        assert Factory(map[], {}, f.store).IsSynced(OpenChannels(channels), k, g.cache[k]);
      }
    case Sync(channels) =>
      MissesExactly(e, k);
      if k in KeysOf(OpenChannels(channels)) {
        assert f.IsSynced(OpenChannels(channels), k, g.cache[k]);
      }
    case Issued(channel, _) =>
      if channel.KeyOf() == k && f.InStep(k) {
        IssueKeepsInStep(f, channel);
      }
    case Saved(_, _) =>
  }

  lemma RunStepKeepsInStep(fs: seq<Factory>, es: seq<Event>, k: Key, m: nat)
    requires IsRun(fs, es) && m < |es|
    requires es[m].Boot? || (fs[m].InStep(k) && !FallsOutOfStep(fs[m], es[m], k))
    ensures fs[m + 1].InStep(k)
  {
    EventKeepsInStep(fs[m], es[m], fs[m + 1], k);
  }

  lemma {:induction false} InStepSpreads(fs: seq<Factory>, k: Key, b: nat, n: nat)
    requires b <= n < |fs| && fs[b].InStep(k)
    requires forall m :: b <= m < n && fs[m].InStep(k) ==> fs[m + 1].InStep(k)
    ensures fs[n].InStep(k)
  {
    if b < n {
      InStepSpreads(fs, k, b, n - 1);
      assert fs[n - 1].InStep(k);
    }
  }

  /** In every run, the index that a clean entry holds is the one in the store, as long as none of
      them happens in the current lifetime. */
  lemma CleanIsStored(fs: seq<Factory>, es: seq<Event>, k: Key, b: nat, n: nat)
    requires IsRun(fs, es) && b <= n <= |es|
    requires b == 0 || es[b - 1].Boot?
    requires forall m :: b <= m < n ==> !FallsOutOfStep(fs[m], es[m], k)
    ensures fs[n].InStep(k)
  {
    if 0 < b {
      RunStepKeepsInStep(fs, es, k, b - 1);
    }
    forall m | b <= m < n && fs[m].InStep(k) ensures fs[m + 1].InStep(k) {
      RunStepKeepsInStep(fs, es, k, m);
    }
    InStepSpreads(fs, k, b, n);
  }

  /** The first index after a restart is exactly the larger of the stored one and the channel's
      ticket index, when the channel is open and reported once. */
  lemma RestartResumes(f: Factory, channels: set<Channel>, g: Factory, c: Channel)
    requires Next(f, Boot(channels), g) && c in OpenChannels(channels)
    requires forall d :: d in OpenChannels(channels) && d.KeyOf() == c.KeyOf() ==> d == c
    ensures g.IssuedIndex(c) == Cap(Max(if c.KeyOf() in f.store then f.store[c.KeyOf()] else 0, c.ticketIndex))
  {
    assert Factory(map[], {}, f.store).IsSynced(OpenChannels(channels), c.KeyOf(), g.cache[c.KeyOf()]);
  }

  // ----- What is issued again -----

  lemma BootAlone(c: Channel, store: map<Key, nat>)
    requires c.status.Open? && store.Keys <= {c.KeyOf()}
    ensures var index := Max(if c.KeyOf() in store then store[c.KeyOf()] else 0, c.ticketIndex);
            Factory(map[], {}, store).Syncs({c}, Factory(map[c.KeyOf() := Entry(index, true)], {}, store))
  {
    assert OpenChannels({c}) == {c} && KeysOf({c}) == {c.KeyOf()};
    assert c in {c};
  }

  lemma FirstIssue(c: Channel)
    requires c.ticketIndex == 0 && 0 < MAX_TICKET_INDEX
    ensures var f := Factory(map[c.KeyOf() := Entry(0, true)], {}, map[]);
            && f.Issue(c) == Factory(map[c.KeyOf() := Entry(1, true)], {}, map[])
            && f.IssuedIndex(c) == 0
  {
    assert c.epoch > 1 ==> Key(c.id, c.epoch - 1) != c.KeyOf();
  }

  lemma SaveAlone(k: Key, i: nat)
    ensures var f := Factory(map[k := Entry(i, true)], {}, map[]);
            && f.Save({}) == Factory(map[k := Entry(i, false)], {}, map[k := Cap(i)])
            && f.SaveSucceeds({})
  {
    var f := Factory(map[k := Entry(i, true)], {}, map[]);
    assert f.DirtyKeys() - {} == {k};
    f.WrittenStep({}, k);
    assert f.Written({}) == f;
  }

  /** A save in the next lifetime is too late for what the crash lost. */
  lemma LateSaveReissues(c: Channel) returns (fs: seq<Factory>, es: seq<Event>)
    requires c.status.Open? && c.ticketIndex == 0 && 0 < MAX_TICKET_INDEX
    ensures es == [Boot({c}), Issued(c, 0), Boot({c}), Saved({}, true), Issued(c, 0)]
    ensures IsRun(fs, es) && NoneRetires(fs, es, c.KeyOf(), 1, 4) && forall m :: 0 <= m < 5 ==> !es[m].Misses(c.KeyOf())
  {
    var k := c.KeyOf();
    BootAlone(c, map[]);
    FirstIssue(c);
    SaveAlone(k, 0);
    var booted := Factory(map[k := Entry(0, true)], {}, map[]);
    var issued := Factory(map[k := Entry(1, true)], {}, map[]);
    var saved := Factory(map[k := Entry(0, false)], {}, map[k := 0]);
    fs := [Factory(map[], {}, map[]), booted, issued, booted, saved, saved.Issue(c)];
    es := [Boot({c}), Issued(c, 0), Boot({c}), Saved({}, true), Issued(c, 0)];
    assert k in KeysOf(OpenChannels({c})) by { assert c in OpenChannels({c}); }
  }

  /** Returning to an epoch after the next one has started reissues its indices at once. */
  lemma EarlierEpochReissues(c: Channel) returns (fs: seq<Factory>, es: seq<Event>)
    requires c.status.Open? && c.ticketIndex == 0 && 0 < c.epoch && 0 < MAX_TICKET_INDEX
    ensures es == [Boot({c}), Issued(c, 0), Issued(c.(epoch := c.epoch + 1), 0), Issued(c, 0)]
    ensures IsRun(fs, es) && NoBoot(es, 1, 3) && Retired(fs[2], es[2], c.KeyOf())
  {
    var k, d := c.KeyOf(), c.(epoch := c.epoch + 1);
    BootAlone(c, map[]);
    FirstIssue(c);
    var booted := Factory(map[k := Entry(0, true)], {}, map[]);
    var issued := Factory(map[k := Entry(1, true)], {}, map[]);
    var moved := Factory(map[d.KeyOf() := Entry(1, true)], {k}, map[]);
    assert issued.Retires(d) == Some(k);
    assert issued.Issue(d) == moved;
    fs := [Factory(map[], {}, map[]), booted, issued, moved, moved.Issue(c)];
    es := [Boot({c}), Issued(c, 0), Issued(d, 0), Issued(c, 0)];
  }

  /** A channel that a synchronization does not find open loses its saved index. */
  lemma ClosedAtBootReissues(c: Channel) returns (fs: seq<Factory>, es: seq<Event>)
    requires c.status.Open? && c.ticketIndex == 0 && 0 < MAX_TICKET_INDEX
    ensures es == [Boot({c}), Issued(c, 0), Saved({}, true), Boot({}), Issued(c, 0)]
    ensures IsRun(fs, es) && NoneRetires(fs, es, c.KeyOf(), 1, 4) && es[3].Misses(c.KeyOf())
  {
    var k := c.KeyOf();
    BootAlone(c, map[]);
    FirstIssue(c);
    SaveAlone(k, 1);
    var booted := Factory(map[k := Entry(0, true)], {}, map[]);
    var issued := Factory(map[k := Entry(1, true)], {}, map[]);
    var saved := Factory(map[k := Entry(1, false)], {}, map[k := 1]);
    var purged := Factory(map[], {}, map[]);
    assert KeysOf(OpenChannels({})) == {};
    fs := [purged, booted, issued, saved, purged, purged.Issue(c)];
    es := [Boot({c}), Issued(c, 0), Saved({}, true), Boot({}), Issued(c, 0)];
  }

  /** A synchronization that misses the channel purges the index of a clean entry.  When the channel
      is back, a save succeeds without storing it, and the restart issues it again. */
  lemma PurgedWhileCleanReissues(c: Channel) returns (fs: seq<Factory>, es: seq<Event>)
    requires c.status.Open? && c.ticketIndex == 0 && 0 < MAX_TICKET_INDEX
    ensures es == [Boot({c}), Issued(c, 0), Saved({}, true), Sync({}), Sync({c}), Saved({}, true), Boot({c}), Issued(c, 0)]
    ensures IsRun(fs, es) && !fs[4].InStep(c.KeyOf()) && !fs[6].InStep(c.KeyOf())
  {
    var k := c.KeyOf();
    BootAlone(c, map[]);
    FirstIssue(c);
    SaveAlone(k, 1);
    SyncAlone(c);
    var booted := Factory(map[k := Entry(0, true)], {}, map[]);
    var issued := Factory(map[k := Entry(1, true)], {}, map[]);
    var saved := Factory(map[k := Entry(1, false)], {}, map[k := 1]);
    var purged := Factory(map[k := Entry(1, false)], {}, map[]);
    fs := [Factory(map[], {}, map[]), booted, issued, saved, purged, purged, purged, booted, booted.Issue(c)];
    es := [Boot({c}), Issued(c, 0), Saved({}, true), Sync({}), Sync({c}), Saved({}, true), Boot({c}), Issued(c, 0)];
  }

  /** A clean entry through a synchronization without its channel, one with it, and a save. */
  lemma SyncAlone(c: Channel)
    requires c.status.Open? && c.ticketIndex == 0
    ensures var k := c.KeyOf();
            var purged := Factory(map[k := Entry(1, false)], {}, map[]);
            && purged.(store := map[k := 1]).Syncs({}, purged)
            && purged.Syncs({c}, purged) && purged.Save({}) == purged && purged.SaveSucceeds({})
  {
    var purged := Factory(map[c.KeyOf() := Entry(1, false)], {}, map[]);
    assert OpenChannels({}) == {} && OpenChannels({c}) == {c} && KeysOf({c}) == {c.KeyOf()};
    assert purged.DirtyKeys() - {} == {};
    assert purged.Written({}) == purged;
  }

  /** A retired key that is tracked again before its deletion: the save that deletes it succeeds,
      leaves its entry clean and its index unsaved. */
  lemma RetrackedIsUnsaved(c: Channel) returns (fs: seq<Factory>, es: seq<Event>)
    requires c.status.Open? && c.ticketIndex == 0 && 0 < c.epoch && 0 < MAX_TICKET_INDEX
    ensures es == [Boot({c}), Issued(c, 0), Issued(c.(epoch := c.epoch + 1), 0), Issued(c, 0), Saved({}, true)]
    ensures IsRun(fs, es) && fs[4].InStep(c.KeyOf()) && !fs[5].InStep(c.KeyOf())
  {
    var fs0, es0 := EarlierEpochReissues(c);
    var k := c.KeyOf();
    var f := fs0[4];
    assert Next(fs0[2], es0[2], fs0[3]) && Next(fs0[3], es0[3], f);
    fs := fs0 + [f.Save({})];
    es := es0 + [Saved({}, true)];
    assert f.InStep(k) && k in f.cache && k in f.removed;
    EventKeepsInStep(f, Saved({}, true), f.Save({}), k);
    forall i | 0 <= i < |es| ensures Next(fs[i], es[i], fs[i + 1]) {
      assert i < |es0| ==> Next(fs0[i], es0[i], fs0[i + 1]);
    }
  }
}
