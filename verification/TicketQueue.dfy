/**
  Queues of incoming tickets and their value cache (ticket-manager/src/backend/mod.rs,
  backend/memory.rs, traits.rs).
 */
module TicketQueue {
  import opened Wrappers

  /** A redeemable ticket.  Natural order is by epoch and index; `tag` stands for everything else
      that tells two tickets apart, so that the order is total. */
  datatype Ticket = Ticket(channel: nat, epoch: nat, index: nat, amount: nat, tag: nat)
  {
    predicate Less(t: Ticket) {
      if epoch != t.epoch then epoch < t.epoch
      else if index != t.index then index < t.index
      else if channel != t.channel then channel < t.channel
      else if tag != t.tag then tag < t.tag
      else amount < t.amount
    }

    predicate Leq(t: Ticket) { this == t || Less(t) }
  }

  ghost predicate Sorted(q: seq<Ticket>) {
    forall i, j :: 0 <= i < j < |q| ==> q[i].Leq(q[j])
  }

  ghost predicate SingleEpoch(q: seq<Ticket>) {
    forall t, u :: t in q && u in q ==> t.epoch == u.epoch
  }

  function Insert(q: seq<Ticket>, t: Ticket): seq<Ticket> {
    if q == [] || t.Leq(q[0]) then [t] + q else [q[0]] + Insert(q[1..], t)
  }

  function Counted(t: Ticket, epoch: nat, minIndex: nat): nat {
    if t.epoch == epoch && t.index >= minIndex then t.amount else 0
  }

  /** `default_total_value`: the tickets of one epoch from an index on. */
  function Total(q: seq<Ticket>, epoch: nat, minIndex: nat): nat {
    if q == [] then 0 else Counted(q[0], epoch, minIndex) + Total(q[1..], epoch, minIndex)
  }

  function Sum(q: seq<Ticket>): nat {
    if q == [] then 0 else q[0].amount + Sum(q[1..])
  }

  lemma {:induction false} InsertAdds(q: seq<Ticket>, t: Ticket)
    ensures multiset(Insert(q, t)) == multiset(q) + multiset{t}
    ensures Sum(Insert(q, t)) == Sum(q) + t.amount
  {
    if q != [] && !t.Leq(q[0]) {
      InsertAdds(q[1..], t);
      assert q == [q[0]] + q[1..];
    }
  }

  lemma {:induction false} InsertAddsTotal(q: seq<Ticket>, t: Ticket, e: nat, m: nat)
    ensures Total(Insert(q, t), e, m) == Total(q, e, m) + Counted(t, e, m)
  {
    if q != [] && !t.Leq(q[0]) {
      InsertAddsTotal(q[1..], t, e, m);
    }
  }

  lemma InsertMembers(q: seq<Ticket>, t: Ticket)
    ensures forall u :: u in Insert(q, t) <==> u == t || u in q
  {
    InsertAdds(q, t);
    forall u ensures u in Insert(q, t) <==> u == t || u in q {
      assert u in Insert(q, t) <==> u in multiset(Insert(q, t));
      assert u in q <==> u in multiset(q);
    }
  }

  lemma {:induction false} InsertKeepsSorted(q: seq<Ticket>, t: Ticket)
    requires Sorted(q)
    ensures Sorted(Insert(q, t))
  {
    if q != [] {
      if t.Leq(q[0]) {
        assert forall i :: 0 <= i < |q| ==> t.Leq(q[i]);
      } else {
        InsertKeepsSorted(q[1..], t);
        InsertMembers(q[1..], t);
        assert forall u :: u in Insert(q[1..], t) ==> q[0].Leq(u);
      }
    }
  }

  datatype QueueOp = Push(t: Ticket) | Pop | Drain

  /** Cached values of a queue: what `ValueCachedQueue` keeps in memory beside its queue. */
  datatype Cached = Cached(items: seq<Ticket>, values: map<nat, nat>, epoch: Option<nat>)
  {
    function Value(e: nat): nat { if e in values then values[e] else 0 }

    function Push(t: Ticket): Cached {
      var latest := if epoch.Some? && t.epoch < epoch.value then epoch.value else t.epoch;
      Cached(Insert(items, t), values[t.epoch := Value(t.epoch) + t.amount], Some(latest))
    }

    function Pop(): Cached {
      if items == [] then this
      else
        var t, rest := items[0], items[1..];
        Cached(rest, values[t.epoch := Minus(Value(t.epoch), t.amount)], HeadEpoch(rest))
    }

    /** Popping everything. */
    function Drained(): Cached
      decreases |items|
    {
      if items == [] then this else Pop().Drained()
    }

    function TotalValue(e: nat, minIndex: Option<nat>): nat {
      if minIndex.None? && e in values then values[e]
      else Total(items, e, if minIndex.Some? then minIndex.value else 0)
    }

    function CachedUnrealizedValue(): nat {
      if epoch.Some? then Value(epoch.value) else 0
    }

    /** `CachedQueueMap::unrealized_value` of an existing queue. */
    function UnrealizedValue(minIndex: Option<nat>): nat {
      if minIndex.None? then CachedUnrealizedValue()
      else if items == [] then 0
      else TotalValue(items[0].epoch, minIndex)
    }

    /** The cache agrees with a full scan, epoch by epoch. */
    ghost predicate Agrees() {
      forall e :: Value(e) == Total(items, e, 0)
    }

    /** The queue is in order, the cache agrees with it, and the tracked epoch is that of the
        tickets if they have one. */
    ghost predicate Valid() {
      && Sorted(items) && Agrees()
      && (forall t :: t in items ==> t.epoch in values)
      && (SingleEpoch(items) ==> epoch == HeadEpoch(items))
    }

    /** What every queue of the ticket manager satisfies. */
    ghost predicate Managed() {
      Valid() && SingleEpoch(items)
    }

    /** From a minimum index on, the value of a managed queue is that of the tickets from there. */
    lemma UnrealizedFromIsExact(m: nat)
      requires Managed()
      ensures items == [] ==> UnrealizedValue(Some(m)) == 0
      ensures items != [] ==> UnrealizedValue(Some(m)) == Sum(Selected(items, items[0].epoch, m))
    {
      if items != [] {
        TotalIsSelected(items, items[0].epoch, m);
      }
    }

    lemma PushKeepsValid(t: Ticket)
      requires Valid()
      ensures Push(t).Valid()
    {
      InsertKeepsSorted(items, t);
      InsertMembers(items, t);
      forall e ensures Push(t).Value(e) == Total(Push(t).items, e, 0) {
        assert Value(e) == Total(items, e, 0);
        InsertAddsTotal(items, t, e, 0);
      }
      if SingleEpoch(Push(t).items) {
        assert items != [] ==> items[0] in Push(t).items;
      }
    }

    lemma PopKeepsValid()
      requires Valid()
      ensures Pop().Valid()
    {
      if items != [] {
        var c := Pop();
        forall e ensures c.Value(e) == Total(c.items, e, 0) {
          assert Value(e) == Total(items, e, 0);
        }
      }
    }

    lemma {:induction false} DrainEmpties()
      ensures Drained().items == []
      decreases |items|
    {
      if items != [] {
        Pop().DrainEmpties();
      }
    }

    lemma {:induction false} DrainKeepsValid()
      requires Valid()
      ensures Drained().Valid() && Drained().items == []
      decreases |items|
    {
      if items != [] {
        PopKeepsValid();
        Pop().DrainKeepsValid();
      }
    }

    function Apply(op: QueueOp): Cached {
      match op
      case Push(t) => Push(t)
      case Pop => Pop()
      case Drain => Drained()
    }

    function Run(ops: seq<QueueOp>): Cached {
      if ops == [] then this else Run(ops[..|ops| - 1]).Apply(ops[|ops| - 1])
    }

    /** Whatever is pushed, popped and drained, of however many epochs, the cache stays right, and so
        does the tracked epoch while there is one only. */
    lemma {:induction false} RunKeepsValid(ops: seq<QueueOp>)
      requires Valid()
      ensures Run(ops).Valid()
    {
      if ops != [] {
        var n := |ops| - 1;
        RunKeepsValid(ops[..n]);
        match ops[n]
        case Push(t) => Run(ops[..n]).PushKeepsValid(t);
        case Pop => Run(ops[..n]).PopKeepsValid();
        case Drain => Run(ops[..n]).DrainKeepsValid();
      }
    }

    /** The cached and the scanned totals agree for every epoch and minimum index. */
    lemma TotalValueIsScan(e: nat, minIndex: Option<nat>)
      requires Valid()
      ensures var m := if minIndex.Some? then minIndex.value else 0;
              TotalValue(e, minIndex) == Total(items, e, m) == Sum(Selected(items, e, m))
    {
      TotalIsSelected(items, e, if minIndex.Some? then minIndex.value else 0);
      assert Value(e) == Total(items, e, 0);
    }

    /** In a managed queue the path without a peek gives what the path with one would give for
        no minimum index: the value of everything queued. */
    lemma FastPathIsExact()
      requires Managed()
      ensures UnrealizedValue(None) == UnrealizedValue(Some(0)) == Sum(items)
    {
      if items == [] {
      } else {
        TotalIsSum(items, items[0].epoch);
        assert Value(items[0].epoch) == Total(items, items[0].epoch, 0);
      }
    }
  }

  function Minus(a: nat, b: nat): nat { if a < b then 0 else a - b }

  function HeadEpoch(q: seq<Ticket>): Option<nat> {
    if q == [] then None else Some(q[0].epoch)
  }

  function Pushed(tickets: seq<Ticket>): Cached {
    if tickets == [] then Cached([], map[], None) else Pushed(tickets[..|tickets| - 1]).Push(tickets[|tickets| - 1])
  }

  /** Pushing tracks the latest epoch, whatever the order. */
  lemma {:induction false} PushingTracksLatest(tickets: seq<Ticket>)
    ensures tickets == [] <==> Pushed(tickets).epoch.None?
    ensures tickets != [] ==> exists t :: t in tickets && Pushed(tickets).epoch == Some(t.epoch)
    ensures tickets != [] ==> forall t :: t in tickets ==> t.epoch <= Pushed(tickets).epoch.value
  {
    if tickets != [] {
      var n := |tickets| - 1;
      PushingTracksLatest(tickets[..n]);
      assert tickets[n] in tickets && forall t :: t in tickets <==> t in tickets[..n] || t == tickets[n];
    }
  }

  lemma {:induction false} TotalIsSum(q: seq<Ticket>, e: nat)
    requires forall t :: t in q ==> t.epoch == e
    ensures Total(q, e, 0) == Sum(q)
  {
    if q != [] {
      TotalIsSum(q[1..], e);
    }
  }

  /** The tickets of one epoch from an index on, in order. */
  function Selected(q: seq<Ticket>, e: nat, m: nat): seq<Ticket> {
    if q == [] then [] else (if q[0].epoch == e && m <= q[0].index then [q[0]] else []) + Selected(q[1..], e, m)
  }

  lemma {:induction false} SelectedAreExact(q: seq<Ticket>, e: nat, m: nat)
    ensures forall t :: multiset(Selected(q, e, m))[t] ==
                        if t.epoch == e && m <= t.index then multiset(q)[t] else 0
  {
    if q != [] {
      SelectedAreExact(q[1..], e, m);
      assert q == [q[0]] + q[1..];
    }
  }

  lemma {:induction false} SumOfAll(a: seq<Ticket>, b: seq<Ticket>)
    ensures Sum(a + b) == Sum(a) + Sum(b)
  {
    if a == [] {
      assert a + b == b;
    } else {
      assert (a + b)[1..] == a[1..] + b;
      SumOfAll(a[1..], b);
    }
  }

  /** A total is the sum of exactly the tickets of that epoch from that index on. */
  lemma {:induction false} TotalIsSelected(q: seq<Ticket>, e: nat, m: nat)
    ensures Total(q, e, m) == Sum(Selected(q, e, m))
  {
    if q != [] {
      TotalIsSelected(q[1..], e, m);
      if q[0].epoch == e && m <= q[0].index {
        SumOfAll([q[0]], Selected(q[1..], e, m));
        assert Sum([q[0]]) == q[0].amount;
      } else {
        assert [] + Selected(q[1..], e, m) == Selected(q[1..], e, m);
      }
    }
  }

  /** Natural order is by epoch first and by index second. */
  lemma OrderIsNatural(t: Ticket, u: Ticket)
    ensures t.Leq(u) || u.Leq(t)
    ensures t.Leq(u) && u.Leq(t) ==> t == u
    ensures t.Leq(u) ==> t.epoch < u.epoch || (t.epoch == u.epoch && t.index <= u.index)
  {
  }

  lemma {:induction false} TotalSplit(q: seq<Ticket>, i: nat, e: nat, m: nat)
    requires i < |q|
    ensures Total(q, e, m) == Counted(q[i], e, m) + Total(q[..i] + q[i + 1..], e, m)
  {
    var rest := q[..i] + q[i + 1..];
    if i == 0 {
      assert rest == q[1..];
    } else {
      TotalSplit(q[1..], i - 1, e, m);
      assert rest[0] == q[0] && rest[1..] == q[1..][..i - 1] + q[1..][i..];
    }
  }

  lemma Without<T>(q: seq<T>, i: nat)
    requires i < |q|
    ensures multiset(q[..i] + q[i + 1..]) == multiset(q) - multiset{q[i]}
  {
    assert q == q[..i] + [q[i]] + q[i + 1..];
  }

  /** `ValueCachedQueue::new`, visiting the tickets of `q` in that order. */
  function Loaded(q: seq<Ticket>): Cached {
    if q == [] then Cached([], map[], None)
    else
      var t, c := q[|q| - 1], Loaded(q[..|q| - 1]);
      Cached(q, c.values[t.epoch := c.Value(t.epoch) + t.amount], Some(t.epoch))
  }

  lemma {:induction false} LoadAgrees(q: seq<Ticket>)
    ensures Loaded(q).items == q && Loaded(q).Agrees()
    ensures forall t :: t in q ==> t.epoch in Loaded(q).values
  {
    if q != [] {
      var n := |q| - 1;
      var front := q[..n];
      LoadAgrees(front);
      assert q[..n] + q[n + 1..] == front;
      forall e ensures Loaded(q).Value(e) == Total(q, e, 0) {
        assert Loaded(front).Value(e) == Total(front, e, 0);
        TotalSplit(q, n, e, 0);
      }
    }
  }

  lemma FindHead<T>(a: seq<T>, b: seq<T>) returns (i: nat)
    requires a != [] && multiset(a) == multiset(b)
    ensures i < |b| && b[i] == a[0] && multiset(a[1..]) == multiset(b[..i] + b[i + 1..])
  {
    assert a[0] in multiset(b);
    i :| i < |b| && b[i] == a[0];
    Without(b, i);
    assert a == [a[0]] + a[1..];
  }

  /** A scan may visit the tickets in any order. */
  lemma {:induction false} TotalIsUnordered(a: seq<Ticket>, b: seq<Ticket>, e: nat, m: nat)
    requires multiset(a) == multiset(b)
    ensures Total(a, e, m) == Total(b, e, m)
  {
    if a == [] {
      assert |multiset(b)| == 0;
    } else {
      var i := FindHead(a, b);
      TotalIsUnordered(a[1..], b[..i] + b[i + 1..], e, m);
      TotalSplit(b, i, e, m);
    }
  }

  /** A sorted queue with the cache that visiting it in any order yields. */
  lemma ScanIsValid(scan: seq<Ticket>, q: seq<Ticket>)
    requires Sorted(q) && multiset(scan) == multiset(q)
    ensures Cached(q, Loaded(scan).values, Loaded(scan).epoch).Valid()
  {
    var c := Cached(q, Loaded(scan).values, Loaded(scan).epoch);
    LoadAgrees(scan);
    SameTickets(scan, q);
    forall e ensures c.Value(e) == Total(q, e, 0) {
      assert Loaded(scan).Value(e) == Total(scan, e, 0);
      TotalIsUnordered(scan, q, e, 0);
    }
    if scan != [] {
      assert scan[|scan| - 1] in scan && q[0] in q;
    }
  }

  lemma SameTickets(a: seq<Ticket>, b: seq<Ticket>)
    requires multiset(a) == multiset(b)
    ensures |a| == |b| && forall t :: t in a <==> t in b
  {
    assert |multiset(a)| == |a| && |multiset(b)| == |b|;
    forall t ensures t in a <==> t in b {
      assert t in a <==> t in multiset(a);
      assert t in b <==> t in multiset(b);
    }
  }

  lemma TakeFirst<T>(a: seq<T>, b: seq<T>)
    requires b != []
    ensures a + [b[0]] + b[1..] == a + b
  {
  }

  // ----- The queues in place -----

  /** `t` comes out of the queue before everything in it. */
  ghost predicate IsLeast(t: Ticket, q: seq<Ticket>) {
    t in q && forall u :: u in q ==> t.Leq(u)
  }

  /** The in-memory queue; the heap's contract is all that is modelled of it: `heap` lists its
      tickets in the order in which they come out. */
  class MemoryTicketQueue {
    var heap: seq<Ticket>

    ghost predicate Valid()
      reads this
    {
      Sorted(heap)
    }

    constructor ()
      ensures Valid() && heap == []
    {
      heap := [];
    }

    method Push(t: Ticket)
      requires Valid()
      modifies this
      ensures Valid() && heap == Insert(old(heap), t)
    {
      InsertKeepsSorted(heap, t);
      heap := Insert(heap, t);
    }

    method Pop() returns (t: Option<Ticket>)
      requires Valid()
      modifies this
      ensures Valid()
      ensures old(heap) == [] ==> t.None? && heap == []
      ensures old(heap) != [] ==> t == Some(old(heap)[0]) && heap == old(heap)[1..] && IsLeast(t.value, old(heap))
    {
      if heap == [] {
        return None;
      }
      t := Some(heap[0]);
      heap := heap[1..];
    }

    method Peek() returns (t: Option<Ticket>)
      requires Valid()
      ensures t == if heap == [] then None else Some(heap[0])
      ensures t.Some? ==> IsLeast(t.value, heap)
    {
      t := if heap == [] then None else Some(heap[0]);
    }
  }

  class ValueCachedQueue {
    const queue: MemoryTicketQueue
    var valueCache: map<nat, nat>
    var currentEpoch: Option<nat>

    ghost function Model(): Cached
      reads this, queue
    {
      Cached(queue.heap, valueCache, currentEpoch)
    }

    /** The queue is in order; that the cache agrees with it is `Model().Valid()`. */
    ghost predicate Valid()
      reads this, queue
    {
      queue.Valid()
    }

    /** Wraps `queue`; `scan` is the order in which its unordered iterator visits it. */
    constructor (queue: MemoryTicketQueue, scan: seq<Ticket>)
      requires queue.Valid() && multiset(scan) == multiset(queue.heap)
      ensures this.queue == queue && Valid() && Model().Valid()
    {
      this.queue := queue;
      valueCache, currentEpoch := map[], None;
      new;
      var i := 0;
      while i < |scan|
        invariant 0 <= i <= |scan|
        invariant valueCache == Loaded(scan[..i]).values && currentEpoch == Loaded(scan[..i]).epoch
      {
        assert scan[..i + 1][..i] == scan[..i];
        var t := scan[i];
        currentEpoch := Some(t.epoch);
        valueCache := valueCache[t.epoch := (if t.epoch in valueCache then valueCache[t.epoch] else 0) + t.amount];
        i := i + 1;
      }
      assert scan[..i] == scan;
      ScanIsValid(scan, queue.heap);
    }

    method Push(t: Ticket)
      requires Valid()
      modifies this, queue
      ensures Valid() && Model() == old(Model().Push(t))
    {
      var latest := if currentEpoch.Some? then currentEpoch.value else 0;
      currentEpoch := Some(if latest < t.epoch then t.epoch else latest);
      valueCache := valueCache[t.epoch := (if t.epoch in valueCache then valueCache[t.epoch] else 0) + t.amount];
      queue.Push(t);
    }

    method Pop() returns (t: Option<Ticket>)
      requires Valid()
      modifies this, queue
      ensures Valid() && Model() == old(Model().Pop())
      ensures t == if old(queue.heap) == [] then None else Some(old(queue.heap)[0])
    {
      t := queue.Pop();
      if t.Some? {
        var e := t.value.epoch;
        valueCache := valueCache[e := Minus(if e in valueCache then valueCache[e] else 0, t.value.amount)];
        var next := queue.Peek();
        currentEpoch := if next.Some? then Some(next.value.epoch) else None;
      }
    }

    /** Returns everything queued, in natural order. */
    method Drain() returns (tickets: seq<Ticket>)
      requires Valid()
      modifies this, queue
      ensures Valid() && Model() == old(Model().Drained())
      ensures tickets == old(queue.heap) && Sorted(tickets)
    {
      ghost var all, drained := queue.heap, Model().Drained();
      tickets := [];
      if all != [] {
        TakeFirst([], all);
      }
      var next := Pop();
      while next.Some?
        invariant Valid() && Model().Drained() == drained
        invariant if next.None? then tickets == all && queue.heap == [] else tickets + [next.value] + queue.heap == all
        decreases |queue.heap|, next.Some?
      {
        tickets := tickets + [next.value];
        if queue.heap == [] {
          assert tickets + queue.heap == tickets;
        } else {
          TakeFirst(tickets, queue.heap);
        }
        next := Pop();
      }
    }

    method TotalValue(e: nat, minIndex: Option<nat>) returns (value: nat)
      ensures value == Model().TotalValue(e, minIndex)
      ensures Model().Valid() ==> value == Total(queue.heap, e, if minIndex.Some? then minIndex.value else 0)
    {
      if Model().Valid() {
        Model().TotalValueIsScan(e, minIndex);
      }
      if minIndex.None? && e in valueCache {
        return valueCache[e];
      }
      value := Total(queue.heap, e, if minIndex.Some? then minIndex.value else 0);
    }

    method CachedUnrealizedValue() returns (value: nat)
      ensures value == Model().CachedUnrealizedValue()
    {
      value := if currentEpoch.Some? && currentEpoch.value in valueCache then valueCache[currentEpoch.value] else 0;
    }
  }
}
