/**
  Redeeming, neglecting and receiving tickets of one channel (ticket-manager/src/manager.rs,
  utils.rs).

  `Channel` is what the manager keeps per channel; `ChannelTicketQueue` changes it in place, one method
  per critical section.  `Machine` lets any number of redeem streams interleave those sections
  with each other and with arriving and neglected tickets: a stream holds no lock while the
  chain is redeeming its ticket, and neglecting lets readers in between its pops.
 */
module Redemption {
  import opened Wrappers
  import opened TicketQueue
  import opened IndexCounter

  datatype Stats = Stats(winning: nat, redeemed: nat, neglected: nat, rejected: nat)

  /** How an attempt to redeem a ticket ended. */
  datatype Outcome = Redeemed | Rejected | TooLow

  datatype Channel = Channel(queue: Cached, stats: Stats)
  {
    function Neglected(amount: nat): Channel {
      this.(stats := stats.(neglected := stats.neglected + amount))
    }

    /** A winning ticket arrives; `Refused` says whether it is neglected at once. */
    function Insert(t: Ticket): Channel {
      var won := this.(stats := stats.(winning := stats.winning + 1));
      if Refuses(t) then won.Neglected(t.amount)
      else if Outdates(t) then won.Neglected(Sum(queue.items)).(queue := queue.Drained().Push(t))
      else won.(queue := queue.Push(t))
    }

    /** The queue belongs to a later epoch. */
    predicate Refuses(t: Ticket) { queue.items != [] && queue.items[0].epoch > t.epoch }

    /** The queue belongs to an earlier epoch. */
    predicate Outdates(t: Ticket) { queue.items != [] && queue.items[0].epoch < t.epoch }

    function InsertNeglects(t: Ticket): seq<Ticket> {
      if Refuses(t) then [t] else if Outdates(t) then queue.items else []
    }

    predicate Neglects(maxIndex: nat) { queue.items != [] && queue.items[0].index <= maxIndex }

    /** One pop of `neglect_tickets`, if the next ticket is not above the index. */
    function NeglectHead(maxIndex: nat): Channel {
      if Neglects(maxIndex) then Neglected(queue.items[0].amount).(queue := queue.Pop()) else this
    }

    /** `neglect_tickets` up to an index, which defaults to the largest there is. */
    function Neglect(maxIndex: nat): Channel
      decreases |queue.items|
    {
      if Neglects(maxIndex) then NeglectHead(maxIndex).Neglect(maxIndex) else this
    }

    predicate Heads(t: Ticket) { queue.items != [] && queue.items[0] == t }

    /** The section that follows an attempt to redeem `t`. */
    function Complete(t: Ticket, outcome: Outcome): Channel {
      var s := match outcome
        case Redeemed => stats.(redeemed := stats.redeemed + t.amount)
        case Rejected => stats.(rejected := stats.rejected + t.amount)
        case TooLow => stats.(neglected := stats.neglected + t.amount);
      if Heads(t) then Channel(queue.Pop(), s)
      else Channel(queue, s.(neglected := Minus(s.neglected, t.amount)))
    }

    /** Everything that ever arrived, by value. */
    function Value(): nat {
      Sum(queue.items) + stats.redeemed + stats.neglected + stats.rejected
    }

    lemma InsertKeepsValid(t: Ticket)
      requires queue.Valid()
      ensures Insert(t).queue.Valid()
      ensures SingleEpoch(queue.items) ==> SingleEpoch(Insert(t).queue.items)
    {
      if Outdates(t) {
        queue.DrainKeepsValid();
        queue.Drained().PushKeepsValid(t);
        InsertMembers([], t);
      } else if !Refuses(t) {
        queue.PushKeepsValid(t);
        InsertMembers(queue.items, t);
      }
    }

    lemma InsertConserves(t: Ticket)
      ensures Insert(t).Value() == Value() + t.amount && Insert(t).stats.winning == stats.winning + 1
      ensures multiset(Insert(t).queue.items) + multiset(InsertNeglects(t)) == multiset(queue.items) + multiset{t}
    {
      InsertAdds(queue.items, t);
      if Outdates(t) {
        queue.DrainEmpties();
        assert Insert(t).queue.items == [t] && Sum([t]) == t.amount;
      }
    }

    /** What receiving `t` should do: of the queued tickets and `t`, those of the latest epoch stay
        queued and the rest is returned and booked as neglected; `t` counts as winning. */
    ghost predicate KeepsLatest(t: Ticket, after: Channel, returned: seq<Ticket>) {
      var all := multiset(queue.items) + multiset{t};
      && (forall u :: multiset(after.queue.items)[u] == if IsLatest(u, all) then all[u] else 0)
      && (forall u :: multiset(returned)[u] == if IsLatest(u, all) then 0 else all[u])
      && after.stats == stats.(winning := stats.winning + 1, neglected := stats.neglected + Sum(returned))
    }

    lemma InsertKeepsLatest(t: Ticket)
      requires SingleEpoch(queue.items)
      ensures KeepsLatest(t, Insert(t), InsertNeglects(t))
    {
      forall u: Ticket
        ensures
          var all := multiset(queue.items) + multiset{t};
          && multiset(Insert(t).queue.items)[u] == (if IsLatest(u, all) then all[u] else 0)
          && multiset(InsertNeglects(t))[u] == (if IsLatest(u, all) then 0 else all[u])
      {
        InsertPartition(t, u);
        LatestOf(queue.items, t, u);
      }
      InsertBooks(t);
    }

    lemma InsertBooks(t: Ticket)
      ensures Insert(t).stats == stats.(winning := stats.winning + 1,
                                        neglected := stats.neglected + Sum(InsertNeglects(t)))
    {
      assert Sum([t]) == t.amount;
    }

    /** Of what is queued and what arrives, the queue holds the tickets that are older than neither
        the head of the queue nor the arrival. */
    lemma InsertPartition(t: Ticket, u: Ticket)
      requires SingleEpoch(queue.items)
      ensures var all := multiset(queue.items) + multiset{t};
              && multiset(Insert(t).queue.items)[u] == (if IsOlder(u, queue.items, t) then 0 else all[u])
              && multiset(InsertNeglects(t))[u] == (if IsOlder(u, queue.items, t) then all[u] else 0)
    {
      InsertAdds(queue.items, t);
      assert u in multiset(queue.items) ==> u in queue.items && u.epoch == queue.items[0].epoch;
      if Outdates(t) {
        queue.DrainEmpties();
        assert Insert(t).queue.items == [t];
      }
    }

    lemma NeglectHeadKeepsValid(maxIndex: nat)
      requires queue.Valid()
      ensures NeglectHead(maxIndex).queue.Valid()
      ensures SingleEpoch(queue.items) ==> SingleEpoch(NeglectHead(maxIndex).queue.items)
    {
      queue.PopKeepsValid();
    }

    lemma {:induction false} NeglectKeepsValid(maxIndex: nat)
      requires queue.Valid()
      ensures Neglect(maxIndex).queue.Valid()
      ensures SingleEpoch(queue.items) ==> SingleEpoch(Neglect(maxIndex).queue.items)
      decreases |queue.items|
    {
      if Neglects(maxIndex) {
        NeglectHeadKeepsValid(maxIndex);
        NeglectHead(maxIndex).NeglectKeepsValid(maxIndex);
      }
    }

    lemma NeglectHeadSplits(maxIndex: nat)
      requires Neglects(maxIndex)
      ensures var c, head := NeglectHead(maxIndex), queue.items[0];
              && queue.items == [head] + c.queue.items
              && multiset(queue.items) == multiset{head} + multiset(c.queue.items)
              && c.stats == stats.(neglected := stats.neglected + head.amount)
              && c.Value() == Value()
    {
      assert queue.items == [queue.items[0]] + queue.items[1..];
    }

    /** Neglecting takes a front of the queue off it. */
    lemma {:induction false} NeglectSplits(maxIndex: nat)
      ensures var c, gone := Neglect(maxIndex), UpTo(queue.items, maxIndex);
              && queue.items == gone + c.queue.items
              && c.stats == stats.(neglected := stats.neglected + Sum(gone))
              && c.Value() == Value()
      decreases |queue.items|
    {
      if Neglects(maxIndex) {
        var head, next := queue.items[0], NeglectHead(maxIndex);
        NeglectHeadSplits(maxIndex);
        next.NeglectSplits(maxIndex);
        var gone := UpTo(next.queue.items, maxIndex);
        assert UpTo(queue.items, maxIndex) == [head] + gone && ([head] + gone)[1..] == gone;
      }
    }

    /** In a managed queue that front is exactly the tickets up to the index. */
    lemma NeglectIsExact(maxIndex: nat)
      requires queue.Managed()
      ensures forall t :: t in UpTo(queue.items, maxIndex) <==> t in queue.items && t.index <= maxIndex
      ensures forall t :: t in Neglect(maxIndex).queue.items <==> t in queue.items && t.index > maxIndex
    {
      NeglectSplits(maxIndex);
      UpToStops(queue.items, maxIndex);
      var n, rest := |UpTo(queue.items, maxIndex)|, Neglect(maxIndex).queue.items;
      forall i | 0 <= i < |rest| ensures rest[i].index > maxIndex {
        assert rest[i] == queue.items[n + i] && queue.items[n].Leq(queue.items[n + i]);
      }
    }

    lemma CompleteKeepsValid(t: Ticket, outcome: Outcome)
      requires queue.Valid()
      ensures Complete(t, outcome).queue.Valid()
      ensures SingleEpoch(queue.items) ==> SingleEpoch(Complete(t, outcome).queue.items)
    {
      queue.PopKeepsValid();
    }

    /** Completion keeps the books exactly when the ticket is still next in the queue, or its
        value can be taken back from what was neglected; it never loses any. */
    lemma CompleteConserves(t: Ticket, outcome: Outcome)
      ensures Value() <= Complete(t, outcome).Value()
      ensures Complete(t, outcome).Value() == Value() <==>
              Heads(t) || t.amount <= stats.neglected || outcome == TooLow
    {
    }
  }

  ghost predicate IsLatest(t: Ticket, all: multiset<Ticket>) {
    forall u :: u in all ==> u.epoch <= t.epoch
  }

  predicate IsOlder(u: Ticket, q: seq<Ticket>, t: Ticket) {
    u.epoch < t.epoch || (q != [] && u.epoch < q[0].epoch)
  }

  lemma LatestOf(q: seq<Ticket>, t: Ticket, u: Ticket)
    requires SingleEpoch(q)
    ensures IsLatest(u, multiset(q) + multiset{t}) <==> !IsOlder(u, q, t)
  {
    var all := multiset(q) + multiset{t};
    assert t in all && (q != [] ==> q[0] in all);
    assert forall w :: w in all ==> w == t || w in q;
  }

  /** The tickets at the front of the queue up to an index. */
  function UpTo(q: seq<Ticket>, maxIndex: nat): seq<Ticket> {
    if q == [] || q[0].index > maxIndex then [] else [q[0]] + UpTo(q[1..], maxIndex)
  }

  lemma {:induction false} UpToStops(q: seq<Ticket>, maxIndex: nat)
    ensures var n := |UpTo(q, maxIndex)|;
            && n <= |q| && UpTo(q, maxIndex) == q[..n]
            && (forall i :: 0 <= i < n ==> q[i].index <= maxIndex)
            && (n < |q| ==> q[n].index > maxIndex)
  {
    if q != [] && q[0].index <= maxIndex {
      UpToStops(q[1..], maxIndex);
    }
  }

  lemma Rebalance<T>(a: multiset<T>, gained: multiset<T>, b: multiset<T>, lost: multiset<T>, r: multiset<T>, g: multiset<T>)
    requires b + lost == a + gained
    ensures a + r + g + gained == b + r + (g + lost)
  {
    assert a + r + g + gained == (a + gained) + (r + g);
    assert b + r + (g + lost) == (b + lost) + (r + g);
  }

  /** Moving `t` from one of three multisets to another. */
  lemma MoveTaken<T>(q: multiset<T>, rest: multiset<T>, r: multiset<T>, n: multiset<T>, t: T)
    requires q == multiset{t} + rest
    ensures rest + (r + multiset{t}) + n == q + r + n
  {
  }

  lemma MoveLast<T>(q: multiset<T>, rest: multiset<T>, r: multiset<T>, n: multiset<T>, t: T)
    requires q == multiset{t} + rest
    ensures rest + r + (n + multiset{t}) == q + r + n
  {
  }

  lemma MoveNeglected<T>(q: multiset<T>, r: multiset<T>, n: multiset<T>, t: T)
    ensures q + (r + multiset{t}) + (n - multiset{t}) == q + r + n <==> t in n
  {
    if t in n {
      assert n == (n - multiset{t}) + multiset{t};
    } else {
      assert (q + (r + multiset{t}) + (n - multiset{t}))[t] == (q + r + n)[t] + 1;
    }
  }

  // ----- Streams, arrivals and neglects in any interleaving -----

  type StreamId = nat

  /** A `RedeemState`: `inFlight` is the ticket that was peeked and is being redeemed. */
  datatype Stream = Stream(minValue: nat, inFlight: Option<Ticket>)
  {
    /** The result of the attempt to redeem `t`, when there is one. */
    function Verdict(t: Ticket, redeemed: Option<bool>): Option<Outcome> {
      if t.amount < minValue then Some(TooLow)
      else
        match redeemed
        case None => None
        case Some(true) => Some(Redeemed)
        case Some(false) => Some(Rejected)
    }
  }

  datatype Action =
    | Open(id: StreamId, minValue: nat)
    | Poll(id: StreamId)                            // peek, and start to redeem
    | Finish(id: StreamId, redeemed: Option<bool>)  // the chain redeems, rejects, or fails to answer
    | Drop(id: StreamId)
    | Arrive(t: Ticket)
    | NeglectHead(maxIndex: nat)                    // one pop of a neglect

  datatype Result = Result(ticket: Ticket, outcome: Outcome)

  /** `worth` and `arrived` record what the queue started with and what arrived since, `results`
      what streams reported, and `neglected` the tickets neglected and not reported since. */
  datatype Machine = Machine(
    channel: Channel,
    locked: bool,
    streams: map<StreamId, Stream>,
    worth: nat,
    arrived: multiset<Ticket>,
    neglected: multiset<Ticket>,
    results: seq<Result>)
  {
    predicate Flies(id: StreamId, t: Ticket) {
      id in streams && streams[id].inFlight == Some(t)
    }

    function Close(id: StreamId): Machine {
      this.(locked := false, streams := streams - {id})
    }

    function Report(id: StreamId, t: Ticket, outcome: Outcome): Machine
      requires id in streams
    {
      this.(
        channel := channel.Complete(t, outcome),
        streams := streams[id := streams[id].(inFlight := None)],
        neglected := if channel.Heads(t) then neglected else neglected - multiset{t},
        results := results + [Result(t, outcome)])
    }

    function Act(a: Action): Machine {
      match a
      case Open(id, minValue) =>
        if locked then this else this.(locked := true, streams := streams[id := Stream(minValue, None)])
      case Poll(id) =>
        if id !in streams || streams[id].inFlight.Some? then this
        else if channel.queue.items == [] then Close(id)
        else this.(streams := streams[id := streams[id].(inFlight := Some(channel.queue.items[0]))])
      case Finish(id, redeemed) =>
        if id !in streams || streams[id].inFlight.None? then this
        else
          var t := streams[id].inFlight.value;
          var verdict := streams[id].Verdict(t, redeemed);
          if verdict.None? then Close(id) else Report(id, t, verdict.value)
      case Drop(id) => if id in streams then Close(id) else this
      case Arrive(t) =>
        this.(channel := channel.Insert(t), worth := worth + t.amount, arrived := arrived + multiset{t},
          neglected := neglected + multiset(channel.InsertNeglects(t)))
      case NeglectHead(maxIndex) =>
        this.(channel := channel.NeglectHead(maxIndex),
          neglected := neglected + if channel.Neglects(maxIndex) then multiset{channel.queue.items[0]} else multiset{})
    }

    /** `a` puts a ticket in front of the one that is being redeemed. */
    ghost predicate Overtakes(a: Action) {
      a.Arrive? && exists id, t :: Flies(id, t) && channel.Heads(t) && a.t.epoch == t.epoch && a.t.Less(t)
    }

    function Run(actions: seq<Action>): Machine {
      if actions == [] then this else Run(actions[..|actions| - 1]).Act(actions[|actions| - 1])
    }

    ghost predicate NoneOvertakes(actions: seq<Action>) {
      actions == [] ||
      (NoneOvertakes(actions[..|actions| - 1]) && !Run(actions[..|actions| - 1]).Overtakes(actions[|actions| - 1]))
    }

    // ----- Neglecting pop by pop -----

    lemma RunLast(actions: seq<Action>, a: Action)
      ensures Run(actions + [a]) == Run(actions).Act(a)
    {
      assert (actions + [a])[..|actions|] == actions;
    }

    lemma {:induction false} RunFirst(a: Action, rest: seq<Action>)
      ensures Run([a] + rest) == Act(a).Run(rest)
    {
      if rest == [] {
        RunLast([], a);
        assert [] + [a] == [a] + rest;
      } else {
        var n := |rest| - 1;
        RunFirst(a, rest[..n]);
        RunLast([a] + rest[..n], rest[n]);
        assert [a] + rest[..n] + [rest[n]] == [a] + rest;
      }
    }

    lemma PopMoves(maxIndex: nat)
      requires channel.Neglects(maxIndex)
      ensures var q, m := channel.queue.items, Act(NeglectHead(maxIndex));
              && m == this.(channel := channel.NeglectHead(maxIndex), neglected := neglected + multiset{q[0]})
              && m.channel.Neglect(maxIndex) == channel.Neglect(maxIndex)
              && UpTo(q, maxIndex) == [q[0]] + UpTo(m.channel.queue.items, maxIndex)
    {
    }

    /** Neglecting with nothing in between the pops. */
    lemma {:induction false} NeglectIsARun(maxIndex: nat) returns (pops: seq<Action>)
      ensures forall a :: a in pops ==> a == NeglectHead(maxIndex)
      ensures Run(pops) == this.(channel := channel.Neglect(maxIndex),
                                 neglected := neglected + multiset(UpTo(channel.queue.items, maxIndex)))
      decreases |channel.queue.items|
    {
      pops := [];
      if channel.Neglects(maxIndex) {
        PopMoves(maxIndex);
        pops := Act(NeglectHead(maxIndex)).NeglectIsARun(maxIndex);
        RunFirst(NeglectHead(maxIndex), pops);
        pops := [NeglectHead(maxIndex)] + pops;
      }
    }

    // ----- Exclusivity -----

    /** The lock is held exactly while there is a stream, and there is one at most. */
    ghost predicate Exclusive() {
      && (locked <==> streams != map[])
      && (forall i, j :: i in streams && j in streams ==> i == j)
    }

    lemma ActKeepsExclusive(a: Action)
      requires Exclusive()
      ensures Act(a).Exclusive()
    {
    }

    lemma {:induction false} RunKeepsExclusive(actions: seq<Action>)
      requires Exclusive()
      ensures Run(actions).Exclusive()
    {
      if actions != [] {
        RunKeepsExclusive(actions[..|actions| - 1]);
        Run(actions[..|actions| - 1]).ActKeepsExclusive(actions[|actions| - 1]);
      }
    }

    // ----- One epoch and an exact cache -----

    lemma ActKeepsManaged(a: Action)
      requires channel.queue.Managed()
      ensures Act(a).channel.queue.Managed()
    {
      match a
      case Arrive(t) => channel.InsertKeepsValid(t);
      case NeglectHead(maxIndex) => channel.NeglectHeadKeepsValid(maxIndex);
      case Finish(id, redeemed) =>
        if id in streams && streams[id].inFlight.Some? {
          var t := streams[id].inFlight.value;
          var verdict := streams[id].Verdict(t, redeemed);
          if verdict.Some? {
            channel.CompleteKeepsValid(t, verdict.value);
          }
        }
      case _ =>
    }

    /** In every interleaving, whatever arrives and whatever it overtakes. */
    lemma {:induction false} RunKeepsManaged(actions: seq<Action>)
      requires channel.queue.Managed()
      ensures Run(actions).channel.queue.Managed()
    {
      if actions != [] {
        RunKeepsManaged(actions[..|actions| - 1]);
        Run(actions[..|actions| - 1]).ActKeepsManaged(actions[|actions| - 1]);
      }
    }

    // ----- What the streams report -----

    /** The end of an attempt, spelled out: a ticket below the stream's minimum is too low whatever
        the chain says, any other is reported as the chain answers, and without an answer the
        stream ends and nothing is reported. */
    lemma FinishReportsTheAnswer(id: StreamId, redeemed: Option<bool>, t: Ticket)
      requires Flies(id, t)
      ensures var m := Act(Finish(id, redeemed));
              && (t.amount < streams[id].minValue ==> m.results == results + [Result(t, TooLow)])
              && (streams[id].minValue <= t.amount && redeemed == Some(true) ==> m.results == results + [Result(t, Redeemed)])
              && (streams[id].minValue <= t.amount && redeemed == Some(false) ==> m.results == results + [Result(t, Rejected)])
              && (streams[id].minValue <= t.amount && redeemed == None ==>
                    m.results == results && m.channel == channel && id !in m.streams && !m.locked)
    {
    }

    /** A stream is opened exactly when there is none, and dropping it ends it. */
    lemma OpenAndDrop(id: StreamId, minValue: nat)
      requires Exclusive()
      ensures streams == map[] ==> Act(Open(id, minValue)).streams == map[id := Stream(minValue, None)]
      ensures streams != map[] ==> Act(Open(id, minValue)) == this
      ensures id in streams ==> Act(Drop(id)).streams == map[] && !Act(Drop(id)).locked
      ensures id !in streams ==> Act(Drop(id)) == this
    {
      if id in streams {
        assert streams.Keys == {id};
        assert (streams - {id}).Keys == {};
      }
    }

    /** A stream that finds the queue empty ends, another takes the next ticket, and one whose
        ticket is in flight does nothing. */
    lemma PollTakesTheNext(id: StreamId)
      ensures var m := Act(Poll(id));
              if id !in streams || streams[id].inFlight.Some? then m == this
              else if channel.queue.items == [] then id !in m.streams && !m.locked
              else m == this.(streams := streams[id := Stream(streams[id].minValue, Some(channel.queue.items[0]))])
    {
    }

    ghost predicate RespectsMinimum(minimum: nat) {
      && (forall id :: id in streams ==> minimum <= streams[id].minValue)
      && (forall r :: r in results && !r.outcome.TooLow? ==> minimum <= r.ticket.amount)
    }

    /** While every stream asks for at least `minimum`, no ticket below it is redeemed or rejected. */
    lemma {:induction false} RunRespectsMinimum(actions: seq<Action>, minimum: nat)
      requires RespectsMinimum(minimum)
      requires forall a :: a in actions && a.Open? ==> minimum <= a.minValue
      ensures Run(actions).RespectsMinimum(minimum)
    {
      if actions != [] {
        var n := |actions| - 1;
        RunRespectsMinimum(actions[..n], minimum);
        assert actions[n] in actions;
        Run(actions[..n]).ActRespectsMinimum(actions[n], minimum);
      }
    }

    lemma ActRespectsMinimum(a: Action, minimum: nat)
      requires RespectsMinimum(minimum) && (a.Open? ==> minimum <= a.minValue)
      ensures Act(a).RespectsMinimum(minimum)
    {
      if a.Finish? && a.id in streams && streams[a.id].inFlight.Some? {
        FinishReportsTheAnswer(a.id, a.redeemed, streams[a.id].inFlight.value);
      }
    }

    // ----- The epoch of the queue -----

    ghost predicate HasEpoch(e: nat) {
      channel.queue.items != [] && channel.queue.items[0].epoch == e
    }

    lemma ActKeepsEpoch(a: Action, e: nat, f: nat)
      requires channel.queue.Managed() && HasEpoch(e) && Act(a).HasEpoch(f)
      ensures e <= f && (a.Arrive? ==> a.t.epoch <= f)
    {
      var items, after := channel.queue.items, Act(a).channel.queue.items;
      if a.Arrive? {
        channel.InsertKeepsLatest(a.t);
        assert after[0] in multiset(after) && items[0] in multiset(items) + multiset{a.t};
      } else {
        ActTakesTickets(a);
        assert items[0] in items && after[0] in after;
      }
    }

    lemma ActTakesTickets(a: Action)
      requires !a.Arrive?
      ensures forall t :: t in Act(a).channel.queue.items ==> t in channel.queue.items
    {
    }

    /** The queue is empty neither before nor after any of the actions. */
    ghost predicate StaysFilled(actions: seq<Action>) {
      if actions == [] then channel.queue.items != []
      else StaysFilled(actions[..|actions| - 1]) && Run(actions).channel.queue.items != []
    }

    /** As long as the queue is not empty its epoch does not fall, and is at least that of every
        ticket that arrives. */
    lemma {:induction false} RunKeepsEpoch(actions: seq<Action>)
      requires channel.queue.Managed() && StaysFilled(actions)
      ensures channel.queue.items != [] && Run(actions).channel.queue.items != []
      ensures channel.queue.items[0].epoch <= Run(actions).channel.queue.items[0].epoch
      ensures forall a :: a in actions && a.Arrive? ==> a.t.epoch <= Run(actions).channel.queue.items[0].epoch
    {
      if actions != [] {
        var n := |actions| - 1;
        RunKeepsEpoch(actions[..n]);
        RunKeepsManaged(actions[..n]);
        var m := Run(actions[..n]);
        m.ActKeepsEpoch(actions[n], m.channel.queue.items[0].epoch, Run(actions).channel.queue.items[0].epoch);
        assert forall a :: a in actions ==> a in actions[..n] || a == actions[n];
      }
    }

    // ----- Conservation -----

    /** The ticket in flight is next in the queue, or was neglected in the meantime. */
    ghost predicate Accounted(t: Ticket) {
      channel.Heads(t) || (t in neglected && t.amount <= channel.stats.neglected)
    }

    ghost predicate FlightsAccounted() {
      forall id, t :: Flies(id, t) ==> Accounted(t)
    }

    /** Every ticket that arrived is queued, reported or neglected, once. */
    ghost predicate TicketsBalance() {
      arrived == multiset(channel.queue.items) + Reported(results) + neglected
    }

    /** And so is its value; what was redeemed and rejected is what the streams reported. */
    ghost predicate BooksBalance() {
      && channel.Value() == worth
      && channel.stats.redeemed == Earned(results, Redeemed)
      && channel.stats.rejected == Earned(results, Rejected)
      && channel.stats.winning == |arrived|
    }

    ghost predicate Conserves() {
      TicketsBalance() && BooksBalance() && FlightsAccounted()
    }

    /** Where the report of `t` leaves the tickets. */
    lemma ReportMoves(id: StreamId, t: Ticket, outcome: Outcome)
      requires id in streams
      ensures var m := Report(id, t, outcome);
              && m.arrived == arrived && Reported(m.results) == Reported(results) + multiset{t}
              && (channel.Heads(t) ==> multiset(channel.queue.items) == multiset{t} + multiset(m.channel.queue.items)
                                       && m.neglected == neglected)
              && (!channel.Heads(t) ==> m.channel.queue.items == channel.queue.items
                                        && m.neglected == neglected - multiset{t})
    {
      ReportedOneMore(results, Result(t, outcome));
      if channel.Heads(t) {
        assert channel.queue.items == [t] + Report(id, t, outcome).channel.queue.items;
      }
    }

    /** A report keeps every ticket accounted for once exactly when its ticket is still next in
        the queue or was neglected. */
    lemma ReportBalancesTickets(id: StreamId, t: Ticket, outcome: Outcome)
      requires TicketsBalance() && id in streams
      ensures Report(id, t, outcome).TicketsBalance() <==> channel.Heads(t) || t in neglected
    {
      var m := Report(id, t, outcome);
      var q, rest := multiset(channel.queue.items), multiset(m.channel.queue.items);
      ReportMoves(id, t, outcome);
      if channel.Heads(t) {
        MoveTaken(q, rest, Reported(results), neglected, t);
      } else {
        MoveNeglected(q, Reported(results), neglected, t);
      }
    }

    lemma ReportBalancesBooks(id: StreamId, t: Ticket, outcome: Outcome)
      requires BooksBalance() && Accounted(t) && id in streams
      ensures Report(id, t, outcome).BooksBalance()
    {
      channel.CompleteConserves(t, outcome);
      assert Report(id, t, outcome).results[..|results|] == results;
    }

    lemma ReportConserves(id: StreamId, t: Ticket, outcome: Outcome)
      requires Conserves() && Exclusive() && Flies(id, t)
      ensures Report(id, t, outcome).Conserves()
    {
      ReportBalancesTickets(id, t, outcome);
      ReportBalancesBooks(id, t, outcome);
      forall i, u ensures !Report(id, t, outcome).Flies(i, u) {
        assert i in streams ==> i == id;
      }
    }

    lemma ArriveBalancesTickets(t: Ticket)
      requires TicketsBalance()
      ensures Act(Arrive(t)).TicketsBalance()
    {
      channel.InsertConserves(t);
      Rebalance(multiset(channel.queue.items), multiset{t}, multiset(channel.Insert(t).queue.items),
                multiset(channel.InsertNeglects(t)), Reported(results), neglected);
    }

    lemma ArriveBalancesBooks(t: Ticket)
      requires BooksBalance()
      ensures Act(Arrive(t)).BooksBalance()
    {
      channel.InsertConserves(t);
      var c := channel.Insert(t);
      assert c.stats.redeemed == channel.stats.redeemed && c.stats.rejected == channel.stats.rejected;
    }

    lemma ArriveAccounts(t: Ticket)
      requires FlightsAccounted() && !Overtakes(Arrive(t))
      ensures Act(Arrive(t)).FlightsAccounted()
    {
      var m := Act(Arrive(t));
      forall id, u | m.Flies(id, u) ensures m.Accounted(u) {
        assert Flies(id, u) && Accounted(u);
        if channel.Heads(u) && channel.Outdates(t) {
          SumContains(channel.queue.items, u);
        }
      }
    }

    lemma NeglectBalancesTickets(maxIndex: nat)
      requires TicketsBalance()
      ensures Act(NeglectHead(maxIndex)).TicketsBalance()
    {
      if channel.Neglects(maxIndex) {
        channel.NeglectHeadSplits(maxIndex);
        MoveLast(multiset(channel.queue.items), multiset(channel.NeglectHead(maxIndex).queue.items), Reported(results),
                 neglected, channel.queue.items[0]);
      }
    }

    lemma NeglectBalancesBooks(maxIndex: nat)
      requires BooksBalance()
      ensures Act(NeglectHead(maxIndex)).BooksBalance()
    {
      if channel.Neglects(maxIndex) {
        channel.NeglectHeadSplits(maxIndex);
      }
    }

    lemma NeglectAccounts(maxIndex: nat)
      requires FlightsAccounted()
      ensures Act(NeglectHead(maxIndex)).FlightsAccounted()
    {
      var m := Act(NeglectHead(maxIndex));
      forall id, u | m.Flies(id, u) ensures m.Accounted(u) {
        assert Flies(id, u) && Accounted(u);
      }
    }

    lemma FinishConserves(id: StreamId, redeemed: Option<bool>)
      requires Conserves() && Exclusive()
      ensures Act(Finish(id, redeemed)).Conserves()
    {
      var m := Act(Finish(id, redeemed));
      if id in streams && streams[id].inFlight.Some? {
        var t := streams[id].inFlight.value;
        assert Flies(id, t);
        var verdict := streams[id].Verdict(t, redeemed);
        if verdict.Some? {
          ReportConserves(id, t, verdict.value);
        } else {
          assert forall i, u :: m.Flies(i, u) ==> Flies(i, u);
        }
      }
    }

    lemma ActConserves(a: Action)
      requires Conserves() && Exclusive() && !Overtakes(a)
      ensures Act(a).Conserves()
    {
      match a
      case Arrive(t) =>
        ArriveBalancesTickets(t);
        ArriveBalancesBooks(t);
        ArriveAccounts(t);
      case NeglectHead(maxIndex) =>
        NeglectBalancesTickets(maxIndex);
        NeglectBalancesBooks(maxIndex);
        NeglectAccounts(maxIndex);
      case Finish(id, redeemed) => FinishConserves(id, redeemed);
      case _ => StreamStepConserves(a);
    }

    /** Opening, polling and dropping a stream moves no ticket; what is in flight then was before,
        or is the next ticket of the queue. */
    lemma StreamStepMoves(a: Action)
      requires a.Open? || a.Poll? || a.Drop?
      ensures var m := Act(a);
              && m.channel == channel && m.worth == worth && m.arrived == arrived
              && m.neglected == neglected && m.results == results
              && forall id, u :: m.Flies(id, u) ==> Flies(id, u) || channel.Heads(u)
    {
    }

    lemma StreamStepConserves(a: Action)
      requires Conserves() && (a.Open? || a.Poll? || a.Drop?)
      ensures Act(a).Conserves()
    {
      StreamStepMoves(a);
      forall id, u | Act(a).Flies(id, u) ensures Act(a).Accounted(u) {
        assert Flies(id, u) ==> Accounted(u);
      }
    }

    /** Whatever the interleaving, as long as no ticket is put in front of the one in flight. */
    lemma {:induction false} RunConserves(actions: seq<Action>)
      requires Conserves() && Exclusive() && NoneOvertakes(actions)
      ensures Run(actions).Conserves()
    {
      if actions != [] {
        var n := |actions| - 1;
        RunConserves(actions[..n]);
        RunKeepsExclusive(actions[..n]);
        Run(actions[..n]).ActConserves(actions[n]);
      }
    }

    // ----- Exactly when it is conserved -----

    /** A report of a ticket that is neither next in the queue nor among the neglected. */
    predicate Fumbles(a: Action) {
      && a.Finish? && a.id in streams && streams[a.id].inFlight.Some?
      && var t := streams[a.id].inFlight.value;
      && streams[a.id].Verdict(t, a.redeemed).Some?
      && !channel.Heads(t) && t !in neglected
    }

    ghost predicate NoneFumbles(actions: seq<Action>) {
      actions == [] ||
      (NoneFumbles(actions[..|actions| - 1]) && !Run(actions[..|actions| - 1]).Fumbles(actions[|actions| - 1]))
    }

    /** A redemption or rejection that takes back more than was neglected. */
    predicate Overbooks(a: Action) {
      && a.Finish? && a.id in streams && streams[a.id].inFlight.Some?
      && var t := streams[a.id].inFlight.value;
      && streams[a.id].Verdict(t, a.redeemed) in {Some(Redeemed), Some(Rejected)}
      && !channel.Heads(t) && channel.stats.neglected < t.amount
    }

    ghost predicate NoneOverbooks(actions: seq<Action>) {
      actions == [] ||
      (NoneOverbooks(actions[..|actions| - 1]) && !Run(actions[..|actions| - 1]).Overbooks(actions[|actions| - 1]))
    }

    /** How many more tickets are accounted for than arrived. */
    function Surplus(): int {
      |channel.queue.items| + |results| + |neglected| - |arrived|
    }

    lemma ReportCounts(id: StreamId, t: Ticket, outcome: Outcome)
      requires id in streams
      ensures Report(id, t, outcome).Surplus() == Surplus() + if channel.Heads(t) || t in neglected then 0 else 1
    {
      if !channel.Heads(t) {
        if t in neglected {
          assert neglected == (neglected - multiset{t}) + multiset{t};
        } else {
          assert neglected - multiset{t} == neglected;
        }
      }
    }

    lemma ActCounts(a: Action)
      ensures Act(a).Surplus() == Surplus() + if Fumbles(a) then 1 else 0
    {
      match a
      case Arrive(t) =>
        channel.InsertConserves(t);
        var c, gone := channel.Insert(t), channel.InsertNeglects(t);
        assert |multiset(c.queue.items) + multiset(gone)| == |multiset(channel.queue.items) + multiset{t}|;
      case NeglectHead(maxIndex) =>
        if channel.Neglects(maxIndex) {
          channel.NeglectHeadSplits(maxIndex);
        }
      case Finish(id, redeemed) =>
        if id in streams && streams[id].inFlight.Some? {
          FinishCounts(id, redeemed);
        }
      case _ =>
    }

    lemma ActBalances(a: Action)
      requires TicketsBalance() && !Fumbles(a)
      ensures Act(a).TicketsBalance()
    {
      match a
      case Arrive(t) => ArriveBalancesTickets(t);
      case NeglectHead(maxIndex) => NeglectBalancesTickets(maxIndex);
      case Finish(id, redeemed) =>
        if id in streams && streams[id].inFlight.Some? {
          FinishBalances(id, redeemed);
        }
      case _ =>
    }

    lemma FinishCounts(id: StreamId, redeemed: Option<bool>)
      requires id in streams && streams[id].inFlight.Some?
      ensures Act(Finish(id, redeemed)).Surplus() == Surplus() + if Fumbles(Finish(id, redeemed)) then 1 else 0
    {
      var t := streams[id].inFlight.value;
      var verdict := streams[id].Verdict(t, redeemed);
      if verdict.Some? {
        ReportCounts(id, t, verdict.value);
      }
    }

    lemma FinishBalances(id: StreamId, redeemed: Option<bool>)
      requires id in streams && streams[id].inFlight.Some?
      requires TicketsBalance() && !Fumbles(Finish(id, redeemed))
      ensures Act(Finish(id, redeemed)).TicketsBalance()
    {
      var t := streams[id].inFlight.value;
      var verdict := streams[id].Verdict(t, redeemed);
      if verdict.Some? {
        ReportBalancesTickets(id, t, verdict.value);
        assert Act(Finish(id, redeemed)) == Report(id, t, verdict.value);
      }
    }

    lemma {:induction false} RunCounts(actions: seq<Action>)
      requires TicketsBalance()
      ensures Surplus() <= Run(actions).Surplus()
      ensures NoneFumbles(actions) ==> Run(actions).TicketsBalance()
      ensures !NoneFumbles(actions) ==> Surplus() < Run(actions).Surplus()
    {
      if actions != [] {
        var before, last := actions[..|actions| - 1], actions[|actions| - 1];
        RunCounts(before);
        Run(before).ActCounts(last);
        if NoneFumbles(actions) {
          Run(before).ActBalances(last);
        }
      }
    }

    lemma BalanceHasNoSurplus()
      requires TicketsBalance()
      ensures Surplus() == 0
    {
      ReportedSize(results);
    }

    /** Over any run every ticket stays accounted for once if and only if no report fumbles. */
    lemma TicketsBalanceExactly(actions: seq<Action>)
      requires TicketsBalance()
      ensures Run(actions).TicketsBalance() <==> NoneFumbles(actions)
    {
      RunCounts(actions);
      BalanceHasNoSurplus();
      if Run(actions).TicketsBalance() {
        Run(actions).BalanceHasNoSurplus();
      }
    }

    lemma FinishBooks(id: StreamId, redeemed: Option<bool>)
      requires id in streams && streams[id].inFlight.Some?
      ensures var a := Finish(id, redeemed);
              && Act(a).worth == worth && channel.Value() <= Act(a).channel.Value()
              && (channel.Value() < Act(a).channel.Value() <==> Overbooks(a))
    {
      var t := streams[id].inFlight.value;
      var verdict := streams[id].Verdict(t, redeemed);
      if verdict.Some? {
        channel.CompleteConserves(t, verdict.value);
      }
    }

    lemma ActBooks(a: Action)
      ensures var m := Act(a);
              && channel.Value() - worth <= m.channel.Value() - m.worth
              && (channel.Value() - worth < m.channel.Value() - m.worth <==> Overbooks(a))
    {
      match a
      case Arrive(t) => channel.InsertConserves(t);
      case NeglectHead(maxIndex) =>
        if channel.Neglects(maxIndex) {
          channel.NeglectHeadSplits(maxIndex);
        }
      case Finish(id, redeemed) =>
        if id in streams && streams[id].inFlight.Some? {
          FinishBooks(id, redeemed);
        }
      case _ =>
    }

    lemma {:induction false} RunBooks(actions: seq<Action>)
      ensures var m := Run(actions);
              && channel.Value() - worth <= m.channel.Value() - m.worth
              && (channel.Value() - worth == m.channel.Value() - m.worth <==> NoneOverbooks(actions))
    {
      if actions != [] {
        RunBooks(actions[..|actions| - 1]);
        Run(actions[..|actions| - 1]).ActBooks(actions[|actions| - 1]);
      }
    }

    // ----- Order -----

    /** A ticket arrives, if at all, behind everything reported or in flight. */
    ghost predicate Follows(a: Action) {
      a.Arrive? ==>
        && (forall r :: r in results ==> r.ticket.Leq(a.t))
        && (forall id, u :: Flies(id, u) ==> u.Leq(a.t))
    }

    ghost predicate AllFollow(actions: seq<Action>) {
      actions == [] ||
      (AllFollow(actions[..|actions| - 1]) && Run(actions[..|actions| - 1]).Follows(actions[|actions| - 1]))
    }

    /** What is reported comes before what is in flight, and that before what is queued. */
    ghost predicate InOrder() {
      && (forall i, j :: 0 <= i < j < |results| ==> results[i].ticket.Leq(results[j].ticket))
      && (forall r, t :: r in results && t in channel.queue.items ==> r.ticket.Leq(t))
      && (forall r, id, t :: r in results && Flies(id, t) ==> r.ticket.Leq(t))
      && (forall id, t, u :: Flies(id, t) && u in channel.queue.items ==> t.Leq(u))
    }

    lemma ReportInOrder(id: StreamId, t: Ticket, outcome: Outcome)
      requires InOrder() && Exclusive() && Flies(id, t)
      ensures Report(id, t, outcome).InOrder()
    {
      var m := Report(id, t, outcome);
      assert forall u :: u in m.channel.queue.items ==> u in channel.queue.items;
      forall i, u ensures !m.Flies(i, u) {
        assert i in streams ==> i == id;
      }
    }

    lemma ArriveInOrder(t: Ticket)
      requires InOrder() && Follows(Arrive(t))
      ensures Act(Arrive(t)).InOrder()
    {
      var m := Act(Arrive(t));
      channel.queue.DrainEmpties();
      InsertMembers(channel.queue.items, t);
      assert forall u :: u in m.channel.queue.items ==> u == t || u in channel.queue.items;
      assert forall id, u :: m.Flies(id, u) ==> Flies(id, u);
    }

    lemma ActInOrder(a: Action)
      requires InOrder() && Exclusive() && Sorted(channel.queue.items) && Follows(a)
      ensures Act(a).InOrder()
    {
      var m := Act(a);
      match a
      case Arrive(t) => ArriveInOrder(t);
      case Finish(id, redeemed) =>
        if id in streams && streams[id].inFlight.Some? {
          var t := streams[id].inFlight.value;
          var verdict := streams[id].Verdict(t, redeemed);
          if verdict.Some? {
            ReportInOrder(id, t, verdict.value);
          } else {
            assert forall i, u :: m.Flies(i, u) ==> Flies(i, u);
          }
        }
      case NeglectHead(_) =>
        assert forall u :: u in m.channel.queue.items ==> u in channel.queue.items;
        assert forall id, u :: m.Flies(id, u) ==> Flies(id, u);
      case Poll(id) =>
        assert forall i, u :: m.Flies(i, u) ==> Flies(i, u) || (i == id && u in channel.queue.items && channel.Heads(u));
      case _ =>
        assert forall i, u :: m.Flies(i, u) ==> Flies(i, u);
    }

    lemma FollowsDoesNotOvertake(a: Action)
      requires Follows(a)
      ensures !Overtakes(a)
    {
    }

    /** Results come out in natural order when no smaller ticket arrives. */
    lemma {:induction false} RunInOrder(actions: seq<Action>)
      requires channel.queue.Managed() && Exclusive() && InOrder() && AllFollow(actions)
      ensures Run(actions).InOrder() && NoneOvertakes(actions)
    {
      if actions != [] {
        var n := |actions| - 1;
        RunInOrder(actions[..n]);
        RunKeepsExclusive(actions[..n]);
        RunKeepsManaged(actions[..n]);
        Run(actions[..n]).FollowsDoesNotOvertake(actions[n]);
        Run(actions[..n]).ActInOrder(actions[n]);
      }
    }
  }

  /** The tickets of the reported results. */
  function Reported(results: seq<Result>): multiset<Ticket> {
    if results == [] then multiset{}
    else Reported(results[..|results| - 1]) + multiset{results[|results| - 1].ticket}
  }

  lemma ReportedOneMore(results: seq<Result>, r: Result)
    ensures Reported(results + [r]) == Reported(results) + multiset{r.ticket}
  {
    assert (results + [r])[..|results|] == results;
  }

  lemma {:induction false} ReportedSize(results: seq<Result>)
    ensures |Reported(results)| == |results|
  {
    if results != [] {
      ReportedSize(results[..|results| - 1]);
    }
  }

  function Earned(results: seq<Result>, outcome: Outcome): nat {
    if results == [] then 0
    else
      var last := results[|results| - 1];
      Earned(results[..|results| - 1], outcome) + if last.outcome == outcome then last.ticket.amount else 0
  }

  lemma {:induction false} SumContains(q: seq<Ticket>, t: Ticket)
    requires t in q
    ensures t.amount <= Sum(q)
  {
    if t != q[0] {
      SumContains(q[1..], t);
    }
  }

  /** A manager's fresh channel around an already loaded queue. */
  function Start(queue: Cached): Machine {
    Machine.Machine(Channel(queue, Stats(|queue.items|, 0, 0, 0)), false, map[], Sum(queue.items),
            multiset(queue.items), multiset{}, [])
  }

  /** In every run there is one stream at most, the queue holds tickets of one epoch and its cache
      is exact, so that the path without a peek gives the value of everything queued. */
  lemma EveryRunIsManaged(queue: Cached, actions: seq<Action>)
    requires queue.Managed()
    ensures var m := Start(queue).Run(actions);
            && m.Exclusive() && m.channel.queue.Managed()
            && m.channel.queue.UnrealizedValue(None) == Sum(m.channel.queue.items)
  {
    Start(queue).RunKeepsExclusive(actions);
    Start(queue).RunKeepsManaged(actions);
    Start(queue).Run(actions).channel.queue.FastPathIsExact();
  }

  /** Each queued ticket gets at most one final result, and the books balance, in every run in
      which no ticket is put in front of the one in flight. */
  lemma EveryRunConserves(queue: Cached, actions: seq<Action>)
    requires Start(queue).NoneOvertakes(actions)
    ensures var m := Start(queue).Run(actions);
            m.Conserves() && Reported(m.results) <= m.arrived
  {
    Start(queue).RunConserves(actions);
  }

  /** In any run at all: tickets stay accounted for once exactly when no report fumbles, and value
      is conserved exactly when no report takes back more than was neglected. */
  lemma ConservationIsExact(queue: Cached, actions: seq<Action>)
    ensures var m := Start(queue).Run(actions);
            && (m.TicketsBalance() <==> Start(queue).NoneFumbles(actions))
            && (m.channel.Value() == m.worth <==> Start(queue).NoneOverbooks(actions))
            && m.worth <= m.channel.Value()
  {
    Start(queue).TicketsBalanceExactly(actions);
    Start(queue).RunBooks(actions);
  }

  lemma EveryRunReportsInOrder(queue: Cached, actions: seq<Action>)
    requires queue.Managed() && Start(queue).AllFollow(actions)
    ensures var results := Start(queue).Run(actions).results;
            forall i, j :: 0 <= i < j < |results| ==> results[i].ticket.Leq(results[j].ticket)
  {
    Start(queue).RunInOrder(actions);
  }

  /** A stream redeems the ticket at the head of the queue without interruption. */
  lemma RedeemHead(m: Machine, id: StreamId)
    requires id in m.streams && m.streams[id] == Stream(0, None) && m.channel.queue.items != []
    ensures var t := m.channel.queue.items[0];
            var n := m.Act(Poll(id)).Act(Finish(id, Some(true)));
            && n.channel.queue == m.channel.queue.Pop() && n.streams == m.streams
            && n.channel.stats == m.channel.stats.(redeemed := m.channel.stats.redeemed + t.amount)
            && n.results == m.results + [Result(t, Redeemed)] && n.arrived == m.arrived && n.worth == m.worth
  {
    assert m.Act(Poll(id)).channel.Heads(m.channel.queue.items[0]);
  }

  /** `t` is queued, a stream starts to redeem it, and `s` arrives in front of it. */
  function Overtaken(s: Ticket, t: Ticket): Machine {
    Start(Cached([], map[], None)).Act(Arrive(t)).Act(Open(0, 0)).Act(Poll(0)).Act(Arrive(s))
  }

  lemma OvertakenState(s: Ticket, t: Ticket)
    requires s.epoch == t.epoch && s.index < t.index
    ensures var m := Overtaken(s, t);
            && m.channel.queue.items == [s, t] && m.streams == map[0 := Stream(0, Some(t))]
            && m.worth == s.amount + t.amount && m.arrived == multiset{s, t}
            && m.results == [] && m.channel.stats.redeemed == 0
  {
    var queued := Start(Cached([], map[], None)).Act(Arrive(t));
    assert queued.channel.queue.items == [t];
    var flying := queued.Act(Open(0, 0)).Act(Poll(0));
    assert flying.channel.queue.items == [t] && flying.streams == map[0 := Stream(0, Some(t))];
    assert Insert([t], s) == [s, t];
  }

  /** The manager redeems the overtaken ticket twice and books more than it ever received. */
  lemma OvertakenTicketIsRedeemedTwice(s: Ticket, t: Ticket)
    requires s.epoch == t.epoch && s.index < t.index && 0 < t.amount
    ensures var once := Overtaken(s, t).Act(Finish(0, Some(true)));
            var twice := once.Act(Poll(0)).Act(Finish(0, Some(true)));
            var m := twice.Act(Poll(0)).Act(Finish(0, Some(true)));
            && m.results == [Result(t, Redeemed), Result(s, Redeemed), Result(t, Redeemed)]
            && m.arrived == multiset{s, t} && m.worth < m.channel.stats.redeemed
  {
    OvertakenState(s, t);
    var once := Overtaken(s, t).Act(Finish(0, Some(true)));
    RedeemHead(once, 0);
    RedeemHead(once.Act(Poll(0)).Act(Finish(0, Some(true))), 0);
  }

  lemma InsertMatches(c: Channel, t: Ticket)
    ensures SingleEpoch(c.queue.items) ==> c.KeepsLatest(t, c.Insert(t), c.InsertNeglects(t))
  {
    if SingleEpoch(c.queue.items) {
      c.InsertKeepsLatest(t);
    }
  }

  lemma NeglectedIsUpTo(c: Channel, maxIndex: nat, gone: seq<Ticket>)
    requires gone + c.Neglect(maxIndex).queue.items == c.queue.items
    ensures gone == UpTo(c.queue.items, maxIndex)
  {
    c.NeglectSplits(maxIndex);
    var q := c.queue.items;
    assert gone == q[..|gone|] && UpTo(q, maxIndex) == q[..|gone|];
  }

  // ----- The critical sections in place -----

  /** `ChannelTicketQueue`: the value-cached queue with its statistics, and the redeem lock. */
  class ChannelTicketQueue {
    const queue: ValueCachedQueue
    var stats: Stats
    var redeemLock: bool

    ghost function Model(): Channel
      reads this, queue, queue.queue
    {
      Channel(queue.Model(), stats)
    }

    ghost predicate Valid()
      reads this, queue, queue.queue
    {
      queue.Valid()
    }

    constructor (queue: ValueCachedQueue)
      requires queue.Valid()
      ensures Valid() && this.queue == queue && !redeemLock
      ensures Model() == Start(queue.Model()).channel
    {
      this.queue := queue;
      stats := Stats(|queue.queue.heap|, 0, 0, 0);
      redeemLock := false;
    }

    /** What `insert_incoming_ticket` does under the write lock of an existing queue. */
    method Insert(t: Ticket) returns (neglected: seq<Ticket>)
      requires Valid()
      modifies this`stats, queue, queue.queue
      ensures Valid()
      ensures Model() == old(Model()).Insert(t)
      ensures neglected == old(Model().InsertNeglects(t))
      ensures old(SingleEpoch(queue.queue.heap)) ==> old(Model()).KeepsLatest(t, Model(), neglected)
    {
      ghost var before := Model();
      InsertMatches(before, t);
      neglected := [];
      var next := queue.queue.Peek();
      if next.Some? {
        if next.value.epoch < t.epoch {
          neglected := queue.Drain();
          stats := stats.(neglected := stats.neglected + Sum(neglected));
        } else if next.value.epoch > t.epoch {
          stats := stats.(winning := stats.winning + 1, neglected := stats.neglected + t.amount);
          return [t];
        }
      }
      queue.Push(t);
      stats := stats.(winning := stats.winning + 1);
    }

    /** `neglect_tickets`, which keeps every other writer out until it is done. */
    method Neglect(upToIndex: Option<nat>) returns (neglected: seq<Ticket>)
      requires Valid()
      modifies this`stats, queue, queue.queue
      ensures Valid()
      ensures var maxIndex := if upToIndex.Some? then upToIndex.value else MAX_TICKET_INDEX;
              && Model() == old(Model()).Neglect(maxIndex)
              && neglected == UpTo(old(queue.queue.heap), maxIndex)
    {
      var maxIndex := if upToIndex.Some? then upToIndex.value else MAX_TICKET_INDEX;
      ghost var start := Model();
      neglected := [];
      var next := queue.queue.Peek();
      while next.Some? && next.value.index <= maxIndex
        invariant Valid() && Model().Neglect(maxIndex) == start.Neglect(maxIndex)
        invariant next == if queue.queue.heap == [] then None else Some(queue.queue.heap[0])
        invariant neglected + queue.queue.heap == start.queue.items
        decreases |queue.queue.heap|
      {
        ghost var before := Model();
        TakeFirst(neglected, before.queue.items);
        var t := queue.Pop();
        stats := stats.(neglected := stats.neglected + t.value.amount);
        assert Model() == before.NeglectHead(maxIndex);
        neglected := neglected + [t.value];
        next := queue.queue.Peek();
      }
      NeglectedIsUpTo(start, maxIndex, neglected);
    }

    /** The compare-and-exchange that guards the creation of a redeem stream. */
    method TryLock() returns (acquired: bool)
      modifies this`redeemLock
      ensures redeemLock && acquired == !old(redeemLock)
    {
      acquired := !redeemLock;
      redeemLock := true;
    }

    /** What a stream does under the write lock once the attempt to redeem `t` is over. */
    method Complete(t: Ticket, outcome: Outcome)
      requires Valid()
      modifies this`stats, queue, queue.queue
      ensures Valid()
      ensures Model() == old(Model()).Complete(t, outcome)
    {
      var next := queue.queue.Peek();
      var popped := next == Some(t);
      if popped {
        var gone := queue.Pop();
      }
      match outcome {
        case Redeemed => stats := stats.(redeemed := stats.redeemed + t.amount);
        case TooLow => stats := stats.(neglected := stats.neglected + t.amount);
        case Rejected => stats := stats.(rejected := stats.rejected + t.amount);
      }
      if !popped {
        stats := stats.(neglected := Minus(stats.neglected, t.amount));
      }
    }
  }
}
