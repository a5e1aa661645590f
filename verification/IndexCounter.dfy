/**
  The lock-free counter behind outgoing ticket indices (ticket-manager/src/utils.rs).

  `Machine` runs any number of threads over one `OutgoingIndexEntry` and over the value its key
  has in the durable store.  One action is one atomic operation of one thread, so a run is an
  arbitrary interleaving of `increment_at_least`, `set` and the per-entry part of `save`.
 */
module IndexCounter {
  import opened Wrappers

  /** Largest index a ticket can carry.  It is defined outside the repository; no result depends
      on its value. */
  const MAX_TICKET_INDEX: nat

  function Cap(index: nat): nat { if index < MAX_TICKET_INDEX then index else MAX_TICKET_INDEX }

  type Thread = nat

  /** What a thread does next. */
  datatype Pc =
    | Idle
    | Take(min: nat)              // first fetch_add of increment_at_least
    | Lift(min: nat)              // fetch_max, after taking a value below min
    | Retake(min: nat)            // second fetch_add
    | Mark(min: nat, value: nat)  // store the dirty flag and return value
    | Raise(to: nat)              // fetch_max of set
    | MarkRaised                  // store the dirty flag of set
    | Check                       // save: read the dirty flag
    | Load                        // save: read the index
    | Write(index: nat)           // save: write the store
    | Clear                       // save: clear the dirty flag
  {
    /** The first operation of a call. */
    predicate IsEntry() { Take? || Raise? || Check? }
  }

  /** A finished `increment_at_least(min)` whose increment of the counter took `value`. */
  datatype Call = Call(min: nat, value: nat)
  {
    function Returned(): nat { Cap(value) }
  }

  /** What became of a value that some fetch_add took from the counter. */
  datatype Use = Skipped | Held(holder: Thread) | Returned

  /** `start` is the index the entry was created with; `calls` and `uses` record what happened
      since. */
  datatype Machine = Machine(
    start: nat,
    index: nat,
    dirty: bool,
    stored: nat,
    pcs: map<Thread, Pc>,
    calls: seq<Call>,
    uses: map<nat, Use>)
  {
    function PcOf(t: Thread): Pc { if t in pcs then pcs[t] else Idle }

    function Goto(t: Thread, pc: Pc): Machine { this.(pcs := pcs[t := pc]) }

    function Return(t: Thread, call: Call): Machine {
      Goto(t, Idle).(calls := calls + [call], uses := uses[call.value := Returned])
    }

    /** What the thread does after its fetch_add took `index` for good. */
    function Keep(t: Thread, min: nat): Machine {
      var m := this.(index := index + 1);
      if index <= MAX_TICKET_INDEX then m.Goto(t, Mark(min, index)).(uses := uses[index := Held(t)])
      else m.Return(t, Call(min, index))
    }

    /** The next atomic operation of `t`. */
    function Step(t: Thread): Machine {
      match PcOf(t)
      case Idle => this
      case Take(min) =>
        if index < min then Goto(t, Lift(min)).(index := index + 1, uses := uses[index := Skipped])
        else Keep(t, min)
      case Lift(min) => this.(index := Max(index, min)).Goto(t, Retake(min))
      case Retake(min) => Keep(t, min)
      case Mark(min, value) => this.(dirty := true).Return(t, Call(min, value))
      case Raise(to) => this.(index := Max(index, to)).Goto(t, if index < to then MarkRaised else Idle)
      case MarkRaised => this.(dirty := true).Goto(t, Idle)
      case Check => Goto(t, if dirty then Load else Idle)
      case Load => Goto(t, Write(Cap(index)))
      case Write(i) => this.(stored := i).Goto(t, Clear)
      case Clear => this.(dirty := false).Goto(t, Idle)
    }

    function Act(a: Action): Machine {
      match a
      case Step(t) => Step(t)
      case Begin(t, pc) => if PcOf(t).Idle? && pc.IsEntry() then Goto(t, pc) else this
      case SaveAtOnce => if dirty then this.(stored := Cap(index), dirty := false) else this
    }

    function Run(actions: seq<Action>): Machine {
      if actions == [] then this else Run(actions[..|actions| - 1]).Act(actions[|actions| - 1])
    }

    /** Every index below the maximum that a call returned is below the stored one. */
    ghost predicate Covered() {
      forall c :: c in calls && c.Returned() < MAX_TICKET_INDEX ==> c.Returned() < stored
    }

    ghost predicate ThreadInv(t: Thread) {
      match PcOf(t)
      case Retake(min) => min <= index
      case Mark(min, value) => min <= value <= MAX_TICKET_INDEX && value in uses && uses[value] == Held(t)
      case _ => true
    }

    /** Every value taken from the counter is below it and has one use. */
    ghost predicate Inv() {
      && start <= index
      && (forall v :: v in uses ==> start <= v < index)
      && (forall t :: ThreadInv(t))
      && (forall c :: c in calls ==> c.min <= c.value && c.value in uses && uses[c.value] == Returned)
      && (forall i, j :: 0 <= i < j < |calls| ==> calls[i].value != calls[j].value)
    }

    // ----- Every interleaving -----

    lemma ReturnKeepsInv(t: Thread, call: Call)
      requires Inv() && start <= call.value && call.min <= call.value < index
      requires call.value !in uses || uses[call.value] == Held(t)
      requires PcOf(t).Mark? ==> PcOf(t).value == call.value
      ensures Return(t, call).Inv()
    {
      var m := Return(t, call);
      forall u ensures m.ThreadInv(u) {
        assert ThreadInv(u);
      }
    }

    lemma KeepKeepsInv(t: Thread, min: nat)
      requires Inv() && min <= index && !PcOf(t).Mark?
      ensures Keep(t, min).Inv()
    {
      var m := this.(index := index + 1);
      assert forall u :: ThreadInv(u) ==> m.ThreadInv(u);
      if MAX_TICKET_INDEX < index {
        m.ReturnKeepsInv(t, Call(min, index));
      } else {
        forall u ensures Keep(t, min).ThreadInv(u) {
          assert ThreadInv(u);
        }
      }
    }

    lemma StepKeepsInv(t: Thread)
      requires Inv()
      ensures Step(t).Inv() && index <= Step(t).index
    {
      assert ThreadInv(t);
      var pc := PcOf(t);
      if (pc.Take? && pc.min <= index) || pc.Retake? {
        KeepKeepsInv(t, pc.min);
      } else if pc.Mark? {
        var m := this.(dirty := true);
        assert forall u :: ThreadInv(u) ==> m.ThreadInv(u);
        m.ReturnKeepsInv(t, Call(pc.min, pc.value));
      } else {
        forall u ensures Step(t).ThreadInv(u) {
          assert ThreadInv(u);
        }
      }
    }

    lemma ActKeepsInv(a: Action)
      requires Inv()
      ensures Act(a).Inv() && index <= Act(a).index && Act(a).start == start
    {
      if a.Step? {
        StepKeepsInv(a.t);
      } else {
        forall u ensures Act(a).ThreadInv(u) {
          assert ThreadInv(u);
        }
      }
    }

    lemma {:induction false} RunKeepsInv(actions: seq<Action>)
      requires Inv()
      ensures Run(actions).Inv() && index <= Run(actions).index && Run(actions).start == start
    {
      if actions != [] {
        RunKeepsInv(actions[..|actions| - 1]);
        Run(actions[..|actions| - 1]).ActKeepsInv(actions[|actions| - 1]);
      }
    }

    /** Nothing is promised to callers until their call returns; two of them are given the same
        index exactly when both are given the maximum, none is below its caller's minimum or the
        start, and none below the maximum is a value that a lifting caller skipped. */
    lemma Allocation(actions: seq<Action>)
      requires IsFresh()
      ensures var m := Run(actions);
              && start <= m.index
              && (forall i, j :: 0 <= i < j < |m.calls| ==>
                    (m.calls[i].Returned() == m.calls[j].Returned() <==>
                     m.calls[i].Returned() == MAX_TICKET_INDEX == m.calls[j].Returned()))
              && (forall c :: c in m.calls ==> Cap(Max(c.min, start)) <= c.Returned())
              && (forall c, v :: c in m.calls && v in m.uses && m.uses[v].Skipped? && v < MAX_TICKET_INDEX ==>
                    c.Returned() != v)
    {
      RunKeepsInv(actions);
      var m := Run(actions);
      assert forall i :: 0 <= i < |m.calls| ==> m.calls[i] in m.calls;
      forall c, v | c in m.calls && v in m.uses && m.uses[v].Skipped? ensures c.value != v {
        assert m.uses[c.value] == Returned;
      }
    }

    ghost predicate IsFresh() {
      index == start && dirty && pcs == map[] && calls == [] && uses == map[]
    }

    /** A call that nothing interrupts takes the larger of the counter and its minimum. */
    lemma Uninterrupted(t: Thread, min: nat)
      requires PcOf(t).Idle?
      ensures var m := Act(Begin(t, Take(min))).Step(t).Step(t).Step(t).Step(t);
              && m.PcOf(t).Idle? && m.calls == calls + [Call(min, Max(index, min))]
              && m.index == Max(index, min) + 1
              && m.dirty == (dirty || Max(index, min) <= MAX_TICKET_INDEX)
    {
      var m1 := Act(Begin(t, Take(min))).Step(t);
      if index < min {
        var m2 := m1.Step(t);
        assert m2.PcOf(t) == Retake(min) && m2.index == min;
        var m3 := m2.Step(t);
        assert min <= MAX_TICKET_INDEX ==> m3.PcOf(t) == Mark(min, min);
      } else {
        assert index <= MAX_TICKET_INDEX ==> m1.PcOf(t) == Mark(min, index);
        var m2 := m1.Step(t);
        assert m2.PcOf(t).Idle?;
      }
    }

    /** The same of `set`: the counter is raised, and marked dirty only if it was below. */
    lemma UninterruptedSet(t: Thread, to: nat)
      requires PcOf(t).Idle?
      ensures var m := Act(Begin(t, Raise(to))).Step(t).Step(t);
              && m.PcOf(t).Idle? && m.calls == calls
              && m.index == Max(index, to) && m.dirty == (dirty || index < to)
    {
      var m := Act(Begin(t, Raise(to))).Step(t);
      assert m.PcOf(t) == if index < to then MarkRaised else Idle;
    }

    /** A call that asks for no minimum and meets no interruption. */
    function Ask(t: Thread): Machine {
      Act(Begin(t, Take(0))).Step(t).Step(t)
    }

    lemma AskResult(t: Thread)
      requires PcOf(t).Idle?
      ensures var m := Ask(t);
              && m.calls == calls + [Call(0, index)] && m.index == index + 1 && m.stored == stored
              && m.dirty == (dirty || index <= MAX_TICKET_INDEX)
              && forall u :: m.PcOf(u) == PcOf(u)
    {
      assert Act(Begin(t, Take(0))).Step(t).PcOf(t) == if index <= MAX_TICKET_INDEX then Mark(0, index) else Idle;
    }

    /** The steps of a save, one by one. */
    lemma SaveStep(t: Thread)
      requires PcOf(t).Load? || PcOf(t).Write? || PcOf(t).Clear?
      ensures var m := Step(t);
              && m.calls == calls && m.index == index && (forall u :: u != t ==> m.PcOf(u) == PcOf(u))
              && m.PcOf(t) == (match PcOf(t) case Load => Write(Cap(index)) case Write(_) => Clear case _ => Idle)
              && m.stored == (if PcOf(t).Write? then PcOf(t).index else stored)
              && m.dirty == (dirty && !PcOf(t).Clear?)
    {
    }

    lemma RunOne(a: Action)
      ensures Run([a]) == Act(a)
    {
      assert [a][..0] == [] && Run([]) == this;
    }

    /** A save goes on only with a dirty entry. */
    lemma SaverChecks(t: Thread)
      requires PcOf(t).Idle?
      ensures var m := Act(Begin(t, Check)).Step(t);
              && m.PcOf(t) == (if dirty then Load else Idle) && m.(pcs := pcs) == this
              && forall u :: u != t ==> m.PcOf(u) == PcOf(u)
    {
    }

    /** A save at once is a save that nothing interrupts. */
    lemma SaveAtOnceIsUninterrupted(t: Thread)
      requires PcOf(t).Idle?
      ensures var m := Act(Begin(t, Check)).Step(t).Step(t).Step(t).Step(t);
              && m.PcOf(t) == Idle && m.calls == calls
              && m.index == index && m.stored == Act(SaveAtOnce).stored && m.dirty == Act(SaveAtOnce).dirty
    {
      SaverChecks(t);
      var m := Act(Begin(t, Check)).Step(t);
      if dirty {
        m.SaveStep(t);
        m.Step(t).SaveStep(t);
        m.Step(t).Step(t).SaveStep(t);
      }
    }

    lemma SaverReads(t: Thread)
      requires PcOf(t).Idle? && dirty
      ensures var m := Act(Begin(t, Check)).Step(t).Step(t);
              && m.PcOf(t) == Write(Cap(index)) && m.(pcs := pcs) == this
              && forall u :: u != t ==> m.PcOf(u) == PcOf(u)
    {
      assert Act(Begin(t, Check)).Step(t).PcOf(t) == Load;
    }

    lemma SaverFinishes(t: Thread)
      requires PcOf(t).Write?
      ensures var m := Step(t).Step(t);
              && !m.dirty && m.stored == PcOf(t).index && m.calls == calls
              && forall u :: u != t ==> m.PcOf(u) == PcOf(u)
    {
      assert Step(t).PcOf(t) == Clear;
    }

    // ----- Saving -----

    /** `t` is not inside a save. */
    predicate NotSaving(t: Thread) {
      var pc := PcOf(t);
      !pc.Check? && !pc.Load? && !pc.Write? && !pc.Clear?
    }

    ghost predicate CleanMeansCovered() {
      (forall t :: NotSaving(t)) && (dirty || Covered())
    }

    lemma ActKeepsCovered(a: Action)
      requires Inv() && CleanMeansCovered() && !a.StartsSave()
      ensures Act(a).CleanMeansCovered()
    {
      var m := Act(a);
      assert a.Step? ==> NotSaving(a.t);
      forall t ensures m.NotSaving(t) {
        assert NotSaving(t);
      }
      if !m.dirty {
        forall c | c in m.calls && c.Returned() < MAX_TICKET_INDEX ensures c.Returned() < m.stored {
          assert c in calls;
        }
      }
    }

    /** When each save runs without interruption, then at all times a clean entry has every
        index returned so far, short of the maximum, below what the store holds. */
    lemma {:induction false} UninterruptedSavesCover(actions: seq<Action>)
      requires IsFresh() && forall a :: a in actions ==> !a.StartsSave()
      ensures Run(actions).CleanMeansCovered()
    {
      if actions != [] {
        var n := |actions| - 1;
        UninterruptedSavesCover(actions[..n]);
        RunKeepsInv(actions[..n]);
        Run(actions[..n]).ActKeepsCovered(actions[n]);
      }
    }

    /** The action puts an index into the store. */
    predicate Writes(a: Action) {
      (a.Step? && PcOf(a.t).Write?) || (a.SaveAtOnce? && dirty)
    }

    ghost predicate NoneWrites(w: seq<Action>) {
      w == [] || (NoneWrites(w[..|w| - 1]) && !Run(w[..|w| - 1]).Writes(w[|w| - 1]))
    }

    lemma OtherActs(saver: Thread, a: Action)
      requires a.IsOther(saver)
      ensures Act(a).PcOf(saver) == PcOf(saver) && calls <= Act(a).calls
    {
    }

    lemma OnlyWritesStore(a: Action)
      requires !Writes(a)
      ensures Act(a).stored == stored
    {
    }

    lemma {:induction false} OthersRun(saver: Thread, w: seq<Action>)
      requires Inv() && forall a :: a in w ==> a.IsOther(saver)
      ensures var m := Run(w);
              && m.Inv() && index <= m.index && m.PcOf(saver) == PcOf(saver) && calls <= m.calls
              && (NoneWrites(w) ==> m.stored == stored)
    {
      if w != [] {
        var n := |w| - 1;
        OthersRun(saver, w[..n]);
        assert w[n] in w;
        Run(w[..n]).ActKeepsInv(w[n]);
        Run(w[..n]).OtherActs(saver, w[n]);
        if NoneWrites(w) {
          Run(w[..n]).OnlyWritesStore(w[n]);
        }
      }
    }

    /** A save as `OutgoingIndexCache::save` performs it, from reading the index on, with other
        callers running during `w1` and `w2`. */
    function SaveAmid(saver: Thread, w1: seq<Action>, w2: seq<Action>): Machine {
      Step(saver).Run(w1).Step(saver).Run(w2).Step(saver)
    }

    /** The save leaves the entry clean; what it left in the store covers every returned index
        exactly when no call both took an index below the maximum and returned it while the save
        was under way.  Other saves may be under way too, as long as none writes the store between
        the write of this one and its end. */
    lemma InterruptedSave(saver: Thread, w1: seq<Action>, w2: seq<Action>)
      requires Inv() && PcOf(saver).Load?
      requires forall a :: a in w1 || a in w2 ==> a.IsOther(saver)
      requires Step(saver).Run(w1).Step(saver).NoneWrites(w2)
      ensures var m := SaveAmid(saver, w1, w2);
              && !m.dirty && m.stored == Cap(index) && calls <= m.calls
              && (m.Covered() <==> forall c :: c in m.calls[|calls|..] ==> !(index <= c.value < MAX_TICKET_INDEX))
    {
      StepKeepsInv(saver);
      var m1 := Step(saver);
      m1.OthersRun(saver, w1);
      var m2 := m1.Run(w1).Step(saver);
      m1.Run(w1).StepKeepsInv(saver);
      m2.OthersRun(saver, w2);
      SaveAmid(saver, w1, w2).CoversUpTo(calls, index);
    }

    /** A store that holds `bound` covers all calls exactly when it covers those after `before`. */
    lemma CoversUpTo(before: seq<Call>, bound: nat)
      requires before <= calls && stored == Cap(bound)
      requires forall c :: c in before ==> c.value < bound
      ensures Covered() <==> forall c :: c in calls[|before|..] ==> !(bound <= c.value < MAX_TICKET_INDEX)
    {
      var finished := calls[|before|..];
      assert calls == before + finished;
      assert forall c :: c in calls <==> c in before || c in finished;
      if Covered() {
        forall c | c in finished ensures !(bound <= c.value < MAX_TICKET_INDEX) {
          assert c.Returned() < MAX_TICKET_INDEX ==> c.Returned() < stored;
        }
      } else {
        var c :| c in calls && c.Returned() < MAX_TICKET_INDEX && stored <= c.Returned();
        assert c in finished && bound <= c.value < MAX_TICKET_INDEX;
      }
    }
  }

  datatype Action =
    | Step(t: Thread)
    | Begin(t: Thread, pc: Pc)
    | SaveAtOnce  // a whole save of this entry with nothing in between
  {
    predicate StartsSave() { Begin? && pc.Check? }

    /** An action of a thread other than `saver`. */
    predicate IsOther(saver: Thread) { SaveAtOnce? || t != saver }
  }

  function Fresh(start: nat, stored: nat): Machine {
    Machine(start, start, true, stored, map[], [], map[])
  }

  /** A save that a caller overtakes: index 1 is returned while the save is under way, the save
      that follows finds the entry clean and skips it, and after a restart from the store index 1
      is returned again. */
  lemma OvertakenSaveReissues()
    requires 1 < MAX_TICKET_INDEX
    ensures var saving := Fresh(0, 0).Ask(0).Act(Begin(1, Check)).Step(1).Step(1);
            var saved := saving.Ask(0).Step(1).Step(1).Act(SaveAtOnce);
            && saved.calls == [Call(0, 0), Call(0, 1)] && !saved.dirty
            && Fresh(saved.stored, saved.stored).Ask(0).calls == [Call(0, 1)]
  {
    var m1 := Fresh(0, 0);
    m1.AskResult(0);
    m1.Ask(0).SaverReads(1);
    var saving := m1.Ask(0).Act(Begin(1, Check)).Step(1).Step(1);
    saving.AskResult(0);
    saving.Ask(0).SaverFinishes(1);
    Fresh(1, 1).AskResult(0);
  }

  /** Two calls on a counter that has reached the maximum return it both. */
  lemma SaturationReissues(stored: nat)
    ensures var m := Fresh(MAX_TICKET_INDEX, stored).Ask(0).Ask(0);
            |m.calls| == 2 && m.calls[0].Returned() == m.calls[1].Returned() == MAX_TICKET_INDEX
  {
    Fresh(MAX_TICKET_INDEX, stored).AskResult(0);
    Fresh(MAX_TICKET_INDEX, stored).Ask(0).AskResult(0);
  }

  /** Saver 2 has read index 1, then index 1 was returned, then saver 1 has found the entry dirty. */
  lemma StaleSaver() returns (m: Machine)
    requires 1 < MAX_TICKET_INDEX
    ensures m == Fresh(0, 0).Ask(0).Act(Begin(2, Check)).Step(2).Step(2).Ask(0).Act(Begin(1, Check)).Step(1)
    ensures m.calls == [Call(0, 0), Call(0, 1)] && m.index == 2
    ensures m.PcOf(1) == Load && m.PcOf(2) == Write(1)
  {
    var m1 := Fresh(0, 0);
    m1.AskResult(0);
    m1.Ask(0).SaverReads(2);
    var saving := m1.Ask(0).Act(Begin(2, Check)).Step(2).Step(2);
    saving.AskResult(0);
    saving.Ask(0).SaverChecks(1);
    m := saving.Ask(0).Act(Begin(1, Check)).Step(1);
  }

  /** A stale write between the write of a save and its end: no call runs inside the save of thread
      1, which reads index 2 and writes it; thread 2 then writes the index 1 it had read before.  The
      entry is left clean, and index 1, which was returned, is not covered. */
  lemma StaleWriteUncovers() returns (loading: Machine, m: Machine)
    requires 1 < MAX_TICKET_INDEX
    ensures loading == Fresh(0, 0).Ask(0).Act(Begin(2, Check)).Step(2).Step(2).Ask(0).Act(Begin(1, Check)).Step(1)
    ensures loading.PcOf(1).Load? && m == loading.SaveAmid(1, [], [Action.Step(2)])
    ensures m.calls == loading.calls && !m.dirty && m.stored == 1 && !m.Covered()
  {
    loading := StaleSaver();
    loading.SaveStep(1);
    var read := loading.Step(1);
    read.SaveStep(1);
    var written := read.Step(1);
    written.SaveStep(2);
    var stale := written.Step(2);
    stale.SaveStep(1);
    written.RunOne(Action.Step(2));
    m := stale.Step(1);
    StaleWriteIsSaveAmid(loading);
    assert m.calls[1] in m.calls;
  }

  lemma StaleWriteIsSaveAmid(m: Machine)
    ensures m.SaveAmid(1, [], [Action.Step(2)]) == m.Step(1).Step(1).Step(2).Step(1)
  {
    m.Step(1).Step(1).RunOne(Action.Step(2));
  }
}
