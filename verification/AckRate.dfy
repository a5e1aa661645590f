/**
  The decayed acknowledgement rate of an immediate peer (graph/src/weight.rs), over real
  numbers.
 */
module AckRate {
  import opened Wrappers

  const ACK_DECAY: real := 0.9
  const MIN_ACK_SAMPLE_VOLUME: real := 1.0

  /** Default floor below which data paths reject the peer (graph/src/petgraph/graph.rs). */
  const DEFAULT_MIN_ACK_RATE: real := 0.1

  datatype Report = Report(packets: nat, acks: nat)

  datatype Counts = Counts(sent: real, acked: real)
  {
    function Record(r: Report): Counts {
      Counts(sent * ACK_DECAY + r.packets as real, acked * ACK_DECAY + r.acks as real)
    }

    function Rate(): Option<real> {
      if sent >= MIN_ACK_SAMPLE_VOLUME then Some(Clamp(acked / sent)) else None
    }

    function Run(reports: seq<Report>): Counts {
      if reports == [] then this else Run(reports[..|reports| - 1]).Record(reports[|reports| - 1])
    }

    /** What a history of small, honest reports can leave behind: the decay bounds its weight. */
    ghost predicate Bounded(volume: nat) {
      0.0 <= acked <= sent <= 10.0 * volume as real
    }

    lemma {:induction false} HistoryIsBounded(reports: seq<Report>, volume: nat)
      requires Bounded(volume)
      requires forall r :: r in reports ==> r.acks <= r.packets <= volume
      ensures Run(reports).Bounded(volume)
    {
      if reports != [] {
        HistoryIsBounded(reports[..|reports| - 1], volume);
        assert reports[|reports| - 1] in reports;
      }
    }

    /** Silent reports decay the acknowledgements and keep the volume up. */
    lemma {:induction false} SilenceDecays(silent: seq<Report>, volume: nat)
      requires Bounded(volume)
      requires forall r :: r in silent ==> r.acks == 0 && volume <= r.packets
      ensures Run(silent).acked == Decayed(acked, |silent|) && sent <= Run(silent).sent
      ensures silent != [] ==> volume as real <= Run(silent).sent
    {
      if silent != [] {
        SilenceDecays(silent[..|silent| - 1], volume);
        assert silent[|silent| - 1] in silent;
      }
    }
  }

  function Clamp(x: real): real {
    if x < 0.0 then 0.0 else if x > 1.0 then 1.0 else x
  }

  function Decay(k: nat): real {
    if k == 0 then 1.0 else Decay(k - 1) * ACK_DECAY
  }

  lemma {:induction false} DecayBounds(k: nat)
    ensures 0.0 < Decay(k) <= 1.0
  {
    if k > 0 {
      DecayBounds(k - 1);
    }
  }

  lemma {:induction false} DecayFalls(j: nat, k: nat)
    requires j <= k
    ensures Decay(k) <= Decay(j)
  {
    if j < k {
      DecayFalls(j, k - 1);
      DecayBounds(k - 1);
    }
  }

  function Decayed(x: real, k: nat): real {
    if k == 0 then x else Decayed(x, k - 1) * ACK_DECAY
  }

  lemma {:induction false} DecayedIsProduct(x: real, k: nat)
    ensures Decayed(x, k) == x * Decay(k)
  {
    if k > 0 {
      DecayedIsProduct(x, k - 1);
    }
  }

  lemma MulMonotone(a: real, b: real, d: real)
    requires a <= b && 0.0 <= d
    ensures a * d <= b * d
  {
  }

  lemma DivideBound(a: real, b: real, d: real)
    requires 0.0 <= a <= b * d && 0.0 < b
    ensures 0.0 <= a / b <= d
  {
  }

  lemma DecayedRate(c: Counts, acked: real, k: nat)
    requires c.acked == Decayed(acked, k) && 0.0 <= acked <= c.sent && 1.0 <= c.sent
    ensures c.Rate().Some? && 0.0 <= c.Rate().value <= Decay(k)
  {
    DecayedIsProduct(acked, k);
    DecayBounds(k);
    MulMonotone(0.0, acked, Decay(k));
    MulMonotone(acked, c.sent, Decay(k));
    DivideBound(c.acked, c.sent, Decay(k));
  }

  /** However good the history, `k` silent reports of at least its largest volume leave the rate
      at most 0.9 to the power `k`. */
  lemma SilenceDemotes(history: seq<Report>, silent: seq<Report>, volume: nat)
    requires 1 <= volume && silent != []
    requires forall r :: r in history ==> r.acks <= r.packets <= volume
    requires forall r :: r in silent ==> r.acks == 0 && volume <= r.packets
    ensures var rate := Counts(0.0, 0.0).Run(history).Run(silent).Rate();
            rate.Some? && 0.0 <= rate.value <= Decay(|silent|)
  {
    var start := Counts(0.0, 0.0);
    start.HistoryIsBounded(history, volume);
    var before := start.Run(history);
    before.SilenceDecays(silent, volume);
    DecayedRate(before.Run(silent), before.acked, |silent|);
  }

  // ----- What the counters are -----

  /** What `counts` adds up to when each entry has decayed once for every later one. */
  function DecayedSum(counts: seq<nat>): real {
    if counts == [] then 0.0 else Decayed(counts[0] as real, |counts| - 1) + DecayedSum(counts[1..])
  }

  function Packets(reports: seq<Report>): seq<nat> {
    seq(|reports|, i requires 0 <= i < |reports| => reports[i].packets)
  }

  function Acks(reports: seq<Report>): seq<nat> {
    seq(|reports|, i requires 0 <= i < |reports| => reports[i].acks)
  }

  lemma {:induction false} DecayedSumSnoc(counts: seq<nat>, c: nat)
    ensures DecayedSum(counts + [c]) == DecayedSum(counts) * ACK_DECAY + c as real
  {
    if counts == [] {
      assert (counts + [c])[1..] == [];
      assert DecayedSum([]) == 0.0 && Decayed(c as real, 0) == c as real;
    } else {
      assert (counts + [c])[1..] == counts[1..] + [c];
      DecayedSumSnoc(counts[1..], c);
    }
  }

  /** One counter after reports of `counts`. */
  function Counted(x: real, counts: seq<nat>): real {
    if counts == [] then x else Counted(x, counts[..|counts| - 1]) * ACK_DECAY + counts[|counts| - 1] as real
  }

  lemma {:induction false} CountedIsDecayedSum(x: real, counts: seq<nat>)
    ensures Counted(x, counts) == Decayed(x, |counts|) + DecayedSum(counts)
  {
    if counts != [] {
      var n := |counts| - 1;
      CountedIsDecayedSum(x, counts[..n]);
      assert counts == counts[..n] + [counts[n]];
      DecayedSumSnoc(counts[..n], counts[n]);
    }
  }

  lemma {:induction false} CountersAreCounted(c: Counts, reports: seq<Report>)
    ensures c.Run(reports) == Counts(Counted(c.sent, Packets(reports)), Counted(c.acked, Acks(reports)))
  {
    if reports != [] {
      var n := |reports| - 1;
      CountersAreCounted(c, reports[..n]);
      assert Packets(reports)[..n] == Packets(reports[..n]) && Acks(reports)[..n] == Acks(reports[..n]);
    }
  }

  /** Both counters are what they were, decayed, and the decayed sums of what was reported since. */
  lemma CountersAreDecayedSums(c: Counts, reports: seq<Report>)
    ensures var m := c.Run(reports);
            && m.sent == Decayed(c.sent, |reports|) + DecayedSum(Packets(reports))
            && m.acked == Decayed(c.acked, |reports|) + DecayedSum(Acks(reports))
  {
    CountersAreCounted(c, reports);
    CountedIsDecayedSum(c.sent, Packets(reports));
    CountedIsDecayedSum(c.acked, Acks(reports));
  }

  /** The rate is given exactly from a decayed volume of one packet on, and is the ratio of the
      counters. */
  lemma RateIsRatio(c: Counts)
    requires 0.0 <= c.acked <= c.sent
    ensures c.Rate().Some? <==> 1.0 <= c.sent
    ensures c.Rate().Some? ==> 0.0 <= c.Rate().value <= 1.0 && c.Rate().value * c.sent == c.acked
  {
    if 1.0 <= c.sent {
      DivideBound(c.acked, c.sent, 1.0);
    }
  }

  /** A peer that acknowledges everything has rate one. */
  lemma PerfectPeer(reports: seq<Report>)
    requires forall r :: r in reports ==> r.acks == r.packets
    requires 1.0 <= DecayedSum(Packets(reports))
    ensures Counts(0.0, 0.0).Run(reports).Rate() == Some(1.0)
  {
    CountersAreDecayedSums(Counts(0.0, 0.0), reports);
    DecayedIsProduct(0.0, |reports|);
    PerfectAcks(reports);
    DivideLower(DecayedSum(Packets(reports)), DecayedSum(Packets(reports)), 1.0);
  }

  lemma PerfectAcks(reports: seq<Report>)
    requires forall r :: r in reports ==> r.acks == r.packets
    ensures Acks(reports) == Packets(reports)
  {
    assert forall i :: 0 <= i < |reports| ==> reports[i] in reports;
  }

  lemma DivideLower(a: real, b: real, d: real)
    requires b * d <= a <= b && 0.0 < b
    ensures d <= a / b <= 1.0
  {
  }

  /** Full acknowledgement keeps the volume up and decays what is missing. */
  lemma {:induction false} AcknowledgingRepairs(c: Counts, full: seq<Report>, volume: nat)
    requires c.Bounded(volume)
    requires forall r :: r in full ==> r.acks == r.packets && volume <= r.packets
    ensures var m := c.Run(full);
            && m.sent - m.acked == Decayed(c.sent - c.acked, |full|) && c.sent <= m.sent
            && (full != [] ==> volume as real <= m.sent)
  {
    if full != [] {
      AcknowledgingRepairs(c, full[..|full| - 1], volume);
      assert full[|full| - 1] in full;
    }
  }

  /** However bad the history, `k` fully acknowledged reports of at least its largest volume bring
      the rate up to at least one less 0.9 to the power `k`. */
  lemma AcknowledgementRecovers(history: seq<Report>, full: seq<Report>, volume: nat)
    requires 1 <= volume && full != []
    requires forall r :: r in history ==> r.acks <= r.packets <= volume
    requires forall r :: r in full ==> r.acks == r.packets && volume <= r.packets
    ensures var rate := Counts(0.0, 0.0).Run(history).Run(full).Rate();
            rate.Some? && 1.0 - Decay(|full|) <= rate.value <= 1.0
  {
    var start := Counts(0.0, 0.0);
    start.HistoryIsBounded(history, volume);
    var before := start.Run(history);
    AcknowledgingRepairs(before, full, volume);
    RecoveredRate(before.Run(full), before.sent - before.acked, |full|);
  }

  lemma RecoveredRate(c: Counts, missing: real, k: nat)
    requires c.sent - c.acked == Decayed(missing, k) && 0.0 <= missing <= c.sent && 1.0 <= c.sent
    ensures c.Rate().Some? && 1.0 - Decay(k) <= c.Rate().value <= 1.0
  {
    DecayedIsProduct(missing, k);
    DecayBounds(k);
    MulMonotone(missing, c.sent, Decay(k));
    MulMonotone(0.0, missing, Decay(k));
    assert c.sent * (1.0 - Decay(k)) == c.sent - c.sent * Decay(k);
    DivideLower(c.acked, c.sent, 1.0 - Decay(k));
  }

  lemma DecayValues()
    ensures Decay(21) > DEFAULT_MIN_ACK_RATE > Decay(22)
  {
    var d5 := 0.59049;
    assert Decay(5) == d5;
    assert Decay(10) == d5 * d5 by { assert Decay(8) == d5 * 0.729; }
    var d10 := 0.3486784401;
    assert Decay(15) == d10 * d5 by { assert Decay(13) == d10 * 0.729; }
    assert Decay(20) == d10 * d10 by { assert Decay(18) == d10 * d5 * 0.729; }
  }

  /** From 22 silent reports on, and no earlier, the bound is below the default floor. */
  lemma TwentyTwoReportsDemote(k: nat)
    ensures Decay(k) < DEFAULT_MIN_ACK_RATE <==> 22 <= k
  {
    DecayValues();
    if 22 <= k {
      DecayFalls(22, k);
    } else {
      DecayFalls(k, 21);
    }
  }

  /** The two counters of `TransportImmediates`. */
  class TransportImmediates {
    var messagesSent: real
    var acksReceived: real

    ghost function Model(): Counts
      reads this
    {
      Counts(messagesSent, acksReceived)
    }

    constructor ()
      ensures Model() == Counts(0.0, 0.0)
    {
      messagesSent, acksReceived := 0.0, 0.0;
    }

    method RecordConformance(r: Report)
      modifies this
      ensures Model() == old(Model()).Record(r)
    {
      messagesSent := messagesSent * ACK_DECAY + r.packets as real;
      acksReceived := acksReceived * ACK_DECAY + r.acks as real;
    }
  }
}
