/**
  Nonces of submitted transactions (connector/src/connector/sequencer.rs).

  The sequencer handles one request at a time, for any number of signers.  The chain is an
  environment: each request carries the pending count it observed, when, and how the submission
  went.  `State` is the sequencer as a value; the class below performs the same steps in place.
 */
module NonceSequencer {
  import opened Wrappers

  type Signer = nat
  type TxId = nat
  type Instant = nat

  /** The client errors that the sequencer tells apart (connector/src/errors.rs). */
  datatype Error =
    | HoprActionRejected
    | HoprActionThrottled
    | BlokliError(kind: string, code: string)
    | OtherError
  {
    predicate IsRefusedBeforeBroadcast() {
      || HoprActionRejected?
      || HoprActionThrottled?
      || (BlokliError? && kind in {"overloaded", "contract not allowed", "function not allowed"})
    }

    function RpcRejectionCode(): Option<string> {
      if BlokliError? && kind == "rpc error" then Some(code) else None
    }
  }

  /** `Unsubmitted` when the transaction failed before it reached Blokli. */
  datatype Submission = Unsubmitted | Tracked(id: TxId) | Failed(error: Error)

  /** `Unreached` when the chain could not be asked for the pending count. */
  datatype Attempt = Unreached | Reached(pending: nat, now: Instant, submission: Submission)

  datatype Request = Request(signer: Signer, attempt: Attempt)
  {
    predicate Reaches(s: Signer) { signer == s && attempt.Reached? }
  }

  /** Whether the nonce is used up now; `None` when the result does not tell. */
  function NonceConsumed(submission: Submission, deduplicated: bool): Option<bool> {
    match submission
    case Unsubmitted => Some(false)
    case Tracked(_) => Some(!deduplicated)
    case Failed(error) =>
      if error.IsRefusedBeforeBroadcast() then Some(false)
      else
        match error.RpcRejectionCode()
        case None => None
        case Some(code) =>
          if code in {"NONCE_TOO_LOW", "REPLACEMENT_UNDERPRICED"} then Some(true)
          else if code in {"FEE_TOO_LOW", "INSUFFICIENT_FUNDS"} then Some(false)
          else None
  }

  // ----- What each kind of result means for the nonce -----

  /** A transaction that was tracked under a new id used its nonce, and so did another one where
      the refusal says so. */
  predicate UsesNonce(submission: Submission, seen: bool) {
    match submission
    case Tracked(_) => !seen
    case Failed(BlokliError(kind, code)) => kind == "rpc error" && code in {"NONCE_TOO_LOW", "REPLACEMENT_UNDERPRICED"}
    case _ => false
  }

  /** Nothing was submitted, or it was a retry of what is in flight, or it was refused before its
      broadcast, or by the RPC node for lack of means. */
  predicate SparesNonce(submission: Submission, seen: bool) {
    match submission
    case Unsubmitted => true
    case Tracked(_) => seen
    case Failed(HoprActionRejected) => true
    case Failed(HoprActionThrottled) => true
    case Failed(BlokliError(kind, code)) =>
      || kind in {"overloaded", "contract not allowed", "function not allowed"}
      || (kind == "rpc error" && code in {"FEE_TOO_LOW", "INSUFFICIENT_FUNDS"})
    case Failed(OtherError) => false
  }

  lemma ConsumedByKind(submission: Submission, seen: bool)
    ensures NonceConsumed(submission, seen) == Some(true) <==> UsesNonce(submission, seen)
    ensures NonceConsumed(submission, seen) == Some(false) <==> SparesNonce(submission, seen)
  {
  }

  function Elapsed(since: Instant, now: Instant): nat { if since < now then now - since else 0 }

  /** The pending count below the local nonce, and since when it has been seen. */
  datatype Gap = Gap(pending: nat, since: Instant)

  datatype State = State(nonces: map<Signer, nat>, gaps: map<Signer, Gap>, issued: set<TxId>, tolerance: nat)
  {
    function Local(signer: Signer): nat { if signer in nonces then nonces[signer] else 0 }

    predicate Watches(signer: Signer, pending: nat) {
      signer in gaps && gaps[signer].pending == pending
    }

    /** How long the signer's nonce has stayed ahead of the same pending count. */
    function GapAge(signer: Signer, pending: nat, now: Instant): Option<nat> {
      if Local(signer) <= pending then None
      else if Watches(signer, pending) then Some(Elapsed(gaps[signer].since, now))
      else Some(0)
    }

    predicate Resyncs(signer: Signer, pending: nat, now: Instant) {
      var age := GapAge(signer, pending, now);
      age.Some? && age.value >= tolerance
    }

    /** The nonce the next transaction is signed with. */
    function Nonce(signer: Signer, pending: nat, now: Instant): nat {
      if Resyncs(signer, pending, now) then pending else Max(Local(signer), pending)
    }

    function Sync(signer: Signer, pending: nat, now: Instant): State {
      var synced := this.(nonces := nonces[signer := Nonce(signer, pending, now)]);
      if Local(signer) <= pending || Resyncs(signer, pending, now) then synced.(gaps := gaps - {signer})
      else if Watches(signer, pending) then synced
      else synced.(gaps := gaps[signer := Gap(pending, now)])
    }

    function Consumed(submission: Submission): Option<bool> {
      NonceConsumed(submission, submission.Tracked? && submission.id in issued)
    }

    function Settle(signer: Signer, submission: Submission): State {
      var s := if submission.Tracked? then this.(issued := issued + {submission.id}) else this;
      match Consumed(submission)
      case Some(true) => s.(nonces := nonces[signer := Local(signer) + 1])
      case Some(false) => s
      case None => s.(nonces := nonces - {signer})
    }

    function Handle(r: Request): State {
      match r.attempt
      case Unreached => this
      case Reached(pending, now, submission) => Sync(r.signer, pending, now).Settle(r.signer, submission)
    }

    function Run(requests: seq<Request>): State {
      if requests == [] then this else Run(requests[..|requests| - 1]).Handle(requests[|requests| - 1])
    }

    // ----- From one submission of a signer to its next -----

    lemma OtherLeavesAlone(signer: Signer, r: Request)
      requires !r.Reaches(signer)
      ensures var s := Handle(r);
              && s.Local(signer) == Local(signer) && s.tolerance == tolerance
              && (signer in s.gaps <==> signer in gaps) && (signer in gaps ==> s.gaps[signer] == gaps[signer])
    {
    }

    lemma {:induction false} OthersLeaveAlone(signer: Signer, others: seq<Request>)
      requires forall r :: r in others ==> !r.Reaches(signer)
      ensures var s := Run(others);
              && s.Local(signer) == Local(signer) && s.tolerance == tolerance
              && (signer in s.gaps <==> signer in gaps) && (signer in gaps ==> s.gaps[signer] == gaps[signer])
    {
      if others != [] {
        var n := |others| - 1;
        OthersLeaveAlone(signer, others[..n]);
        assert others[n] in others;
        Run(others[..n]).OtherLeavesAlone(signer, others[n]);
      }
    }

    /** The submission was answered with an id that was issued before. */
    predicate Seen(submission: Submission) {
      submission.Tracked? && submission.id in issued
    }

    /** What the signer's next nonce is, given the last one `nonce` it used and what became of
        it: never below the pending count, and below its predecessor only after an unknown
        outcome or a resynchronization, which starts over at exactly the pending count. */
    lemma NextNonce(signer: Signer, last: Attempt, others: seq<Request>, next: Attempt)
      requires last.Reached? && next.Reached?
      requires forall r :: r in others ==> !r.Reaches(signer)
      ensures var nonce := Nonce(signer, last.pending, last.now);
              var later := Handle(Request(signer, last)).Run(others);
              var nextNonce := later.Nonce(signer, next.pending, next.now);
              && next.pending <= nextNonce
              && nextNonce ==
                 if later.Resyncs(signer, next.pending, next.now) then next.pending
                 else if UsesNonce(last.submission, Seen(last.submission)) then Max(nonce + 1, next.pending)
                 else if SparesNonce(last.submission, Seen(last.submission)) then Max(nonce, next.pending)
                 else next.pending
    {
      Handle(Request(signer, last)).OthersLeaveAlone(signer, others);
      ConsumedByKind(last.submission, Seen(last.submission));
    }

    /** The first nonce of a signer is the pending count. */
    lemma FirstNonce(signer: Signer, pending: nat, now: Instant)
      requires signer !in nonces
      ensures Nonce(signer, pending, now) == pending
    {
    }

    // ----- How long a gap has been watched -----

    /** Since request `i` every request of the signer has observed `pending`, below its nonce. */
    ghost predicate SeenSince(requests: seq<Request>, signer: Signer, i: nat, pending: nat) {
      forall j :: i <= j < |requests| && requests[j].Reaches(signer) ==>
        requests[j].attempt.pending == pending < Run(requests[..j]).Local(signer)
    }

    ghost predicate GapIsWitnessed(requests: seq<Request>, signer: Signer) {
      var s := Run(requests);
      signer in s.gaps ==>
        exists i :: 0 <= i < |requests| && requests[i].Reaches(signer)
                    && requests[i].attempt.now == s.gaps[signer].since
                    && SeenSince(requests, signer, i, s.gaps[signer].pending)
    }

    /** A gap that is there after a request was there before, or was opened by it. */
    lemma GapComesFrom(r: Request, signer: Signer)
      requires signer in Handle(r).gaps
      ensures var gap := Handle(r).gaps[signer];
              && (r.Reaches(signer) ==> r.attempt.pending == gap.pending < Local(signer))
              && (if r.Reaches(signer) && !Watches(signer, r.attempt.pending) then gap.since == r.attempt.now
                  else signer in gaps && gaps[signer] == gap)
    {
    }

    lemma SeenSinceExtends(requests: seq<Request>, signer: Signer, i: nat, pending: nat)
      requires requests != [] && i < |requests| && SeenSince(requests[..|requests| - 1], signer, i, pending)
      requires var n := |requests| - 1;
               requests[n].Reaches(signer) ==>
                 requests[n].attempt.pending == pending < Run(requests[..n]).Local(signer)
      ensures SeenSince(requests, signer, i, pending)
    {
      var before := requests[..|requests| - 1];
      assert forall j :: 0 <= j < |before| ==> requests[..j] == before[..j] && requests[j] == before[j];
    }

    lemma {:induction false} GapsAreWitnessed(requests: seq<Request>, signer: Signer)
      requires gaps == map[]
      ensures GapIsWitnessed(requests, signer)
    {
      if requests != [] {
        var n := |requests| - 1;
        var before, r := requests[..n], requests[n];
        GapsAreWitnessed(before, signer);
        var s := Run(before);
        if signer in Run(requests).gaps {
          var gap := Run(requests).gaps[signer];
          s.GapComesFrom(r, signer);
          var i := n;
          if !(r.Reaches(signer) && !s.Watches(signer, r.attempt.pending)) {
            i :| 0 <= i < n && before[i].Reaches(signer) && before[i].attempt.now == gap.since
                 && SeenSince(before, signer, i, gap.pending);
          }
          SeenSinceExtends(requests, signer, i, gap.pending);
          assert requests[i].Reaches(signer) && requests[i].attempt.now == gap.since;
        }
      }
    }

    /** The nonce is lowered only when, for at least the tolerance, every request of the signer
        saw the same pending count below it. */
    lemma ResyncIsJustified(requests: seq<Request>, signer: Signer, pending: nat, now: Instant)
      requires gaps == map[] && Run(requests).Resyncs(signer, pending, now) && 0 < Run(requests).tolerance
      ensures exists i :: 0 <= i < |requests| && requests[i].Reaches(signer)
                          && requests[i].attempt.now + Run(requests).tolerance <= now
                          && SeenSince(requests, signer, i, pending)
    {
      GapsAreWitnessed(requests, signer);
    }

    /** The clock of the signer's requests does not run backwards. */
    ghost predicate Ordered(requests: seq<Request>, signer: Signer) {
      forall i, j :: 0 <= i <= j < |requests| && requests[i].Reaches(signer) && requests[j].Reaches(signer) ==>
        requests[i].attempt.now <= requests[j].attempt.now
    }

    /** Since request `i` the signer's nonce has not been lowered. */
    ghost predicate NotLoweredSince(requests: seq<Request>, signer: Signer, i: nat) {
      forall j :: i <= j < |requests| && requests[j].Reaches(signer) ==>
        !Run(requests[..j]).Resyncs(signer, requests[j].attempt.pending, requests[j].attempt.now)
    }

    /** A request that sees a gap and does not resynchronize watches it, and does not restart it. */
    lemma GapIsKept(r: Request, signer: Signer)
      requires r.Reaches(signer) ==> r.attempt.pending < Local(signer) && !Resyncs(signer, r.attempt.pending, r.attempt.now)
      ensures var t := Handle(r);
              && (r.Reaches(signer) ==> t.Watches(signer, r.attempt.pending))
              && (r.Reaches(signer) && !Watches(signer, r.attempt.pending) ==> t.gaps[signer].since == r.attempt.now)
              && (signer in gaps && (r.Reaches(signer) ==> Watches(signer, r.attempt.pending)) ==>
                    signer in t.gaps && t.gaps[signer] == gaps[signer])
    {
    }

    lemma SeenSinceBefore(requests: seq<Request>, signer: Signer, i: nat, pending: nat)
      requires i < |requests| - 1 && requests[i].Reaches(signer) && Ordered(requests, signer)
      requires SeenSince(requests, signer, i, pending) && NotLoweredSince(requests, signer, i)
      ensures var before := requests[..|requests| - 1];
              && Ordered(before, signer) && SeenSince(before, signer, i, pending)
              && NotLoweredSince(before, signer, i)
    {
      var before := requests[..|requests| - 1];
      assert forall j :: 0 <= j < |before| ==> requests[..j] == before[..j] && requests[j] == before[j];
    }

    lemma {:induction false} GapKeepsItsAge(requests: seq<Request>, signer: Signer, i: nat, pending: nat)
      requires gaps == map[] && i < |requests| && requests[i].Reaches(signer) && Ordered(requests, signer)
      requires SeenSince(requests, signer, i, pending) && NotLoweredSince(requests, signer, i)
      ensures Run(requests).Watches(signer, pending) && Run(requests).gaps[signer].since <= requests[i].attempt.now
    {
      var n := |requests| - 1;
      var before, r := requests[..n], requests[n];
      var s := Run(before);
      assert r.Reaches(signer) ==>
               pending == r.attempt.pending < s.Local(signer) && !s.Resyncs(signer, pending, r.attempt.now);
      s.GapIsKept(r, signer);
      if i == n {
        GapsAreWitnessed(before, signer);
        if s.Watches(signer, pending) {
          var h :| 0 <= h < n && before[h].Reaches(signer) && before[h].attempt.now == s.gaps[signer].since;
          assert requests[h] == before[h];
        }
      } else {
        SeenSinceBefore(requests, signer, i, pending);
        GapKeepsItsAge(before, signer, i, pending);
      }
    }

    /** And it is lowered as soon as the tolerance has passed that way. */
    lemma ResyncIsDue(requests: seq<Request>, signer: Signer, i: nat, pending: nat, now: Instant)
      requires gaps == map[] && i < |requests| && requests[i].Reaches(signer) && Ordered(requests, signer)
      requires SeenSince(requests, signer, i, pending) && NotLoweredSince(requests, signer, i)
      requires pending < Run(requests).Local(signer)
      requires requests[i].attempt.now + Run(requests).tolerance <= now
      ensures Run(requests).Resyncs(signer, pending, now)
    {
      GapKeepsItsAge(requests, signer, i, pending);
    }

    // ----- How far the nonce advances -----

    /** The request neither resynchronizes nor raises the signer's nonce, and its outcome is known. */
    predicate IsQuiet(r: Request) {
      r.attempt.Reached? ==>
        && r.attempt.pending <= Local(r.signer)
        && !Resyncs(r.signer, r.attempt.pending, r.attempt.now)
        && (UsesNonce(r.attempt.submission, Seen(r.attempt.submission)) || SparesNonce(r.attempt.submission, Seen(r.attempt.submission)))
    }

    /** Every request of the signer is quiet. */
    ghost predicate AllQuiet(requests: seq<Request>, signer: Signer) {
      requests == [] ||
      var n := |requests| - 1;
      && AllQuiet(requests[..n], signer)
      && (requests[n].Reaches(signer) ==> Run(requests[..n]).IsQuiet(requests[n]))
    }

    /** The request is answered with a tracking id that nobody was issued before. */
    predicate IsNew(r: Request) {
      r.attempt.Reached? && r.attempt.submission.Tracked? && r.attempt.submission.id !in issued
    }

    /** The tracking ids that were first issued to the signer. */
    function FirstIssued(requests: seq<Request>, signer: Signer): set<TxId> {
      if requests == [] then {}
      else
        var n := |requests| - 1;
        FirstIssued(requests[..n], signer) +
        if requests[n].signer == signer && Run(requests[..n]).IsNew(requests[n])
        then {requests[n].attempt.submission.id} else {}
    }

    lemma QuietStep(r: Request)
      requires IsQuiet(r)
      ensures Handle(r).Local(r.signer) == Local(r.signer) + (if IsNew(r) then 1 else 0) + Takes(r)
    {
      if r.attempt.Reached? {
        ConsumedByKind(r.attempt.submission, Seen(r.attempt.submission));
      }
    }

    lemma IssuedStep(r: Request)
      ensures Handle(r).issued == issued + if IsNew(r) then {r.attempt.submission.id} else {}
    {
      if r.attempt.Reached? && r.attempt.submission.Tracked? && r.attempt.submission.id in issued {
        assert issued + {r.attempt.submission.id} == issued;
      }
    }

    /** Whatever other signers do meanwhile, a signer's nonce advances by the tracking ids first
        issued to it and the refusals that say its nonce is taken; nothing else moves it. */
    lemma {:induction false} NonceCountsTransactions(signer: Signer, requests: seq<Request>)
      requires AllQuiet(requests, signer)
      ensures FirstIssued(requests, signer) !! issued
      ensures issued + FirstIssued(requests, signer) <= Run(requests).issued
      ensures Run(requests).Local(signer) == Local(signer) + |FirstIssued(requests, signer)| + Taken(requests, signer)
    {
      if requests != [] {
        var n := |requests| - 1;
        NonceCountsTransactions(signer, requests[..n]);
        var s, r := Run(requests[..n]), requests[n];
        s.IssuedStep(r);
        if r.Reaches(signer) {
          s.QuietStep(r);
        } else {
          s.OtherLeavesAlone(signer, r);
        }
      }
    }
  }

  /** 1 when the request was refused because the nonce was taken. */
  function Takes(r: Request): nat {
    if r.attempt.Reached? && r.attempt.submission.Failed? && UsesNonce(r.attempt.submission, false) then 1 else 0
  }

  /** How many of the signer's requests were. */
  function Taken(requests: seq<Request>, signer: Signer): nat {
    if requests == [] then 0
    else
      var n := |requests| - 1;
      Taken(requests[..n], signer) + if requests[n].signer == signer then Takes(requests[n]) else 0
  }

  // ----- The sequencer in place -----

  class TransactionSequencer {
    var nonces: map<Signer, nat>
    var gaps: map<Signer, Gap>
    var issued: set<TxId>
    const tolerance: nat

    ghost function Model(): State
      reads this
    {
      State(nonces, gaps, issued, tolerance)
    }

    constructor (tolerance: nat)
      ensures Model() == State(map[], map[], {}, tolerance)
    {
      nonces, gaps, issued := map[], map[], {};
      this.tolerance := tolerance;
    }

    method NonceGapAge(signer: Signer, local: nat, pending: nat, now: Instant) returns (age: Option<nat>)
      requires local == Model().Local(signer)
      modifies this`gaps
      ensures age == old(Model()).GapAge(signer, pending, now)
      ensures gaps == if local <= pending then old(gaps) - {signer}
                      else if old(Model()).Watches(signer, pending) then old(gaps)
                      else old(gaps)[signer := Gap(pending, now)]
    {
      if local <= pending {
        gaps := gaps - {signer};
        return None;
      }
      if signer in gaps && gaps[signer].pending == pending {
        return Some(Elapsed(gaps[signer].since, now));
      }
      gaps := gaps[signer := Gap(pending, now)];
      age := Some(0);
    }

    method SyncNonce(signer: Signer, pending: nat, now: Instant) returns (nonce: nat)
      modifies this`nonces, this`gaps
      ensures nonce == old(Model()).Nonce(signer, pending, now)
      ensures Model() == old(Model()).Sync(signer, pending, now)
    {
      var local := if signer in nonces then nonces[signer] else 0;
      var age := NonceGapAge(signer, local, pending, now);
      if age.Some? && age.value >= tolerance {
        local := pending;
        gaps := gaps - {signer};
      }
      nonce := Max(local, pending);
      nonces := nonces[signer := nonce];
    }

    method RecordIssuedTxId(id: TxId) returns (isNew: bool)
      modifies this`issued
      ensures isNew <==> id !in old(issued)
      ensures issued == old(issued) + {id}
    {
      isNew := id !in issued;
      if isNew {
        issued := issued + {id};
      }
    }

    /** One turn of the worker; the nonce it signed the transaction with, if it got that far. */
    method Handle(r: Request) returns (signedWith: Option<nat>)
      modifies this
      ensures Model() == old(Model()).Handle(r)
      ensures signedWith == if r.attempt.Reached?
                            then Some(old(Model()).Nonce(r.signer, r.attempt.pending, r.attempt.now)) else None
    {
      var submission := Unsubmitted;
      signedWith := None;
      if r.attempt.Reached? {
        var nonce := SyncNonce(r.signer, r.attempt.pending, r.attempt.now);
        signedWith := Some(nonce);
        submission := r.attempt.submission;
      }
      var deduplicated := false;
      if submission.Tracked? {
        var isNew := RecordIssuedTxId(submission.id);
        deduplicated := !isNew;
      }
      match NonceConsumed(submission, deduplicated) {
        case Some(true) =>
          nonces := nonces[r.signer := (if r.signer in nonces then nonces[r.signer] else 0) + 1];
        case Some(false) =>
        case None =>
          nonces := nonces - {r.signer};
      }
    }
  }
}
