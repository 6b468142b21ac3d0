/** TTS-0005 poll snapshot claims: one transaction that claims every held copy for a polling peer. */
module PollSnapshot {
  import opened Wrappers
  import opened Integers

  datatype JobState = Queued | Deferred | Active | Delivered | Failed | Rejected | Cancelled

  /** `hop` stands for the next-hop address together with its anonymous key, if any. */
  datatype Copy = Copy(index: nat, hop: nat, state: JobState, attempts: nat, retryAt: Option<nat>, token: Option<nat>)

  /** Job identifiers are numbered in their stored order. */
  datatype Job = Job(id: nat, kind: nat, created: nat, changed: nat, state: JobState, copies: seq<Copy>)

  datatype Claim = Claim(jobId: nat, index: nat, token: nat, item: nat, delivery: Copy)

  /** One selected copy: the job as it was read, and the copy's place in it. */
  type Entry = (Job, nat)

  /** The jobs table in key order. */
  ghost predicate KeyOrder(jobs: seq<Job>) {
    forall i, j :: 0 <= i < j < |jobs| ==> jobs[i].id < jobs[j].id
  }

  predicate Has(copies: seq<Copy>, state: JobState) {
    copies != [] && (copies[0].state == state || Has(copies[1..], state))
  }

  function Aggregate(copies: seq<Copy>): JobState {
    if Has(copies, Active) then Active
    else if Has(copies, Queued) then Queued
    else if Has(copies, Deferred) then Deferred
    else if Has(copies, Failed) then Failed
    else if Has(copies, Rejected) then Rejected
    else if Has(copies, Cancelled) then Cancelled
    else Delivered
  }

  predicate Held(c: Copy, hop: nat) {
    c.hop == hop && (c.state == Queued || c.state == Deferred)
  }

  function ClaimCopy(c: Copy, token: nat): Copy {
    c.(state := Active, attempts := c.attempts + 1, retryAt := None, token := Some(token))
  }

  function ClaimJob(job: Job, k: nat, token: nat, now: nat): Job
    requires k < |job.copies|
  {
    var copies := job.copies[k := ClaimCopy(job.copies[k], token)];
    job.(copies := copies, changed := now, state := Aggregate(copies))
  }

  function HeldIn(job: Job, hop: nat, from: nat): seq<Entry>
    requires from <= |job.copies|
    decreases |job.copies| - from
  {
    if from == |job.copies| then []
    else (if Held(job.copies[from], hop) then [(job, from)] else []) + HeldIn(job, hop, from + 1)
  }

  function Select(jobs: seq<Job>, hop: nat, kinds: set<nat>): seq<Entry> {
    if jobs == [] then []
    else (if jobs[0].kind in kinds then HeldIn(jobs[0], hop, 0) else []) + Select(jobs[1..], hop, kinds)
  }

  function DeliveryIndex(e: Entry): nat {
    if e.1 < |e.0.copies| then e.0.copies[e.1].index else 0
  }

  /** The claim order: creation time, then job, then delivery index. */
  predicate Before(a: Entry, b: Entry) {
    a.0.created < b.0.created ||
    (a.0.created == b.0.created &&
     (a.0.id < b.0.id || (a.0.id == b.0.id && DeliveryIndex(a) <= DeliveryIndex(b))))
  }

  ghost predicate Sorted(es: seq<Entry>) {
    |es| > 1 ==> Before(es[0], es[1]) && Sorted(es[1..])
  }

  /** The stable sort of the selection. */
  function Insert(es: seq<Entry>, e: Entry): seq<Entry> {
    if es == [] then [e]
    else if Before(es[0], e) then [es[0]] + Insert(es[1..], e)
    else [e] + es
  }

  function Sort(es: seq<Entry>): seq<Entry> {
    if es == [] then [] else Insert(Sort(es[..|es| - 1]), es[|es| - 1])
  }

  lemma {:induction false} InsertSorts(es: seq<Entry>, e: Entry)
    requires Sorted(es)
    ensures Sorted(Insert(es, e)) && multiset(Insert(es, e)) == multiset(es) + multiset{e}
    decreases |es|
  {
    if es != [] {
      assert es == [es[0]] + es[1..];
      if Before(es[0], e) {
        InsertSorts(es[1..], e);
        var r := Insert(es, e);
        assert r[1..] == Insert(es[1..], e);
      } else {
        assert ([e] + es)[1..] == es;
      }
    }
  }

  lemma {:induction false} SortSorts(es: seq<Entry>)
    ensures Sorted(Sort(es)) && multiset(Sort(es)) == multiset(es)
    decreases |es|
  {
    if es != [] {
      var n := |es| - 1;
      assert es == es[..n] + [es[n]];
      SortSorts(es[..n]);
      InsertSorts(Sort(es[..n]), es[n]);
    }
  }

  function Put(jobs: seq<Job>, job: Job): seq<Job> {
    if jobs == [] then [job]
    else if jobs[0].id == job.id then [job] + jobs[1..]
    else [jobs[0]] + Put(jobs[1..], job)
  }

  /** A copy is claimable when its attempt count can grow and its item is stored. */
  predicate Claimable(items: map<nat, nat>, e: Entry) {
    e.1 < |e.0.copies| && e.0.copies[e.1].attempts < MAX_U64 && e.0.id in items
  }

  ghost predicate AllClaimable(items: map<nat, nat>, es: seq<Entry>) {
    forall i :: 0 <= i < |es| ==> Claimable(items, es[i])
  }

  function ClaimedAs(e: Entry, token: nat, now: nat): Job {
    if e.1 < |e.0.copies| then ClaimJob(e.0, e.1, token, now) else e.0
  }

  /** The write-back loop: each entry overwrites its whole job with the clone it was read from. */
  function WriteBack(jobs: seq<Job>, es: seq<Entry>, tokens: nat -> nat, now: nat): seq<Job>
    decreases |es|
  {
    if es == [] then jobs
    else
      var n := |es| - 1;
      Put(WriteBack(jobs, es[..n], tokens, now), ClaimedAs(es[n], tokens(n), now))
  }

  /** The claims returned, one for each entry and in the same order. */
  ghost predicate ClaimsFor(claims: seq<Claim>, es: seq<Entry>, items: map<nat, nat>, tokens: nat -> nat) {
    && |claims| == |es|
    && forall i :: 0 <= i < |es| ==>
         && Claimable(items, es[i])
         && claims[i] == ClaimAs(es[i], tokens(i), items[es[i].0.id])
  }

  function ClaimAs(e: Entry, token: nat, item: nat): Claim
    requires e.1 < |e.0.copies|
  {
    Claim(e.0.id, DeliveryIndex(e), token, item, ClaimCopy(e.0.copies[e.1], token))
  }

  lemma ClaimsForMore(claims: seq<Claim>, es: seq<Entry>, items: map<nat, nat>, tokens: nat -> nat, e: Entry)
    requires ClaimsFor(claims, es, items, tokens) && Claimable(items, e)
    ensures ClaimsFor(claims + [ClaimAs(e, tokens(|es|), items[e.0.id])], es + [e], items, tokens)
  {
  }

  class OutboundStore {
    var jobs: seq<Job>
    const items: map<nat, nat>

    constructor (jobs: seq<Job>, items: map<nat, nat>)
      ensures this.jobs == jobs && this.items == items
    {
      this.jobs, this.items := jobs, items;
    }

    method SelectHeld(hop: nat, kinds: set<nat>) returns (selected: seq<Entry>)
      ensures selected == Select(jobs, hop, kinds)
    {
      selected := [];
      for i := 0 to |jobs|
        invariant selected + Select(jobs[i..], hop, kinds) == Select(jobs, hop, kinds)
      {
        assert jobs[i..][0] == jobs[i] && jobs[i..][1..] == jobs[i + 1..];
        if jobs[i].kind in kinds {
          var held := SelectIn(jobs[i], hop);
          ghost var rest := Select(jobs[i + 1..], hop, kinds);
          assert selected + (held + rest) == selected + held + rest;
          selected := selected + held;
        } else {
          assert Select(jobs[i..], hop, kinds) == Select(jobs[i + 1..], hop, kinds);
        }
      }
      assert jobs[|jobs|..] == [];
    }

    static method SelectIn(job: Job, hop: nat) returns (held: seq<Entry>)
      ensures held == HeldIn(job, hop, 0)
    {
      held := [];
      for k := 0 to |job.copies|
        invariant held + HeldIn(job, hop, k) == HeldIn(job, hop, 0)
      {
        if Held(job.copies[k], hop) { held := held + [(job, k)]; }
      }
    }

    /** The write-back loop; the transaction is abandoned at the first entry that cannot be claimed. */
    method WriteClaims(taken: seq<Entry>, now: nat, tokens: nat -> nat) returns (r: Option<(seq<Job>, seq<Claim>)>)
      ensures r.Some? <==> AllClaimable(items, taken)
      ensures r.Some? ==> r.value.0 == WriteBack(jobs, taken, tokens, now) && ClaimsFor(r.value.1, taken, items, tokens)
    {
      var working, claims: seq<Claim> := jobs, [];
      for i := 0 to |taken|
        invariant working == WriteBack(jobs, taken[..i], tokens, now)
        invariant AllClaimable(items, taken[..i])
        invariant ClaimsFor(claims, taken[..i], items, tokens)
      {
        var e := taken[i];
        if !Claimable(items, e) { return None; }
        assert taken[..i + 1] == taken[..i] + [e];
        ClaimsForMore(claims, taken[..i], items, tokens, e);
        hide ClaimsFor, Put, ClaimedAs;
        working := Put(working, ClaimedAs(e, tokens(i), now));
        claims := claims + [ClaimAs(e, tokens(i), items[e.0.id])];
      }
      assert taken[..|taken|] == taken;
      return Some((working, claims));
    }

    /** Claims the whole snapshot, in claim order, or nothing. */
    method ClaimPollSnapshot(hop: nat, kinds: set<nat>, now: nat, tokens: nat -> nat)
      returns (r: Result<seq<Claim>, ()>)
      modifies this`jobs
      ensures r.Err? ==> jobs == old(jobs)
      ensures r.Ok? <==> AllClaimable(items, Sort(Select(old(jobs), hop, kinds)))
      ensures r.Ok? ==>
        var taken := Sort(Select(old(jobs), hop, kinds));
        jobs == WriteBack(old(jobs), taken, tokens, now) && ClaimsFor(r.value, taken, items, tokens)
    {
      var selected := SelectHeld(hop, kinds);
      var written := WriteClaims(Sort(selected), now, tokens);
      if written.None? { return Err(()); }
      jobs := written.value.0;
      return Ok(written.value.1);
    }
  }

  // What the write-back leaves behind.

  lemma {:induction false} SelectHas(jobs: seq<Job>, hop: nat, kinds: set<nat>, e: Entry)
    ensures e in Select(jobs, hop, kinds) <==>
      e.0 in jobs && e.0.kind in kinds && e.1 < |e.0.copies| && Held(e.0.copies[e.1], hop)
    decreases |jobs|
  {
    if jobs != [] {
      HeldInHas(jobs[0], hop, 0, e);
      SelectHas(jobs[1..], hop, kinds, e);
    }
  }

  lemma {:induction false} HeldInHas(job: Job, hop: nat, from: nat, e: Entry)
    requires from <= |job.copies|
    ensures e in HeldIn(job, hop, from) <==> e.0 == job && from <= e.1 < |job.copies| && Held(job.copies[e.1], hop)
    decreases |job.copies| - from
  {
    if from < |job.copies| { HeldInHas(job, hop, from + 1, e); }
  }

  /** The claims name every held copy once: the selection repeats nothing. */
  lemma {:induction false} SelectOnce(jobs: seq<Job>, hop: nat, kinds: set<nat>, e: Entry)
    requires KeyOrder(jobs)
    ensures multiset(Select(jobs, hop, kinds))[e] <= 1
    decreases |jobs|
  {
    if jobs != [] {
      SelectOnce(jobs[1..], hop, kinds, e);
      HeldInOnce(jobs[0], hop, 0, e);
      HeldInHas(jobs[0], hop, 0, e);
      SelectHas(jobs[1..], hop, kinds, e);
      assert jobs[0] !in jobs[1..];
    }
  }

  lemma {:induction false} HeldInOnce(job: Job, hop: nat, from: nat, e: Entry)
    requires from <= |job.copies|
    ensures multiset(HeldIn(job, hop, from))[e] <= 1
    decreases |job.copies| - from
  {
    if from < |job.copies| {
      var first := if Held(job.copies[from], hop) then [(job, from)] else [];
      var later := HeldIn(job, hop, from + 1);
      assert HeldIn(job, hop, from) == first + later;
      hide HeldIn, Held;
      HeldInOnce(job, hop, from + 1, e);
      HeldInHas(job, hop, from + 1, e);
      assert multiset(first + later) == multiset(first) + multiset(later);
    }
  }

  lemma SortedOnce(jobs: seq<Job>, hop: nat, kinds: set<nat>)
    requires KeyOrder(jobs)
    ensures var es := Sort(Select(jobs, hop, kinds)); forall m, n :: 0 <= m < n < |es| ==> es[m] != es[n]
  {
    var es := Sort(Select(jobs, hop, kinds));
    SortSorts(Select(jobs, hop, kinds));
    forall m, n | 0 <= m < n < |es| ensures es[m] != es[n] {
      if es[m] == es[n] {
        SelectOnce(jobs, hop, kinds, es[m]);
        Twice(es, m, n);
      }
    }
  }

  lemma Twice(es: seq<Entry>, m: nat, n: nat)
    requires m < n < |es| && es[m] == es[n]
    ensures multiset(es)[es[m]] >= 2
  {
    assert es == es[..n] + [es[n]] + es[n + 1..];
    assert es[m] in es[..n];
  }

  /** Two held copies of one job for the polling peer. */
  ghost predicate TwoHeld(job: Job, hop: nat) {
    exists j, k :: 0 <= j < k < |job.copies| && Held(job.copies[j], hop) && Held(job.copies[k], hop)
  }

  /** What a caller can check beforehand: no selected job holds two copies for this peer. */
  ghost predicate OnePerJob(jobs: seq<Job>, hop: nat, kinds: set<nat>) {
    forall i :: 0 <= i < |jobs| && jobs[i].kind in kinds ==> !TwoHeld(jobs[i], hop)
  }

  /** The last entry for a job, if any: its clone is the one that stays. */
  function LastFor(es: seq<Entry>, id: nat): (r: Option<nat>)
    ensures r.Some? ==> r.value < |es| && es[r.value].0.id == id
    ensures r.None? ==> forall e :: e in es ==> e.0.id != id
    decreases |es|
  {
    if es == [] then None
    else if es[|es| - 1].0.id == id then Some(|es| - 1)
    else
      var r := LastFor(es[..|es| - 1], id);
      assert es == es[..|es| - 1] + [es[|es| - 1]];
      r
  }

  /** A job's one place in the table. */
  lemma FindJob(jobs: seq<Job>, job: Job) returns (at: nat)
    requires KeyOrder(jobs) && job in jobs
    ensures at < |jobs| && jobs[at] == job
    ensures forall i :: 0 <= i < |jobs| && i != at ==> jobs[i].id != job.id
  {
    at :| at < |jobs| && jobs[at] == job;
  }

  lemma {:induction false} PutAt(jobs: seq<Job>, job: Job, at: nat)
    requires at < |jobs| && jobs[at].id == job.id && forall i :: 0 <= i < at ==> jobs[i].id != job.id
    ensures Put(jobs, job) == jobs[at := job]
    decreases |jobs|
  {
    if at > 0 {
      PutAt(jobs[1..], job, at - 1);
      assert jobs[at := job] == [jobs[0]] + jobs[1..][at - 1 := job];
    } else {
      assert jobs[0 := job] == [job] + jobs[1..];
    }
  }

  ghost predicate SameIds(jobs: seq<Job>, after: seq<Job>) {
    |after| == |jobs| && forall i :: 0 <= i < |jobs| ==> after[i].id == jobs[i].id
  }

  /** Every entry was read from the table. */
  ghost predicate ReadFrom(jobs: seq<Job>, es: seq<Entry>) {
    forall k :: 0 <= k < |es| ==> es[k].0 in jobs
  }

  lemma PutKeeps(jobs: seq<Job>, before: seq<Job>, job: Job, written: Job) returns (at: nat)
    requires KeyOrder(jobs) && SameIds(jobs, before) && job in jobs && written.id == job.id
    ensures at < |jobs| && jobs[at] == job && (forall i :: 0 <= i < |jobs| && i != at ==> jobs[i].id != job.id)
    ensures Put(before, written) == before[at := written] && SameIds(jobs, Put(before, written))
  {
    at := FindJob(jobs, job);
    PutAt(before, written, at);
  }

  /** After the loop a job is untouched, or is its last writer's clone with one copy claimed. */
  lemma {:induction false} LastWriterWins(jobs: seq<Job>, es: seq<Entry>, tokens: nat -> nat, now: nat, i: nat)
    requires KeyOrder(jobs) && ReadFrom(jobs, es) && i < |jobs|
    ensures SameIds(jobs, WriteBack(jobs, es, tokens, now))
    ensures WriteBack(jobs, es, tokens, now)[i] ==
      match LastFor(es, jobs[i].id)
      case None => jobs[i]
      case Some(last) => ClaimedAs(es[last], tokens(last), now)
    decreases |es|
  {
    if es != [] {
      var n := |es| - 1;
      LastWriterWins(jobs, es[..n], tokens, now, i);
      var at := PutKeeps(jobs, WriteBack(jobs, es[..n], tokens, now), es[n].0, ClaimedAs(es[n], tokens(n), now));
    }
  }

  /** The claims returned for these entries. */
  type Claims = seq<Claim>

  /** One job: exactly one of its held copies is claimed, if it has any and its kind is polled. */
  ghost predicate JobMeans(job: Job, after: Job, hop: nat, kinds: set<nat>, es: seq<Entry>, claims: Claims) {
    && after.id == job.id
    && if job.kind in kinds && exists k :: 0 <= k < |job.copies| && Held(job.copies[k], hop)
       then exists n: nat :: OneClaimed(job, after, hop, es, claims, n)
       else after == job
  }

  /** The only change to the job is the copy of entry `n`, which is now as claim `n` delivers it. */
  ghost predicate OneClaimed(job: Job, after: Job, hop: nat, es: seq<Entry>, claims: Claims, n: nat) {
    && n < |es| == |claims| && es[n].0 == job && es[n].1 < |job.copies| && Held(job.copies[es[n].1], hop)
    && ClaimOf(claims[n], job, es[n].1)
    && after.copies == job.copies[es[n].1 := claims[n].delivery]
  }

  /** The claim names this copy of this job, and delivers it claimed with the claim's own token. */
  predicate ClaimOf(claim: Claim, job: Job, k: nat) {
    && k < |job.copies| && claim.jobId == job.id && claim.index == job.copies[k].index
    && claim.delivery == ClaimCopy(job.copies[k], claim.token)
  }

  lemma OneJob(jobs: seq<Job>, hop: nat, kinds: set<nat>, es: seq<Entry>, claims: Claims, items: map<nat, nat>,
               tokens: nat -> nat, now: nat, i: nat)
    requires KeyOrder(jobs) && i < |jobs| && forall e :: e in es <==> e in Select(jobs, hop, kinds)
    requires ClaimsFor(claims, es, items, tokens)
    ensures |WriteBack(jobs, es, tokens, now)| == |jobs|
    ensures JobMeans(jobs[i], WriteBack(jobs, es, tokens, now)[i], hop, kinds, es, claims)
  {
    forall k | 0 <= k < |es| ensures es[k].0 in jobs { SelectHas(jobs, hop, kinds, es[k]); }
    LastWriterWins(jobs, es, tokens, now, i);
    var job, after := jobs[i], WriteBack(jobs, es, tokens, now)[i];
    match LastFor(es, job.id)
    case None =>
      forall k: nat | k < |job.copies| && job.kind in kinds ensures !Held(job.copies[k], hop) {
        SelectHas(jobs, hop, kinds, (job, k));
      }
    case Some(last) =>
      var e := es[last];
      assert e in es;
      SelectHas(jobs, hop, kinds, e);
      var j := FindJob(jobs, e.0);
      assert OneClaimed(job, after, hop, es, claims, last);
  }

  /** What was not held for this peer is untouched; what was held is now as one of the claims delivers it. */
  ghost predicate ExactMoves(job: Job, after: Job, hop: nat, kinds: set<nat>, claims: Claims) {
    && after.id == job.id && |after.copies| == |job.copies|
    && forall k: nat :: k < |job.copies| ==>
         if job.kind in kinds && Held(job.copies[k], hop)
         then exists n: nat :: n < |claims| && ClaimOf(claims[n], job, k) && after.copies[k] == claims[n].delivery
         else after.copies[k] == job.copies[k]
  }

  /** The claim returned for an entry agrees with what the store now holds. */
  ghost predicate Backed(e: Entry, claim: Claim, after: Job) {
    after.id == claim.jobId && e.1 < |after.copies| && after.copies[e.1] == claim.delivery
  }

  /** Every claim returned for this job is backed by what became of it. */
  ghost predicate ClaimsBacked(job: Job, after: Job, es: seq<Entry>, claims: Claims) {
    forall n: nat :: n < |es| && n < |claims| && es[n].0 == job ==> Backed(es[n], claims[n], after)
  }

  lemma OneJobExactly(job: Job, after: Job, hop: nat, kinds: set<nat>, es: seq<Entry>, claims: Claims)
    requires JobMeans(job, after, hop, kinds, es, claims) && |claims| == |es|
    requires forall n: nat :: n < |es| && es[n].0 == job ==> ClaimOf(claims[n], job, es[n].1)
    requires forall k: nat :: (job, k) in es <==> job.kind in kinds && k < |job.copies| && Held(job.copies[k], hop)
    requires forall m, n :: 0 <= m < n < |es| ==> es[m] != es[n]
    ensures ClaimsBacked(job, after, es, claims) <==> (job.kind in kinds ==> !TwoHeld(job, hop))
    ensures ClaimsBacked(job, after, es, claims) ==> ExactMoves(job, after, hop, kinds, claims)
  {
    if job.kind in kinds && exists k :: 0 <= k < |job.copies| && Held(job.copies[k], hop) {
      var n: nat :| OneClaimed(job, after, hop, es, claims, n);
      var k := es[n].1;
      if TwoHeld(job, hop) {
        var a, b :| 0 <= a < b < |job.copies| && Held(job.copies[a], hop) && Held(job.copies[b], hop);
        var left: nat := if a == k then b else a;
        assert after.copies[left] == job.copies[left] && (job, left) in es;
        var m: nat :| m < |es| && es[m] == (job, left);
        assert !Backed(es[m], claims[m], after);
      } else {
        assert forall c: nat :: c < |job.copies| && Held(job.copies[c], hop) ==> c == k;
        forall m: nat | m < |es| && es[m].0 == job ensures Backed(es[m], claims[m], after) {
          assert (job, es[m].1) in es;
          assert es[m].1 == k;
        }
      }
    } else {
      forall m: nat | m < |es| ensures es[m].0 != job {
        assert es[m] in es;
        assert es[m] == (es[m].0, es[m].1);
      }
    }
  }

  /**
   The whole effect. Every claim returned is backed by the store exactly when no polled job
   holds two copies for this peer; and then each held copy is as one claim delivers it, and
   nothing else changes.
   */
  lemma SnapshotMeans(jobs: seq<Job>, hop: nat, kinds: set<nat>, items: map<nat, nat>, tokens: nat -> nat, now: nat,
                      claims: Claims)
    requires KeyOrder(jobs) && ClaimsFor(claims, Sort(Select(jobs, hop, kinds)), items, tokens)
    ensures var es := Sort(Select(jobs, hop, kinds)); var after := WriteBack(jobs, es, tokens, now);
      && |after| == |jobs| && (forall e :: e in es ==> e.0 in jobs)
      && ((forall i :: 0 <= i < |jobs| ==> ClaimsBacked(jobs[i], after[i], es, claims))
          <==> OnePerJob(jobs, hop, kinds))
      && (OnePerJob(jobs, hop, kinds) ==>
            forall i :: 0 <= i < |jobs| ==> ExactMoves(jobs[i], after[i], hop, kinds, claims))
  {
    var es := Sort(Select(jobs, hop, kinds));
    SortSorts(Select(jobs, hop, kinds));
    forall e ensures e in es <==> e in Select(jobs, hop, kinds) {
      assert e in es <==> e in multiset(es);
    }
    forall e | e in es ensures e.0 in jobs { SelectHas(jobs, hop, kinds, e); }
    SortedOnce(jobs, hop, kinds);
    var after := WriteBack(jobs, es, tokens, now);
    if jobs == [] {
      assert es == [];
    } else {
      OneJob(jobs, hop, kinds, es, claims, items, tokens, now, 0);
    }
    forall i | 0 <= i < |jobs|
      ensures ClaimsBacked(jobs[i], after[i], es, claims) <==> (jobs[i].kind in kinds ==> !TwoHeld(jobs[i], hop))
      ensures ClaimsBacked(jobs[i], after[i], es, claims) ==> ExactMoves(jobs[i], after[i], hop, kinds, claims)
    {
      OneJob(jobs, hop, kinds, es, claims, items, tokens, now, i);
      forall k: nat
        ensures (jobs[i], k) in es
           <==> jobs[i].kind in kinds && k < |jobs[i].copies| && Held(jobs[i].copies[k], hop)
      {
        SelectHas(jobs, hop, kinds, (jobs[i], k));
      }
      OneJobExactly(jobs[i], after[i], hop, kinds, es, claims);
    }
  }

  const TwoCopies: seq<Job> :=
    [Job(1, 0, 10, 10, Queued, [Copy(1, 7, Queued, 0, None, None), Copy(2, 7, Queued, 0, None, None)])]

  /** Two held copies of one job for the same peer: the second clone undoes the first claim. */
  lemma LostUpdate(items: map<nat, nat>, tokens: nat -> nat, claims: Claims)
    requires ClaimsFor(claims, Sort(Select(TwoCopies, 7, {0})), items, tokens)
    ensures var es := Sort(Select(TwoCopies, 7, {0})); var after := WriteBack(TwoCopies, es, tokens, 20);
      |after| == 1 && !ClaimsBacked(TwoCopies[0], after[0], es, claims)
  {
    var copies := TwoCopies[0].copies;
    assert Held(copies[0], 7) && Held(copies[1], 7);
    assert TwoHeld(TwoCopies[0], 7);
    SnapshotMeans(TwoCopies, 7, {0}, items, tokens, 20, claims);
  }
}
