/**
 Orphaned items: a durable ledger and a directory that share no transaction.

 Each action of the machine is one durable step. A crash may come between any two,
 a redelivered item is planned again, and others may change the directory at any time.
 */
module Quarantine {
  import opened Wrappers

  datatype Progress = Staged | Published | Acknowledged | Retired

  datatype Record = Record(hash: string, progress: Progress, note: string, token: string)

  datatype Object = Object(name: string, contents: string)

  /** Administrative ownership of an orphaned item. */
  datatype Orphan = Orphan(authentication: string, reason: string, payload: string, objects: seq<Object>,
                           notice: Option<Object>, noticePublished: bool)

  datatype LedgerError = CorruptRecord | QuarantineExists(id: string)

  /** `counter` is the last identity given out for naming objects. */
  datatype Tables = Tables(inbound: map<string, Record>, quarantine: map<string, Orphan>, counter: nat)

  // The ledger's transactions.

  /** Takes ownership of an orphan, or finds that exactly this one is already owned. */
  function StageOrphan(t: Tables, id: string, record: Record, orphan: Orphan): Result<Tables, LedgerError> {
    var fresh' := orphan.(reason := record.note, noticePublished := false);
    if id in t.quarantine then
      if t.quarantine[id].(noticePublished := false) == fresh' then Ok(t) else Err(QuarantineExists(id))
    else Ok(t.(inbound := t.inbound[id := record], quarantine := t.quarantine[id := fresh']))
  }

  function MarkNoticePublished(t: Tables, id: string): Result<Tables, LedgerError> {
    if id !in t.quarantine || t.quarantine[id].notice.None? then Err(CorruptRecord)
    else Ok(t.(quarantine := t.quarantine[id := t.quarantine[id].(noticePublished := true)]))
  }

  function Advance(t: Tables, id: string, progress: Progress): Result<Tables, LedgerError> {
    if id !in t.inbound then Err(CorruptRecord)
    else Ok(t.(inbound := t.inbound[id := t.inbound[id].(progress := progress)]))
  }

  class Ledger {
    var inbound: map<string, Record>
    var quarantine: map<string, Orphan>
    var counter: nat

    ghost function Now(): Tables
      reads this
    {
      Tables(inbound, quarantine, counter)
    }

    /** `stage_orphan`: both tables change in one transaction, or neither does. */
    method TakeOrphan(id: string, record: Record, orphan: Orphan) returns (error: Option<LedgerError>)
      modifies this
      ensures match StageOrphan(old(Now()), id, record, orphan)
              case Ok(after) => error.None? && Now() == after
              case Err(e) => error == Some(e) && Now() == old(Now())
    {
      var taken := orphan.(reason := record.note, noticePublished := false);
      if id in quarantine {
        if quarantine[id].(noticePublished := false) == taken { return None; }
        return Some(QuarantineExists(id));
      }
      inbound := inbound[id := record];
      quarantine := quarantine[id := taken];
      return None;
    }

    /** `mark_orphan_notice_published`. */
    method Mark(id: string) returns (error: Option<LedgerError>)
      modifies this
      ensures match MarkNoticePublished(old(Now()), id)
              case Ok(after) => error.None? && Now() == after
              case Err(e) => error == Some(e) && Now() == old(Now())
    {
      if id !in quarantine || quarantine[id].notice.None? { return Some(CorruptRecord); }
      quarantine := quarantine[id := quarantine[id].(noticePublished := true)];
      return None;
    }

    /** `advance`. */
    method AdvanceTo(id: string, progress: Progress) returns (error: Option<LedgerError>)
      modifies this
      ensures match Advance(old(Now()), id, progress)
              case Ok(after) => error.None? && Now() == after
              case Err(e) => error == Some(e) && Now() == old(Now())
    {
      if id !in inbound { return Some(CorruptRecord); }
      inbound := inbound[id := inbound[id].(progress := progress)];
      return None;
    }

    /** `next_identity`: one more than the last, remembered before it is used. */
    method NextIdentity() returns (identity: nat)
      modifies this
      ensures identity == old(counter) + 1 && Now() == old(Now()).(counter := identity)
    {
      identity := counter + 1;
      counter := identity;
    }
  }

  // Names given to notices.

  const IDENTITY_LIMIT: nat := 0x1_0000_0000

  function HexDigit(n: nat): char
    requires n < 16
  {
    "0123456789abcdef"[n]
  }

  /** The last `width` hexadecimal digits. */
  function Hex(n: nat, width: nat): string {
    if width == 0 then "" else Hex(n / 16, width - 1) + [HexDigit(n % 16)]
  }

  /** Named by the low 32 bits of an identity. */
  function NoticeName(identity: nat): string {
    Hex(identity % IDENTITY_LIMIT, 8) + ".pkt"
  }

  function Pow16(width: nat): nat {
    if width == 0 then 1 else 16 * Pow16(width - 1)
  }

  lemma {:induction false} HexTells(n: nat, m: nat, width: nat)
    requires n < Pow16(width) && m < Pow16(width) && Hex(n, width) == Hex(m, width)
    ensures n == m
  {
    if width > 0 {
      var a, b := Hex(n / 16, width - 1), Hex(m / 16, width - 1);
      assert Hex(n, width)[..|Hex(n, width)| - 1] == a && Hex(m, width)[..|Hex(m, width)| - 1] == b;
      HexTells(n / 16, m / 16, width - 1);
      assert HexDigit(n % 16) == Hex(n, width)[|a|] == HexDigit(m % 16);
      DigitTells(n % 16, m % 16);
    }
  }

  lemma DigitTells(n: nat, m: nat)
    requires n < 16 && m < 16 && HexDigit(n) == HexDigit(m)
    ensures n == m
  {
  }

  /** Two identities share a name exactly when they share their low 32 bits. */
  lemma NameTells(i: nat, j: nat)
    ensures NoticeName(i) == NoticeName(j) <==> i % IDENTITY_LIMIT == j % IDENTITY_LIMIT
  {
    var n, m := i % IDENTITY_LIMIT, j % IDENTITY_LIMIT;
    if NoticeName(i) == NoticeName(j) {
      var a, b := Hex(n, 8), Hex(m, 8);
      assert |a + ".pkt"| == |b + ".pkt"|;
      assert a == (a + ".pkt")[..|a|] == (b + ".pkt")[..|b|] == b;
      assert Pow16(2) == 256 && Pow16(4) == 65536 && Pow16(6) == 0x100_0000 && Pow16(8) == IDENTITY_LIMIT;
      HexTells(n, m, 8);
    }
  }

  // Planning and committing.

  datatype Claim = Claim(id: string, hash: string, token: string)

  /** An orphan outcome: everything but the prefix of the recorded reason. */
  datatype Outcome = Outcome(reason: string, authentication: string, payload: string, recovery: seq<Object>,
                             notice: Option<Object>)

  /**
   What planning makes of an orphaned item before naming its notice: the notice's contents, and
   how many identities are drawn for other objects before and after the notice's own.
   */
  datatype Draft = Draft(reason: string, authentication: string, payload: string, recovery: seq<Object>,
                         notice: Option<string>, before: nat, after: nat)

  /** The identity a notice is named by. */
  function NoticeIdentity(counter: nat, draft: Draft): nat {
    counter + draft.before + 1
  }

  function Drawn(draft: Draft): nat {
    draft.before + (if draft.notice.Some? then 1 else 0) + draft.after
  }

  /** The outcome planned afresh. */
  function Anew(counter: nat, draft: Draft): Outcome {
    Outcome(draft.reason, draft.authentication, draft.payload, draft.recovery,
            if draft.notice.None? then None
            else Some(Object(NoticeName(NoticeIdentity(counter, draft)), draft.notice.value)))
  }

  const PREFIX: string := "orphan: "

  function StripReason(reason: string): string {
    if PREFIX <= reason then reason[|PREFIX|..] else reason
  }

  /** What a stored orphan still owes. */
  function PendingNotice(t: Tables, id: string): Option<Outcome> {
    if id !in t.quarantine then None
    else
      var o := t.quarantine[id];
      if o.noticePublished || o.notice.None? then None
      else Some(Outcome(StripReason(o.reason), o.authentication, o.payload, o.objects, o.notice))
  }

  /** `plan` for an item that is orphaned whenever it is planned afresh, as `draft`; only then are identities drawn. */
  function Plan(t: Tables, claim: Claim, draft: Draft): (Tables, Option<Outcome>) {
    var anew := (t.(counter := t.counter + Drawn(draft)), Some(Anew(t.counter, draft)));
    if claim.id in t.inbound && t.inbound[claim.id].hash == claim.hash then
      match t.inbound[claim.id].progress
      case Acknowledged => (t, None)
      case Retired => (t, PendingNotice(t, claim.id))
      case Published => (t, None)
      case Staged =>
        var pending := PendingNotice(t, claim.id);
        if pending.Some? then (t, pending) else anew
    else anew
  }

  function RecordFor(claim: Claim, o: Outcome): Record {
    Record(claim.hash, if o.notice.Some? then Staged else Retired, PREFIX + o.reason, claim.token)
  }

  function OrphanFor(o: Outcome): Orphan {
    Orphan(o.authentication, PREFIX + o.reason, o.payload, o.recovery, o.notice, false)
  }

  // The machine.

  datatype Pc =
    | Idle
    | Planned(claim: Claim, o: Outcome)
    | ToPublish(claim: Claim, o: Outcome)
    | ToMark(claim: Claim)
    | ToRetire(claim: Claim)

  /** `published` remembers everything the adapter ever put under a final name, and for whom. */
  datatype State = State(t: Tables, dir: map<string, string>, published: set<(string, Object)>, pc: Pc)

  /** `Draw` is an identity drawn for anything else: another item, or planning cut short. */
  datatype Action = Deliver(claim: Claim, draft: Draft) | Commit | Crash | Draw | Others(dir: map<string, string>)

  /** Publishing one object: taken names are left alone, and an exact copy counts as published. */
  function PublishNotice(s: State, claim: Claim, notice: Object): State {
    if notice.name !in s.dir then
      s.(dir := s.dir[notice.name := notice.contents], published := s.published + {(claim.id, notice)},
         pc := ToMark(claim))
    else if s.dir[notice.name] == notice.contents then s.(pc := ToMark(claim))
    else s.(pc := Idle)
  }

  function CommitStep(s: State): State {
    match s.pc
    case Idle => s
    case Planned(claim, o) =>
      var staged := StageOrphan(s.t, claim.id, RecordFor(claim, o), OrphanFor(o));
      if staged.Err? then s.(pc := Idle)
      else s.(t := staged.value, pc := if o.notice.Some? then ToPublish(claim, o) else Idle)
    case ToPublish(claim, o) =>
      if o.notice.None? then s.(pc := Idle) else PublishNotice(s, claim, o.notice.value)
    case ToMark(claim) =>
      var marked := MarkNoticePublished(s.t, claim.id);
      if marked.Err? then s.(pc := Idle) else s.(t := marked.value, pc := ToRetire(claim))
    case ToRetire(claim) =>
      var retired := Advance(s.t, claim.id, Retired);
      s.(t := if retired.Ok? then retired.value else s.t, pc := Idle)
  }

  function Step(s: State, a: Action): State {
    match a
    case Deliver(claim, draft) =>
      if !s.pc.Idle? then s
      else
        var (t, o) := Plan(s.t, claim, draft);
        s.(t := t, pc := if o.Some? then Planned(claim, o.value) else Idle)
    case Commit => CommitStep(s)
    case Crash => s.(pc := Idle)
    case Draw => s.(t := s.t.(counter := s.t.counter + 1))
    case Others(dir) => s.(dir := dir)
  }

  function Run(s: State, actions: seq<Action>): State
    decreases |actions|
  {
    if actions == [] then s else Run(Step(s, actions[0]), actions[1..])
  }

  // What every step keeps.

  ghost predicate Stored(t: Tables, id: string, notice: Object) {
    id in t.quarantine && t.quarantine[id].notice == Some(notice)
  }

  ghost predicate Inv(s: State) {
    // every owned orphan has a record, which waits only for an unpublished notice
    && (forall id :: id in s.t.quarantine ==>
          && id in s.t.inbound
          && (s.t.inbound[id].progress == Staged || s.t.inbound[id].progress == Retired)
          && (s.t.inbound[id].progress == Retired && s.t.quarantine[id].notice.Some? ==>
                s.t.quarantine[id].noticePublished)
          && (s.t.quarantine[id].noticePublished ==> s.t.quarantine[id].notice.Some?))
    && (forall id :: id in s.t.inbound ==> id in s.t.quarantine)
    // only stored notices are ever published
    && (forall p :: p in s.published ==> Stored(s.t, p.0, p.1))
    && match s.pc
       case Idle => true
       case Planned(_, _) => true
       case ToPublish(claim, o) => o.notice.Some? && Stored(s.t, claim.id, o.notice.value)
       case ToMark(claim) => claim.id in s.t.quarantine && s.t.quarantine[claim.id].notice.Some?
       case ToRetire(claim) => claim.id in s.t.quarantine && s.t.quarantine[claim.id].noticePublished
  }

  lemma StepKeepsInv(s: State, a: Action)
    requires Inv(s)
    ensures Inv(Step(s, a))
  {
    match a
    case Deliver(claim, draft) =>
    case Commit => CommitKeepsInv(s);
    case Crash =>
    case Draw =>
    case Others(dir) =>
  }

  lemma CommitKeepsInv(s: State)
    requires Inv(s)
    ensures Inv(CommitStep(s))
  {
    match s.pc
    case Idle =>
    case Planned(claim, o) => StagingKeepsInv(s, claim, o);
    case ToPublish(claim, o) => PublishingKeepsInv(s, claim, o);
    case ToMark(claim) => MarkingKeepsInv(s, claim);
    case ToRetire(claim) => RetiringKeepsInv(s, claim);
  }

  lemma StagingKeepsInv(s: State, claim: Claim, o: Outcome)
    requires Inv(s) && s.pc == Planned(claim, o)
    ensures Inv(CommitStep(s))
  {
    hide Stored;
    var staged := StageOrphan(s.t, claim.id, RecordFor(claim, o), OrphanFor(o));
    if staged.Ok? {
      forall p | p in s.published ensures Stored(staged.value, p.0, p.1) {
        StillStored(s.t, staged.value, p.0, p.1);
      }
      if o.notice.Some? { NowStored(staged.value, claim.id, o.notice.value); }
    }
  }

  lemma StillStored(t: Tables, t': Tables, id: string, notice: Object)
    requires Stored(t, id, notice)
    requires forall i :: i in t.quarantine ==> i in t'.quarantine && t'.quarantine[i].notice == t.quarantine[i].notice
    ensures Stored(t', id, notice)
  {
  }

  lemma NowStored(t: Tables, id: string, notice: Object)
    requires id in t.quarantine && t.quarantine[id].(noticePublished := false).notice == Some(notice)
    ensures Stored(t, id, notice)
  {
  }

  lemma PublishingKeepsInv(s: State, claim: Claim, o: Outcome)
    requires Inv(s) && s.pc == ToPublish(claim, o)
    ensures Inv(CommitStep(s))
  {
  }

  lemma MarkingKeepsInv(s: State, claim: Claim)
    requires Inv(s) && s.pc == ToMark(claim)
    ensures Inv(CommitStep(s))
  {
    hide Stored;
    var marked := MarkNoticePublished(s.t, claim.id).value;
    forall p | p in s.published ensures Stored(marked, p.0, p.1) { StillStored(s.t, marked, p.0, p.1); }
  }

  lemma RetiringKeepsInv(s: State, claim: Claim)
    requires Inv(s) && s.pc == ToRetire(claim)
    ensures Inv(CommitStep(s))
  {
    hide Stored;
    var retired := Advance(s.t, claim.id, Retired).value;
    forall p | p in s.published ensures Stored(retired, p.0, p.1) { StillStored(s.t, retired, p.0, p.1); }
  }

  lemma {:induction false} RunKeepsInv(s: State, actions: seq<Action>)
    requires Inv(s)
    ensures Inv(Run(s, actions))
    decreases |actions|
  {
    if actions != [] {
      StepKeepsInv(s, actions[0]);
      RunKeepsInv(Step(s, actions[0]), actions[1..]);
    }
  }

  /** Written once: only the flag changes, and only to true. Progress never falls back; identities only grow. */
  ghost predicate Later(t: Tables, t': Tables) {
    && t.counter <= t'.counter
    && forall id :: id in t.quarantine ==>
      && id in t'.quarantine
      && t'.quarantine[id].(noticePublished := false) == t.quarantine[id].(noticePublished := false)
      && (t.quarantine[id].noticePublished ==> t'.quarantine[id].noticePublished)
      && (id in t.inbound ==> id in t'.inbound && t'.inbound[id].hash == t.inbound[id].hash)
      && (id in t.inbound && t.inbound[id].progress == Retired ==> t'.inbound[id].progress == Retired)
  }

  lemma StepIsLater(s: State, a: Action)
    requires Inv(s)
    ensures Later(s.t, Step(s, a).t)
  {
    hide Stored;
    match a
    case Deliver(claim, draft) =>
    case Commit => CommitIsLater(s);
    case Crash =>
    case Draw =>
    case Others(dir) =>
  }

  lemma CommitIsLater(s: State)
    requires Inv(s)
    ensures Later(s.t, CommitStep(s).t)
  {
    hide Stored, Inv, Later;
    StayingIsLater(s.t);
    match s.pc
    case Idle =>
    case Planned(claim, o) => StagedIsLater(s.t, claim.id, RecordFor(claim, o), OrphanFor(o));
    case ToPublish(claim, o) =>
    case ToMark(claim) => MarkedIsLater(s.t, claim.id);
    case ToRetire(claim) => RetiredIsLater(s.t, claim.id);
  }

  lemma StayingIsLater(t: Tables)
    ensures Later(t, t)
  {
  }

  lemma StagedIsLater(t: Tables, id: string, record: Record, orphan: Orphan)
    ensures StageOrphan(t, id, record, orphan).Ok? ==> Later(t, StageOrphan(t, id, record, orphan).value)
  {
  }

  lemma MarkedIsLater(t: Tables, id: string)
    ensures MarkNoticePublished(t, id).Ok? ==> Later(t, MarkNoticePublished(t, id).value)
  {
  }

  lemma RetiredIsLater(t: Tables, id: string)
    ensures Advance(t, id, Retired).Ok? ==> Later(t, Advance(t, id, Retired).value)
  {
  }

  lemma {:induction false} RunIsLater(s: State, actions: seq<Action>)
    requires Inv(s)
    ensures Later(s.t, Run(s, actions).t)
    decreases |actions|
  {
    if actions != [] {
      StepKeepsInv(s, actions[0]);
      StepIsLater(s, actions[0]);
      RunIsLater(Step(s, actions[0]), actions[1..]);
    }
  }

  function Start(dir: map<string, string>): State {
    State(Tables(map[], map[], 0), dir, {}, Idle)
  }

  /**
   Whatever runs, crashes, redeliveries and meddling: quarantine is write-once and an item
   publishes its one stored notice at most.
   */
  lemma QuarantineSafe(dir: map<string, string>, before: seq<Action>, after: seq<Action>, id: string)
    requires id in Run(Start(dir), before).t.quarantine
    ensures var q := Run(Start(dir), before).t.quarantine[id]; var end := Run(Run(Start(dir), before), after);
      && id in end.t.quarantine && end.t.quarantine[id].(noticePublished := false) == q.(noticePublished := false)
      && (q.noticePublished ==> end.t.quarantine[id].noticePublished)
      && (forall p :: p in end.published && p.0 == id ==> q.notice == Some(p.1))
  {
    hide Step;
    var s := Run(Start(dir), before);
    RunKeepsInv(Start(dir), before);
    RunIsLater(s, after);
    RunKeepsInv(s, after);
    var end := Run(s, after);
    assert end.t.quarantine[id].(noticePublished := false).notice
        == s.t.quarantine[id].(noticePublished := false).notice;
    forall p | p in end.published && p.0 == id ensures s.t.quarantine[id].notice == Some(p.1) {
      assert Stored(end.t, p.0, p.1);
    }
  }

  /** No recovery object, and nothing at all for an item without a notice, ever gets a final name. */
  lemma OnlyNoticesPublished(dir: map<string, string>, actions: seq<Action>, p: (string, Object))
    requires p in Run(Start(dir), actions).published
    ensures p.0 in Run(Start(dir), actions).t.quarantine
    ensures Run(Start(dir), actions).t.quarantine[p.0].notice == Some(p.1)
  {
    hide Step;
    RunKeepsInv(Start(dir), actions);
    assert Stored(Run(Start(dir), actions).t, p.0, p.1);
  }

  // Redelivery.

  /** Reasons are stored with their prefix. */
  ghost predicate Prefixed(t: Tables) {
    forall id :: id in t.quarantine ==> PREFIX <= t.quarantine[id].reason
  }

  lemma StepKeepsPrefix(s: State, a: Action)
    requires Prefixed(s.t)
    ensures Prefixed(Step(s, a).t)
  {
    match a
    case Deliver(claim, draft) =>
    case Commit =>
      if s.pc.Planned? {
        var reason := PREFIX + s.pc.o.reason;
        assert reason[..|PREFIX|] == PREFIX;
      }
    case Crash =>
    case Draw =>
    case Others(dir) =>
  }

  lemma {:induction false} RunKeepsPrefix(s: State, actions: seq<Action>)
    requires Prefixed(s.t)
    ensures Prefixed(Run(s, actions).t)
    decreases |actions|
  {
    hide Step;
    if actions != [] {
      StepKeepsPrefix(s, actions[0]);
      RunKeepsPrefix(Step(s, actions[0]), actions[1..]);
    }
  }

  /** While a notice is owed, redelivery plans exactly what is stored, and staging that again changes nothing. */
  lemma RedeliveryResumes(t: Tables, claim: Claim, draft: Draft)
    requires Prefixed(t) && claim.id in t.quarantine
    requires t.quarantine[claim.id].notice.Some? && !t.quarantine[claim.id].noticePublished
    requires claim.id in t.inbound && t.inbound[claim.id].hash == claim.hash && t.inbound[claim.id].progress == Staged
    ensures var (after, o) := Plan(t, claim, draft);
      && after == t && o.Some? && o.value.notice == t.quarantine[claim.id].notice
      && StageOrphan(t, claim.id, RecordFor(claim, o.value), OrphanFor(o.value)) == Ok(t)
  {
    var stored := t.quarantine[claim.id];
    assert stored.reason == PREFIX + stored.reason[|PREFIX|..];
  }

  // A notice marked as published whose record was not yet retired.

  /** The name is one that was given out. */
  ghost predicate Issued(counter: nat, notice: Option<Object>) {
    notice.Some? ==> exists k: nat :: 1 <= k <= counter && notice.value.name == NoticeName(k)
  }

  /** Every stored or planned notice bears a name that was given out. */
  ghost predicate Named(s: State) {
    && (forall id :: id in s.t.quarantine ==> Issued(s.t.counter, s.t.quarantine[id].notice))
    && (s.pc.Planned? ==> Issued(s.t.counter, s.pc.o.notice))
  }

  lemma StepKeepsNamed(s: State, a: Action)
    requires Named(s)
    ensures Named(Step(s, a))
  {
    hide NoticeName;
    var after := Step(s, a);
    assert forall o :: Issued(s.t.counter, o) ==> Issued(after.t.counter, o);
    if a.Deliver? && s.pc.Idle? && after.pc.Planned? {
      if after.pc.o == Anew(s.t.counter, a.draft) && a.draft.notice.Some? {
        assert after.pc.o.notice.value.name == NoticeName(NoticeIdentity(s.t.counter, a.draft));
      }
    }
  }

  lemma {:induction false} RunKeepsNamed(s: State, actions: seq<Action>)
    requires Named(s)
    ensures Named(Run(s, actions))
    decreases |actions|
  {
    hide Step, Named;
    if actions != [] {
      StepKeepsNamed(s, actions[0]);
      RunKeepsNamed(Step(s, actions[0]), actions[1..]);
    }
  }

  /** Marked, still staged, and nothing under way that could retire it; its notice is named by identity `k`. */
  ghost predicate Stuck(s: State, id: string, k: nat) {
    && id in s.t.quarantine && id in s.t.inbound && s.t.inbound[id].progress == Staged
    && s.t.quarantine[id].noticePublished && s.t.quarantine[id].notice.Some?
    && s.t.quarantine[id].notice.value.name == NoticeName(k) && 1 <= k <= s.t.counter
    && (s.pc.Planned? && s.pc.claim.id == id ==>
          OrphanFor(s.pc.o) != s.t.quarantine[id].(noticePublished := false))
    && (s.pc.ToPublish? || s.pc.ToMark? || s.pc.ToRetire? ==> s.pc.claim.id != id)
  }

  /** The draft is what is stored in everything but the name, and the name it would be given comes round again. */
  predicate Recurs(s: State, id: string, k: nat, draft: Draft)
    requires id in s.t.quarantine && s.t.quarantine[id].notice.Some?
  {
    var q := s.t.quarantine[id];
    && draft.authentication == q.authentication && PREFIX + draft.reason == q.reason
    && draft.payload == q.payload && draft.recovery == q.objects
    && draft.notice == Some(q.notice.value.contents)
    && NoticeIdentity(s.t.counter, draft) % IDENTITY_LIMIT == k % IDENTITY_LIMIT
  }

  /** Planned afresh, a stuck item is staged again exactly when its draft recurs. */
  lemma AnewMatches(s: State, id: string, k: nat, draft: Draft)
    requires Stuck(s, id, k)
    ensures OrphanFor(Anew(s.t.counter, draft)) == s.t.quarantine[id].(noticePublished := false)
       <==> Recurs(s, id, k, draft)
  {
    hide NoticeName;
    NameTells(NoticeIdentity(s.t.counter, draft), k);
  }

  /** Names come round only after 2^32 more identities. */
  lemma TooSoonToRecur(s: State, id: string, k: nat, draft: Draft)
    requires Stuck(s, id, k) && s.t.counter + Drawn(draft) < k + IDENTITY_LIMIT
    ensures !Recurs(s, id, k, draft)
  {
    if draft.notice.Some? {
      var i := NoticeIdentity(s.t.counter, draft);
      assert k < i < k + IDENTITY_LIMIT;
      Residues(i, k);
    }
  }

  lemma Residues(i: nat, k: nat)
    requires k < i < k + IDENTITY_LIMIT
    ensures i % IDENTITY_LIMIT != k % IDENTITY_LIMIT
  {
  }

  /** Delivery of the stuck item itself, to an idle adapter, with a recurring draft. */
  predicate Frees(s: State, a: Action, id: string, k: nat)
    requires id in s.t.quarantine && s.t.quarantine[id].notice.Some?
  {
    a.Deliver? && s.pc.Idle? && a.claim.id == id && Recurs(s, id, k, a.draft)
  }

  /** Nothing else frees it. */
  lemma StepKeepsStuck(s: State, a: Action, id: string, k: nat)
    requires Stuck(s, id, k)
    ensures Stuck(Step(s, a), id, k) <==> !Frees(s, a, id, k)
  {
    hide NoticeName, Recurs;
    if a.Deliver? { AnewMatches(s, id, k, a.draft); }
  }

  lemma CounterGrows(s: State, a: Action)
    ensures s.t.counter <= Step(s, a).t.counter
  {
  }

  lemma {:induction false} CounterGrowsOver(s: State, actions: seq<Action>)
    ensures s.t.counter <= Run(s, actions).t.counter
    decreases |actions|
  {
    hide Step;
    if actions != [] {
      CounterGrows(s, actions[0]);
      CounterGrowsOver(Step(s, actions[0]), actions[1..]);
    }
  }

  /** A delivery that frees draws its identities, so it comes after 2^32 of them. */
  lemma FreeingTakesIdentities(s: State, a: Action, id: string, k: nat)
    requires Stuck(s, id, k) && Frees(s, a, id, k)
    ensures k + IDENTITY_LIMIT <= Step(s, a).t.counter
  {
    if Step(s, a).t.counter < k + IDENTITY_LIMIT { TooSoonToRecur(s, id, k, a.draft); }
  }

  /** Whatever is delivered, committed, crashed or meddled with, a stuck item stays stuck for 2^32 identities. */
  lemma {:induction false} StuckForever(s: State, actions: seq<Action>, id: string, k: nat)
    requires Stuck(s, id, k) && Run(s, actions).t.counter < k + IDENTITY_LIMIT
    ensures Stuck(Run(s, actions), id, k)
    decreases |actions|
  {
    if actions != [] {
      assert id in s.t.quarantine && s.t.quarantine[id].notice.Some?;
      hide Step, Stuck, Frees;
      var next := Step(s, actions[0]);
      CounterGrowsOver(next, actions[1..]);
      if Frees(s, actions[0], id, k) { FreeingTakesIdentities(s, actions[0], id, k); }
      StepKeepsStuck(s, actions[0], id, k);
      StuckForever(next, actions[1..], id, k);
    }
  }

  /** One delivery carried through without a crash. */
  function CarriedOut(s: State, claim: Claim, draft: Draft): State {
    Run(s, [Deliver(claim, draft), Commit, Commit, Commit, Commit])
  }

  lemma RunFive(s: State, a: Action, b: Action, c: Action, d: Action, e: Action)
    ensures Run(s, [a, b, c, d, e]) == Step(Step(Step(Step(Step(s, a), b), c), d), e)
  {
    hide Step;
    var s1 := Step(s, a);
    var s2 := Step(s1, b);
    var s3 := Step(s2, c);
    assert [a, b, c, d, e][1..] == [b, c, d, e] && [b, c, d, e][1..] == [c, d, e];
    assert Run(s, [a, b, c, d, e]) == Run(s1, [b, c, d, e]) == Run(s2, [c, d, e]);
    assert [c, d, e][1..] == [d, e] && [d, e][1..] == [e] && [e][1..] == [];
    assert Run(s2, [c, d, e]) == Run(s3, [d, e]) == Run(Step(s3, d), [e]);
    assert Run(Step(s3, d), [e]) == Run(Step(Step(s3, d), e), []);
  }

  /** The notice's own name is free, or holds exactly the notice. */
  predicate Room(s: State, notice: Object) {
    notice.name in s.dir ==> s.dir[notice.name] == notice.contents
  }

  /** A plan already staged as stored is carried to retirement exactly when there is room for its notice. */
  lemma CommitsRetire(s: State)
    requires s.pc.Planned? && s.pc.o.notice.Some?
    requires var id := s.pc.claim.id;
      && id in s.t.quarantine && id in s.t.inbound && s.t.inbound[id].progress == Staged
      && OrphanFor(s.pc.o) == s.t.quarantine[id].(noticePublished := false)
    ensures var id := s.pc.claim.id; var end := CommitStep(CommitStep(CommitStep(CommitStep(s))));
      && id in end.t.inbound
      && (end.t.inbound[id].progress == Retired <==> Room(s, s.pc.o.notice.value))
  {
  }

  /** Redelivered while its notice is owed, an item retires exactly when there is room for the notice. */
  lemma RedeliveryCompletes(s: State, claim: Claim, draft: Draft)
    requires Inv(s) && Prefixed(s.t) && s.pc == Idle && claim.id in s.t.quarantine
    requires s.t.quarantine[claim.id].notice.Some? && !s.t.quarantine[claim.id].noticePublished
    requires s.t.inbound[claim.id].hash == claim.hash
    ensures var end := CarriedOut(s, claim, draft);
      && claim.id in end.t.inbound
      && (end.t.inbound[claim.id].progress == Retired <==> Room(s, s.t.quarantine[claim.id].notice.value))
  {
    RunFive(s, Deliver(claim, draft), Commit, Commit, Commit, Commit);
    var stored := s.t.quarantine[claim.id];
    assert stored.reason == PREFIX + stored.reason[|PREFIX|..];
    hide CommitStep;
    CommitsRetire(Step(s, Deliver(claim, draft)));
  }

  /** Redelivered while stuck, an item retires exactly when its draft recurs. */
  lemma EscapesExactly(s: State, claim: Claim, draft: Draft, k: nat)
    requires Stuck(s, claim.id, k) && s.pc == Idle && Room(s, s.t.quarantine[claim.id].notice.value)
    ensures var end := CarriedOut(s, claim, draft);
      && claim.id in end.t.inbound
      && (end.t.inbound[claim.id].progress == Retired <==> Recurs(s, claim.id, k, draft))
  {
    RunFive(s, Deliver(claim, draft), Commit, Commit, Commit, Commit);
    AnewMatches(s, claim.id, k, draft);
    hide NoticeName, Recurs;
    var planned := Step(s, Deliver(claim, draft));
    if OrphanFor(Anew(s.t.counter, draft)) == s.t.quarantine[claim.id].(noticePublished := false) {
      hide CommitStep;
      CommitsRetire(planned);
    } else {
      assert CommitStep(planned) == planned.(pc := Idle);
    }
  }

  /** The state is reached: a crash between marking and retiring leaves a noticed orphan stuck. */
  lemma CrashLeavesStuck(dir: map<string, string>, claim: Claim, draft: Draft)
    requires draft.notice.Some? && NoticeName(draft.before + 1) !in dir
    ensures var s := Run(Start(dir), [Deliver(claim, draft), Commit, Commit, Commit, Crash]);
      s.pc == Idle && Stuck(s, claim.id, draft.before + 1)
  {
    hide NoticeName;
    RunFive(Start(dir), Deliver(claim, draft), Commit, Commit, Commit, Crash);
  }

  /** In any reachable idle state, an item marked but not retired is not retired by any run of fewer than 2^32 draws. */
  lemma MarkedIsNeverRetired(dir: map<string, string>, before: seq<Action>, after: seq<Action>, id: string)
    requires var s := Run(Start(dir), before);
      && s.pc == Idle && id in s.t.quarantine && id in s.t.inbound
      && s.t.quarantine[id].noticePublished && s.t.inbound[id].progress == Staged
    ensures var s := Run(Start(dir), before); var end := Run(s, after);
      exists k: nat :: 1 <= k <= s.t.counter && Stuck(s, id, k)
        && (end.t.counter < k + IDENTITY_LIMIT ==> Stuck(end, id, k))
  {
    hide Step, NoticeName;
    var s := Run(Start(dir), before);
    RunKeepsInv(Start(dir), before);
    RunKeepsNamed(Start(dir), before);
    assert Issued(s.t.counter, s.t.quarantine[id].notice);
    var k: nat :| 1 <= k <= s.t.counter && s.t.quarantine[id].notice.value.name == NoticeName(k);
    assert Stuck(s, id, k);
    if Run(s, after).t.counter < k + IDENTITY_LIMIT { StuckForever(s, after, id, k); }
  }
}
