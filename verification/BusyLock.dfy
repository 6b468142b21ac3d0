/**
 The `.bsy` lock of section 5.1 of FTS-5005.003 as interleaved steps.

 Any number of processes race over one path. The path names at most one inode;
 an inode outlives its name while some process still has it open. Every system
 call of `BusyLock::take` and of its `Drop` is one atomic step, an I/O error or
 a crash may strike anywhere, and time passes through `Age`.
 */
module BusyLock {
  import opened Wrappers

  type Pid = nat
  type Inode = nat

  /** Where one process stands inside `take`, while holding, or inside `drop`. */
  datatype Pc =
    | Idle
    | Created(file: Inode)     // create_new succeeded; the file is not locked yet
    | Stamping(file: Inode)    // own new file locked; owner record not written yet
    | Opened(file: Inode)      // an existing file is open
    | SeenStale(file: Inode)   // it was stale before locking
    | Locked(file: Inode)      // its OS lock is ours
    | Confirmed(file: Inode)   // still stale under the lock
    | Stamped(file: Inode)     // owner record rewritten; identity not compared yet
    | Held(file: Inode)        // `take` returned a guard
    | Removing(file: Inode)    // drop: the path is still our file
    | Unlocking(file: Inode)   // drop: only the OS lock is left to release

  datatype File = File(locked: Option<Pid>, stale: bool)

  datatype State = State(path: Option<Inode>, files: map<Inode, File>, pcs: map<Pid, Pc>)

  datatype Action =
    | Create(p: Pid, inode: Inode)
    | LockCreated(p: Pid)
    | StampCreated(p: Pid)
    | StampFails(p: Pid)
    | Open(p: Pid)
    | CheckStale(p: Pid)
    | TryLock(p: Pid)
    | Recheck(p: Pid)
    | Stamp(p: Pid)
    | Compare(p: Pid)
    | DropCompare(p: Pid)
    | DropRemove(p: Pid)
    | Unlock(p: Pid)
    | Crash(p: Pid)
    | Age(file: Inode)

  const Init := State(None, map[], map[])

  function At(s: State, p: Pid): Pc {
    if p in s.pcs then s.pcs[p] else Idle
  }

  predicate LockFree(s: State, i: Inode) {
    i in s.files && s.files[i].locked == None
  }

  predicate IsStale(s: State, i: Inode) {
    i in s.files && s.files[i].stale
  }

  predicate Enabled(s: State, a: Action) {
    match a
    case Create(p, i) => At(s, p) == Idle && s.path == None && i !in s.files
    case LockCreated(p) => At(s, p).Created?
    case StampCreated(p) => At(s, p).Stamping? && At(s, p).file in s.files
    case StampFails(p) => At(s, p).Stamping?
    case Open(p) => At(s, p) == Idle && s.path.Some?
    case CheckStale(p) => At(s, p).Opened?
    case TryLock(p) => At(s, p).SeenStale?
    case Recheck(p) => At(s, p).Locked?
    case Stamp(p) => At(s, p).Confirmed? && At(s, p).file in s.files
    case Compare(p) => At(s, p).Stamped?
    case DropCompare(p) => At(s, p).Held?
    case DropRemove(p) => At(s, p).Removing?
    case Unlock(p) => At(s, p).Unlocking?
    case Crash(p) => true
    case Age(i) => i in s.files
  }

  function Go(s: State, p: Pid, pc: Pc): State {
    s.(pcs := s.pcs[p := pc])
  }

  /** Takes the OS lock when it is free; otherwise `take` gives up. */
  function Grab(s: State, p: Pid, i: Inode, pc: Pc): State {
    if LockFree(s, i) then
      Go(s.(files := s.files[i := s.files[i].(locked := Some(p))]), p, pc)
    else Go(s, p, Idle)
  }

  /** Returning or dying closes every open file and so releases its OS lock. */
  function Leave(s: State, p: Pid): State {
    Go(s.(files := map i | i in s.files ::
             if s.files[i].locked == Some(p) then s.files[i].(locked := None) else s.files[i]),
       p, Idle)
  }

  function Next(s: State, a: Action): State
    requires Enabled(s, a)
  {
    match a
    case Create(p, i) =>
      Go(s.(path := Some(i), files := s.files[i := File(None, false)]), p, Created(i))
    case LockCreated(p) =>
      Grab(s, p, At(s, p).file, Stamping(At(s, p).file))
    case StampCreated(p) =>
      var i := At(s, p).file;
      Go(s.(files := s.files[i := s.files[i].(stale := false)]), p, Held(i))
    case StampFails(p) =>
      Go(s.(path := None), p, Unlocking(At(s, p).file))
    case Open(p) =>
      Go(s, p, Opened(s.path.value))
    case CheckStale(p) =>
      if IsStale(s, At(s, p).file) then Go(s, p, SeenStale(At(s, p).file)) else Leave(s, p)
    case TryLock(p) =>
      Grab(s, p, At(s, p).file, Locked(At(s, p).file))
    case Recheck(p) =>
      if IsStale(s, At(s, p).file) then Go(s, p, Confirmed(At(s, p).file)) else Leave(s, p)
    case Stamp(p) =>
      var i := At(s, p).file;
      Go(s.(files := s.files[i := s.files[i].(stale := false)]), p, Stamped(i))
    case Compare(p) =>
      if s.path == Some(At(s, p).file) then Go(s, p, Held(At(s, p).file)) else Leave(s, p)
    case DropCompare(p) =>
      if s.path == Some(At(s, p).file) then Go(s, p, Removing(At(s, p).file))
      else Go(s, p, Unlocking(At(s, p).file))
    case DropRemove(p) =>
      Go(s.(path := None), p, Unlocking(At(s, p).file))
    case Unlock(p) => Leave(s, p)
    case Crash(p) => Leave(s, p)
    case Age(i) => s.(files := s.files[i := s.files[i].(stale := true)])
  }

  /** The timing assumption: no file turns stale while its creator has yet to lock it. */
  ghost predicate Timely(s: State, a: Action) {
    a.Age? ==> forall p: Pid :: At(s, p) != Created(a.file)
  }

  /** `run` can be taken from `s` and ends in `t`; when `timely`, every step obeys the assumption. */
  ghost predicate Reaches(s: State, run: seq<Action>, t: State, timely: bool)
    decreases |run|
  {
    if run == [] then s == t
    else
      && Enabled(s, run[0])
      && (timely ==> Timely(s, run[0]))
      && Reaches(Next(s, run[0]), run[1..], t, timely)
  }

  /** The guard exists, or its drop has decided to delete the file. */
  predicate Live(pc: Pc) { pc.Held? || pc.Removing? }

  /** Any state that owns an OS lock. */
  predicate Owning(pc: Pc) {
    pc.Stamping? || pc.Locked? || pc.Confirmed? || pc.Stamped? || pc.Held? || pc.Removing? || pc.Unlocking?
  }

  /** A state past the only checks of its file being the one at the path. */
  predicate Trusting(pc: Pc) { pc.Stamping? || pc.Held? || pc.Removing? }

  /**
   What FTS-5005 asks of the lock: one live guard at most, whose file is the one
   other mailers see, and a `remove_file` about to run deletes the remover's own file.
   */
  ghost predicate Safe(s: State) {
    && (forall p: Pid, q: Pid :: Live(At(s, p)) && Live(At(s, q)) ==> p == q)
    && (forall p: Pid :: Live(At(s, p)) ==> s.path == Some(At(s, p).file))
    && (forall p: Pid :: At(s, p).Removing? || At(s, p).Stamping? ==> s.path == Some(At(s, p).file))
  }

  // What holds however time passes, and exactly when it is lost.

  ghost predicate ProcBase(s: State, p: Pid) {
    var pc := At(s, p);
    && (!pc.Idle? ==> pc.file in s.files)
    && (Owning(pc) ==> pc.file in s.files && s.files[pc.file].locked == Some(p))
    && (Trusting(pc) ==> s.path == Some(pc.file))
  }

  ghost predicate Base(s: State) {
    && (s.path.Some? ==> s.path.value in s.files)
    && (forall p: Pid :: ProcBase(s, p))
  }

  lemma BaseIsSafe(s: State)
    requires Base(s)
    ensures Safe(s)
  {
    forall p: Pid, q: Pid | Live(At(s, p)) && Live(At(s, q)) ensures p == q {
      assert ProcBase(s, p) && ProcBase(s, q);
    }
    forall p: Pid | Trusting(At(s, p)) ensures s.path == Some(At(s, p).file) {
      assert ProcBase(s, p);
    }
  }

  /** The create branch locks a file that is no longer the one at the path: the identity check it lacks. */
  predicate Misses(s: State, a: Action) {
    a.LockCreated? && At(s, a.p).Created? && LockFree(s, At(s, a.p).file) && s.path != Some(At(s, a.p).file)
  }

  lemma StepKeepsProcBase(s: State, a: Action, q: Pid)
    requires Base(s) && Enabled(s, a) && !Misses(s, a)
    ensures ProcBase(Next(s, a), q)
  {
    assert ProcBase(s, q);
    if !a.Age? {
      assert ProcBase(s, a.p);
      if a.p == q {} else {}
    }
  }

  lemma StepKeepsBase(s: State, a: Action)
    requires Base(s) && Enabled(s, a)
    ensures Base(Next(s, a)) <==> !Misses(s, a)
    ensures Safe(Next(s, a)) <==> !Misses(s, a)
  {
    if Misses(s, a) {
      assert At(Next(s, a), a.p) == Stamping(At(s, a.p).file);
      assert !ProcBase(Next(s, a), a.p);
    } else {
      if !a.Age? { assert ProcBase(s, a.p); }
      forall q: Pid ensures ProcBase(Next(s, a), q) { StepKeepsProcBase(s, a, q); }
      BaseIsSafe(Next(s, a));
    }
  }

  /** Every step of `run` can be taken in turn. */
  ghost predicate Possible(s: State, run: seq<Action>)
    decreases |run|
  {
    run == [] || (Enabled(s, run[0]) && Possible(Next(s, run[0]), run[1..]))
  }

  ghost predicate SafeThroughout(s: State, run: seq<Action>)
    requires Possible(s, run)
    decreases |run|
  {
    Safe(s) && (run == [] || SafeThroughout(Next(s, run[0]), run[1..]))
  }

  ghost predicate NeverMisses(s: State, run: seq<Action>)
    requires Possible(s, run)
    decreases |run|
  {
    run == [] || (!Misses(s, run[0]) && NeverMisses(Next(s, run[0]), run[1..]))
  }

  /** Exclusion holds throughout a run exactly when no maker locks a file that has left the path. */
  lemma {:induction false} SafeExactly(s: State, run: seq<Action>)
    requires Base(s) && Possible(s, run)
    ensures SafeThroughout(s, run) <==> NeverMisses(s, run)
    decreases |run|
  {
    BaseIsSafe(s);
    if run != [] {
      hide Base, Safe, Misses;
      StepKeepsBase(s, run[0]);
      if Misses(s, run[0]) {
        assert !SafeThroughout(Next(s, run[0]), run[1..]);
      } else {
        SafeExactly(Next(s, run[0]), run[1..]);
      }
    }
  }

  // What timely runs keep besides.

  ghost predicate ProcInv(s: State, p: Pid) {
    var pc := At(s, p);
    pc.Created? ==> s.path == Some(pc.file) && LockFree(s, pc.file) && !IsStale(s, pc.file)
  }

  /** While `p` has an unlocked new file, nobody has got further with it than opening it. */
  ghost predicate PairInv(s: State, p: Pid, q: Pid) {
    p != q && At(s, p).Created? && !At(s, q).Idle? && At(s, q).file == At(s, p).file ==> At(s, q).Opened?
  }

  ghost predicate Inv(s: State) {
    && Base(s)
    && (forall p: Pid :: ProcInv(s, p))
    && (forall p: Pid, q: Pid :: PairInv(s, p, q))
  }

  lemma InvNeverMisses(s: State, a: Action)
    requires Inv(s)
    ensures !Misses(s, a)
  {
    if a.LockCreated? { assert ProcInv(s, a.p); }
  }

  lemma StepKeepsProcInv(s: State, a: Action, q: Pid)
    requires Inv(s) && Enabled(s, a) && Timely(s, a)
    ensures ProcInv(Next(s, a), q)
  {
    assert ProcInv(s, q) && ProcBase(s, q);
    if !a.Age? { assert ProcBase(s, a.p) && ProcInv(s, a.p) && PairInv(s, q, a.p); }
  }

  lemma StepKeepsPairInv(s: State, a: Action, q: Pid, r: Pid)
    requires Inv(s) && Enabled(s, a)
    ensures PairInv(Next(s, a), q, r)
  {
    assert ProcBase(s, q) && ProcBase(s, r) && ProcInv(s, q) && ProcInv(s, r) && PairInv(s, q, r);
  }

  lemma StepKeepsInv(s: State, a: Action)
    requires Inv(s) && Enabled(s, a) && Timely(s, a)
    ensures Inv(Next(s, a))
  {
    InvNeverMisses(s, a);
    StepKeepsBase(s, a);
    forall q: Pid ensures ProcInv(Next(s, a), q) { StepKeepsProcInv(s, a, q); }
    forall q: Pid, r: Pid ensures PairInv(Next(s, a), q, r) { StepKeepsPairInv(s, a, q, r); }
  }

  lemma {:induction false} TimelyNeverMisses(s: State, run: seq<Action>, t: State)
    requires Inv(s) && Reaches(s, run, t, true)
    ensures Possible(s, run) && NeverMisses(s, run)
    decreases |run|
  {
    if run != [] {
      hide Inv, Misses, Timely;
      InvNeverMisses(s, run[0]);
      StepKeepsInv(s, run[0]);
      TimelyNeverMisses(Next(s, run[0]), run[1..], t);
    }
  }

  lemma {:induction false} SafeAtEnd(s: State, run: seq<Action>, t: State)
    requires Reaches(s, run, t, true) && Possible(s, run) && SafeThroughout(s, run)
    ensures Safe(t)
    decreases |run|
  {
    hide Safe, Timely;
    if run != [] { SafeAtEnd(Next(s, run[0]), run[1..], t); }
  }

  /** Mutual exclusion over every timely interleaving of takers, drops, errors, crashes and time. */
  lemma TimelyRunsAreSafe(run: seq<Action>, t: State)
    requires Reaches(Init, run, t, true)
    ensures Safe(t)
  {
    TimelyNeverMisses(Init, run, t);
    SafeExactly(Init, run);
    SafeAtEnd(Init, run, t);
  }

  /** Runs compose. */
  lemma {:induction false} Follow(s: State, run: seq<Action>, t: State, more: seq<Action>, u: State, timely: bool)
    requires Reaches(s, run, t, timely) && Reaches(t, more, u, timely)
    ensures Reaches(s, run + more, u, timely)
    decreases |run|
  {
    hide Next, Enabled, Timely;
    if run == [] {
      assert run + more == more;
    } else {
      assert (run + more)[1..] == run[1..] + more;
      Follow(Next(s, run[0]), run[1..], t, more, u, timely);
    }
  }

  // Written-out runs: each tale gives its k-th state and the action taken there.

  datatype Tale = Abandon | Reclaim(maker: Pc) | Double

  function Told(tale: Tale, k: nat): (State, Action) {
    match tale
    case Abandon => Abandoning(k)
    case Reclaim(maker) => Reclaiming(maker, k)
    case Double => Doubling(k)
  }

  ghost predicate StepOf(tale: Tale, k: nat, timely: bool) {
    var (s, a) := Told(tale, k);
    Enabled(s, a) && (timely ==> Timely(s, a)) && Next(s, a) == Told(tale, k + 1).0
  }

  /** File 0 is as given, and processes 0, 1 and 2 stand as given. */
  function Scene(path: Option<Inode>, zero: File, a: Pc, b: Pc, c: Pc): State {
    State(path, map[0 := zero], map[0 := a, 1 := b, 2 := c])
  }

  /** Process 0 makes and takes the lock, then crashes, and its file turns stale. */
  function Abandoning(k: nat): (State, Action) {
    if k == 0 then (Init, Crash(1))
    else if k == 1 then (State(None, map[], map[1 := Idle]), Crash(2))
    else if k == 2 then (State(None, map[], map[1 := Idle, 2 := Idle]), Create(0, 0))
    else if k == 3 then (Scene(Some(0), File(None, false), Created(0), Idle, Idle), LockCreated(0))
    else if k == 4 then (Scene(Some(0), File(Some(0), false), Stamping(0), Idle, Idle), StampCreated(0))
    else if k == 5 then (Scene(Some(0), File(Some(0), false), Held(0), Idle, Idle), Crash(0))
    else if k == 6 then (Scene(Some(0), File(None, false), Idle, Idle, Idle), Age(0))
    else (Scene(Some(0), File(None, true), Idle, Idle, Idle), Open(1))
  }

  /** Process 1 reclaims stale file 0, its maker being dead or not having locked it yet. */
  function Reclaiming(maker: Pc, k: nat): (State, Action) {
    if k == 0 then (Scene(Some(0), File(None, true), maker, Idle, Idle), Open(1))
    else if k == 1 then (Scene(Some(0), File(None, true), maker, Opened(0), Idle), CheckStale(1))
    else if k == 2 then (Scene(Some(0), File(None, true), maker, SeenStale(0), Idle), TryLock(1))
    else if k == 3 then (Scene(Some(0), File(Some(1), true), maker, Locked(0), Idle), Recheck(1))
    else if k == 4 then (Scene(Some(0), File(Some(1), true), maker, Confirmed(0), Idle), Stamp(1))
    else if k == 5 then (Scene(Some(0), File(Some(1), false), maker, Stamped(0), Idle), Compare(1))
    else (Scene(Some(0), File(Some(1), false), maker, Held(0), Idle), DropCompare(1))
  }

  /** Two live guards: process 0 on an unlinked file, process 2 on the one at the path. */
  const Doubled := State(Some(1), map[0 := File(Some(0), false), 1 := File(Some(2), false)],
                         map[0 := Held(0), 1 := Idle, 2 := Held(1)])

  /** The reclaimer drops its guard, the overtaken maker carries on, and process 2 takes the free path. */
  function Doubling(k: nat): (State, Action) {
    if k == 0 then (Scene(Some(0), File(Some(1), false), Created(0), Held(0), Idle), DropCompare(1))
    else if k == 1 then (Scene(Some(0), File(Some(1), false), Created(0), Removing(0), Idle), DropRemove(1))
    else if k == 2 then (Scene(None, File(Some(1), false), Created(0), Unlocking(0), Idle), Unlock(1))
    else if k == 3 then (Scene(None, File(None, false), Created(0), Idle, Idle), LockCreated(0))
    else if k == 4 then (Scene(None, File(Some(0), false), Stamping(0), Idle, Idle), StampCreated(0))
    else if k == 5 then (Scene(None, File(Some(0), false), Held(0), Idle, Idle), Create(2, 1))
    else if k == 6 then
      (State(Some(1), map[0 := File(Some(0), false), 1 := File(None, false)],
             map[0 := Held(0), 1 := Idle, 2 := Created(1)]), LockCreated(2))
    else if k == 7 then
      (State(Some(1), map[0 := File(Some(0), false), 1 := File(Some(2), false)],
             map[0 := Held(0), 1 := Idle, 2 := Stamping(1)]), StampCreated(2))
    else (Doubled, Age(0))
  }

  lemma AbandonStep(k: nat)
    requires k < 7
    ensures StepOf(Abandon, k, true)
  {
    hide Reclaiming, Doubling;
    if k == 0 {} else if k == 1 {} else if k == 2 {} else if k == 3 {}
    else if k == 4 {} else if k == 5 {} else {}
  }

  lemma ReclaimStepEarly(maker: Pc, k: nat, timely: bool)
    requires (maker == Idle || maker == Created(0)) && k < 3
    ensures StepOf(Reclaim(maker), k, timely)
  {
    hide Abandoning, Doubling, Leave;
    if k == 0 {} else if k == 1 {} else {}
  }

  lemma ReclaimStepLate(maker: Pc, k: nat, timely: bool)
    requires (maker == Idle || maker == Created(0)) && 3 <= k < 6
    ensures StepOf(Reclaim(maker), k, timely)
  {
    hide Abandoning, Doubling, Leave;
    if k == 3 {} else if k == 4 {} else {}
  }

  lemma DoubleStepEarly(k: nat)
    requires k < 4
    ensures StepOf(Double, k, false)
  {
    if k == 2 {
      UnlockStep();
    } else {
      hide Abandoning, Reclaiming, Leave;
      if k == 0 {} else if k == 1 {} else {}
    }
  }

  lemma UnlockStep()
    ensures StepOf(Double, 2, false)
  {
    var (s, a) := Told(Double, 2);
    assert Leave(s, 1).files == map[0 := File(None, false)];
  }

  lemma DoubleStepLate(k: nat)
    requires 4 <= k < 8
    ensures StepOf(Double, k, false)
  {
    hide Abandoning, Reclaiming;
    if k == 4 {} else if k == 5 {} else if k == 6 {} else {}
  }

  ghost function Length(tale: Tale): nat {
    match tale case Abandon => 7 case Reclaim(_) => 6 case Double => 8
  }

  /** A tale can be played from any of its states to any later one. */
  lemma {:induction false} Play(tale: Tale, from: nat, n: nat, timely: bool) returns (run: seq<Action>)
    requires from <= n <= Length(tale) && (tale.Double? ==> !timely)
    requires tale.Reclaim? ==> tale.maker == Idle || tale.maker == Created(0)
    ensures Reaches(Told(tale, from).0, run, Told(tale, n).0, timely)
    decreases n - from
  {
    if from == n {
      run := [];
    } else {
      assert StepOf(tale, from, timely) by {
        match tale
        case Abandon => AbandonStep(from);
        case Reclaim(maker) =>
          if from < 3 { ReclaimStepEarly(maker, from, timely); } else { ReclaimStepLate(maker, from, timely); }
        case Double =>
          if from < 4 { DoubleStepEarly(from); } else { DoubleStepLate(from); }
      }
      var rest := Play(tale, from + 1, n, timely);
      run := [Told(tale, from).1] + rest;
      assert run[1..] == rest;
    }
  }

  /**
   The protocol is not safe by doing nothing: a lone taker gets an absent lock,
   and once it has crashed and its file is stale another process gets it.
   */
  lemma AbandonedLockIsReclaimed() returns (take: seq<Action>, held: State, recover: seq<Action>, reclaimed: State)
    ensures Reaches(Init, take, held, true) && Live(At(held, 0))
    ensures Reaches(held, recover, reclaimed, true) && Live(At(reclaimed, 1))
  {
    hide Reaches;
    held, reclaimed := Told(Abandon, 5).0, Told(Reclaim(Idle), 6).0;
    take := Play(Abandon, 0, 5, true);
    var abandon := Play(Abandon, 5, 7, true);
    var reclaim := Play(Reclaim(Idle), 0, 6, true);
    Follow(held, abandon, Told(Abandon, 7).0, reclaim, reclaimed, true);
    recover := abandon + reclaim;
  }

  /** The maker's new file may turn stale under it. */
  lemma MadeThenStale() returns (run: seq<Action>)
    ensures Reaches(Init, run, Told(Reclaim(Created(0)), 0).0, false)
  {
    var make := Play(Abandon, 0, 3, false);
    var s, t := Told(Abandon, 3).0, Told(Reclaim(Created(0)), 0).0;
    assert t.files == s.files[0 := File(None, true)];
    assert [Age(0)][1..] == [];
    assert Reaches(s, [Age(0)], t, false);
    Follow(Init, make, s, [Age(0)], t, false);
    run := make + [Age(0)];
  }

  /**
   The timing assumption is necessary. The create branch compares no identity, so a
   maker overtaken by a whole reclaim and drop still returns a guard; two are then live.
   */
  lemma UntimelyRunBreaksExclusion() returns (run: seq<Action>)
    ensures Reaches(Init, run, Doubled, false)
    ensures Live(At(Doubled, 0)) && Live(At(Doubled, 2)) && !Safe(Doubled)
  {
    hide Reaches;
    var first := MadeThenStale();
    var reclaim := Play(Reclaim(Created(0)), 0, 6, false);
    var double := Play(Double, 0, 8, false);
    Follow(Init, first, Told(Reclaim(Created(0)), 0).0, reclaim, Told(Double, 0).0, false);
    Follow(Init, first + reclaim, Told(Double, 0).0, double, Doubled, false);
    run := first + reclaim + double;
  }
}
