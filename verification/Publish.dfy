/**
 Crash-safe publication into a directory that a tosser watches.

 Names lead to inodes, so a hard link is a second name for the same bytes. The machine
 takes one durable step at a time; stopping it anywhere is a crash or an I/O error.
 */
module Publish {
  import opened Wrappers

  datatype Object = Object(name: string, contents: string)

  /** A directory, the bytes behind its inodes, and the next unused inode. */
  datatype State = State(dir: map<string, nat>, data: map<nat, string>, next: nat)

  const STAGING: string := ".tith-staging-"

  function Staged(name: string): string {
    STAGING + name
  }

  predicate IsStaging(name: string) {
    STAGING <= name
  }

  lemma StagedNames(a: string, b: string)
    ensures IsStaging(Staged(a)) && (Staged(a) == Staged(b) ==> a == b)
  {
    assert Staged(a)[..|STAGING|] == STAGING;
    assert Staged(a)[|STAGING|..] == a && Staged(b)[|STAGING|..] == b;
  }

  ghost predicate Good(s: State) {
    forall n :: n in s.dir ==> s.dir[n] < s.next && s.dir[n] in s.data
  }

  function Contents(s: State, name: string): Option<string> {
    if name in s.dir && s.dir[name] in s.data then Some(s.data[s.dir[name]]) else None
  }

  /** Names differ and none looks like a staging name. */
  ghost predicate Proper(objects: seq<Object>) {
    && (forall i :: 0 <= i < |objects| ==> !IsStaging(objects[i].name))
    && (forall i, j :: 0 <= i < j < |objects| ==> objects[i].name != objects[j].name)
  }

  // One attempt, step by step.

  datatype Pc = Open(i: nat) | Writing(i: nat, done: nat) | Link(i: nat) | Unlink(i: nat) | Finished(taken: Option<nat>)

  /** `choice` says how much of the rest one write call gets through. */
  function Step(objects: seq<Object>, s: State, pc: Pc, choice: nat): (State, Pc) {
    match pc
    case Open(i) =>
      if i >= |objects| then (s, Link(0))
      else
        var path := Staged(objects[i].name);
        if path in s.dir then (s.(dir := s.dir - {path}), Open(i))
        else (State(s.dir[path := s.next], s.data[s.next := ""], s.next + 1), Writing(i, 0))
    case Writing(i, done) =>
      if i >= |objects| || done >= |objects[i].contents| then (s, Open(i + 1))
      else
        var path, rest := Staged(objects[i].name), |objects[i].contents| - done;
        var upTo := done + if 1 <= choice <= rest then choice else rest;
        (if path in s.dir then s.(data := s.data[s.dir[path] := objects[i].contents[..upTo]]) else s, Writing(i, upTo))
    case Link(i) =>
      if i >= |objects| then (s, Finished(None))
      else
        var path, name := Staged(objects[i].name), objects[i].name;
        if name in s.dir || path !in s.dir then (s, Finished(Some(i)))
        else (s.(dir := s.dir[name := s.dir[path]]), Unlink(i))
    case Unlink(i) =>
      (if i < |objects| then s.(dir := s.dir - {Staged(objects[i].name)}) else s, Link(i + 1))
    case Finished(_) => (s, pc)
  }

  function Run(objects: seq<Object>, s: State, pc: Pc, choices: seq<nat>): (State, Pc)
    decreases |choices|
  {
    if choices == [] then (s, pc)
    else
      var (s', pc') := Step(objects, s, pc, choices[0]);
      Run(objects, s', pc', choices[1..])
  }

  /** How many objects have been made visible. */
  function Shown(objects: seq<Object>, pc: Pc): nat {
    match pc
    case Open(_) => 0
    case Writing(_, _) => 0
    case Link(i) => i
    case Unlink(i) => i + 1
    case Finished(taken) => if taken.Some? then taken.value else |objects|
  }

  // What every step keeps.

  /** Inodes from before the attempt keep their bytes, and old public names their inodes. */
  ghost predicate Untouched(s0: State, s: State) {
    && s0.next <= s.next
    && (forall k :: k in s0.data && k < s0.next ==> k in s.data && s.data[k] == s0.data[k])
    && (forall n :: n in s0.dir && !IsStaging(n) ==> n in s.dir && s.dir[n] == s0.dir[n])
  }

  /** A name leads to a new inode that holds all of an object. */
  ghost predicate Holds(s0: State, s: State, name: string, contents: string) {
    name in s.dir && s0.next <= s.dir[name] && s.dir[name] in s.data && s.data[s.dir[name]] == contents
  }

  ghost predicate PrefixShown(s0: State, objects: seq<Object>, s: State, k: nat) {
    && k <= |objects|
    && (forall j :: 0 <= j < k ==> objects[j].name !in s0.dir && Holds(s0, s, objects[j].name, objects[j].contents))
    && (forall n :: n in s.dir && !IsStaging(n) ==> n in s0.dir || exists j :: 0 <= j < k && objects[j].name == n)
  }

  ghost predicate StagedFrom(s0: State, objects: seq<Object>, s: State, lo: nat, hi: nat) {
    hi <= |objects| && forall j :: lo <= j < hi ==> Holds(s0, s, Staged(objects[j].name), objects[j].contents)
  }

  /** The file being written is the newest, and no other name leads to it. */
  ghost predicate InProgress(s0: State, objects: seq<Object>, s: State, i: nat, done: nat) {
    && i < |objects| && done <= |objects[i].contents|
    && Holds(s0, s, Staged(objects[i].name), objects[i].contents[..done])
    && s.dir[Staged(objects[i].name)] == s.next - 1
    && forall n :: n in s.dir && n != Staged(objects[i].name) ==> s.dir[n] != s.next - 1
  }

  ghost predicate Progress(s0: State, objects: seq<Object>, s: State, pc: Pc) {
    match pc
    case Open(i) => i <= |objects| && StagedFrom(s0, objects, s, 0, i)
    case Writing(i, done) => StagedFrom(s0, objects, s, 0, i) && InProgress(s0, objects, s, i, done)
    case Link(i) => StagedFrom(s0, objects, s, i, |objects|)
    case Unlink(i) => i < |objects| && StagedFrom(s0, objects, s, i, |objects|)
    case Finished(taken) => true
  }

  ghost predicate Inv(s0: State, objects: seq<Object>, s: State, pc: Pc) {
    Good(s) && Untouched(s0, s) && PrefixShown(s0, objects, s, Shown(objects, pc)) && Progress(s0, objects, s, pc)
  }

  lemma StagedDiffer(objects: seq<Object>, i: nat)
    requires Proper(objects) && i < |objects|
    ensures IsStaging(Staged(objects[i].name))
    ensures forall j :: 0 <= j < |objects| && j != i ==> Staged(objects[j].name) != Staged(objects[i].name)
    ensures forall n :: !IsStaging(n) ==> n != Staged(objects[i].name)
  {
    StagedNames(objects[i].name, objects[i].name);
    forall j | 0 <= j < |objects| && j != i ensures Staged(objects[j].name) != Staged(objects[i].name) {
      StagedNames(objects[j].name, objects[i].name);
    }
  }

  lemma RemoveKeeps(s0: State, objects: seq<Object>, s: State, i: nat)
    requires Proper(objects) && Inv(s0, objects, s, Open(i)) && i < |objects|
    ensures Inv(s0, objects, s.(dir := s.dir - {Staged(objects[i].name)}), Open(i))
  {
    hide Staged, IsStaging;
    StagedDiffer(objects, i);
  }

  lemma CreateKeeps(s0: State, objects: seq<Object>, s: State, i: nat)
    requires Proper(objects) && Inv(s0, objects, s, Open(i)) && i < |objects| && Staged(objects[i].name) !in s.dir
    ensures var path := Staged(objects[i].name);
      Inv(s0, objects, State(s.dir[path := s.next], s.data[s.next := ""], s.next + 1), Writing(i, 0))
  {
    hide Staged, IsStaging;
    StagedDiffer(objects, i);
    assert objects[i].contents[..0] == "";
  }

  lemma WriteKeeps(s0: State, objects: seq<Object>, s: State, i: nat, done: nat, upTo: nat)
    requires Proper(objects) && Inv(s0, objects, s, Writing(i, done)) && done < upTo <= |objects[i].contents|
    ensures var path := Staged(objects[i].name);
      Inv(s0, objects, s.(data := s.data[s.dir[path] := objects[i].contents[..upTo]]), Writing(i, upTo))
  {
    hide Staged, IsStaging;
    StagedDiffer(objects, i);
  }

  lemma WrittenKeeps(s0: State, objects: seq<Object>, s: State, i: nat)
    requires Proper(objects) && i < |objects| && Inv(s0, objects, s, Writing(i, |objects[i].contents|))
    ensures Inv(s0, objects, s, Open(i + 1))
  {
    hide Staged, IsStaging;
    assert objects[i].contents[..|objects[i].contents|] == objects[i].contents;
  }

  lemma LinkKeeps(s0: State, objects: seq<Object>, s: State, i: nat)
    requires Good(s0) && Proper(objects) && Inv(s0, objects, s, Link(i)) && i < |objects| && objects[i].name !in s.dir
    ensures Staged(objects[i].name) in s.dir
    ensures Inv(s0, objects, s.(dir := s.dir[objects[i].name := s.dir[Staged(objects[i].name)]]), Unlink(i))
  {
    hide Staged, IsStaging;
    StagedDiffer(objects, i);
    var name := objects[i].name;
    assert Holds(s0, s, Staged(name), objects[i].contents);
    assert name !in s0.dir;
  }

  lemma UnlinkKeeps(s0: State, objects: seq<Object>, s: State, i: nat)
    requires Proper(objects) && Inv(s0, objects, s, Unlink(i))
    ensures Inv(s0, objects, s.(dir := s.dir - {Staged(objects[i].name)}), Link(i + 1))
  {
    hide Staged, IsStaging;
    StagedDiffer(objects, i);
  }

  lemma StepKeepsInv(s0: State, objects: seq<Object>, s: State, pc: Pc, choice: nat)
    requires Good(s0) && Proper(objects) && Inv(s0, objects, s, pc)
    ensures var (s', pc') := Step(objects, s, pc, choice); Inv(s0, objects, s', pc')
  {
    hide Staged, IsStaging, Good, Untouched, Proper;
    match pc
    case Open(i) =>
      if i < |objects| {
        if Staged(objects[i].name) in s.dir { RemoveKeeps(s0, objects, s, i); } else { CreateKeeps(s0, objects, s, i); }
      }
    case Writing(i, done) =>
      if done == |objects[i].contents| {
        WrittenKeeps(s0, objects, s, i);
      } else {
        var rest := |objects[i].contents| - done;
        WriteKeeps(s0, objects, s, i, done, done + if 1 <= choice <= rest then choice else rest);
      }
    case Link(i) =>
      if i < |objects| && objects[i].name !in s.dir { LinkKeeps(s0, objects, s, i); }
    case Unlink(i) =>
      UnlinkKeeps(s0, objects, s, i);
    case Finished(_) =>
  }

  lemma {:induction false} RunKeepsInv(s0: State, objects: seq<Object>, s: State, pc: Pc, choices: seq<nat>)
    requires Good(s0) && Proper(objects) && Inv(s0, objects, s, pc)
    ensures var (s', pc') := Run(objects, s, pc, choices); Inv(s0, objects, s', pc')
    decreases |choices|
  {
    if choices != [] {
      StepKeepsInv(s0, objects, s, pc, choices[0]);
      var (s', pc') := Step(objects, s, pc, choices[0]);
      RunKeepsInv(s0, objects, s', pc', choices[1..]);
    }
  }

  /** At every crash point old files are as they were and the new ones are a prefix of the list, each complete. */
  lemma CrashSafe(s0: State, objects: seq<Object>, choices: seq<nat>)
    requires Good(s0) && Proper(objects)
    ensures var (s, pc) := Run(objects, s0, Open(0), choices); var k := Shown(objects, pc);
      && k <= |objects|
      && (forall n :: n in s0.dir && !IsStaging(n) ==> Contents(s, n) == Contents(s0, n))
      && (forall j :: 0 <= j < k ==>
          objects[j].name !in s0.dir && Contents(s, objects[j].name) == Some(objects[j].contents))
      && (forall n :: n in s.dir && !IsStaging(n) && n !in s0.dir ==> exists j :: 0 <= j < k && objects[j].name == n)
  {
    RunKeepsInv(s0, objects, s0, Open(0), choices);
  }

  /** A referring object is never visible without the companions listed before it. */
  lemma CompanionsFirst(s0: State, objects: seq<Object>, choices: seq<nat>, i: nat, j: nat)
    requires Good(s0) && Proper(objects) && i < j < |objects| && objects[j].name !in s0.dir
    requires objects[j].name in Run(objects, s0, Open(0), choices).0.dir
    ensures Contents(Run(objects, s0, Open(0), choices).0, objects[i].name) == Some(objects[i].contents)
  {
    hide Run;
    CrashSafe(s0, objects, choices);
  }

  // Any number of attempts, each cut short anywhere, with or without clearing in between.

  datatype Attempt = Attempt(objects: seq<Object>, choices: seq<nat>, clear: bool)

  /** `clear_staging`. */
  function Cleared(s: State): State {
    s.(dir := map n | n in s.dir && !IsStaging(n) :: s.dir[n])
  }

  function History(s: State, attempts: seq<Attempt>): State
    decreases |attempts|
  {
    if attempts == [] then s
    else
      var a := attempts[0];
      var after := Run(a.objects, s, Open(0), a.choices).0;
      History(if a.clear then Cleared(after) else after, attempts[1..])
  }

  /** What an attempt leaves behind is a directory like any other. */
  lemma AttemptKeeps(s: State, a: Attempt)
    requires Good(s) && Proper(a.objects)
    ensures var run := Run(a.objects, s, Open(0), a.choices).0; var after := if a.clear then Cleared(run) else run;
      && Good(after)
      && (forall n :: n in s.dir && !IsStaging(n) ==> Contents(after, n) == Contents(s, n) && n in after.dir)
      && (forall n :: n in after.dir && !IsStaging(n) && n !in s.dir ==>
            exists j :: 0 <= j < |a.objects| && a.objects[j].name == n
              && Contents(after, n) == Some(a.objects[j].contents))
  {
    hide Run, IsStaging;
    RunKeepsInv(s, a.objects, s, Open(0), a.choices);
  }

  /** Published by one of the attempts, in full. */
  ghost predicate FromAttempts(attempts: seq<Attempt>, name: string, contents: Option<string>) {
    exists i, j :: 0 <= i < |attempts| && 0 <= j < |attempts[i].objects|
      && attempts[i].objects[j].name == name && contents == Some(attempts[i].objects[j].contents)
  }

  /** A public file never changes again, and every public file was there before or is some object in full. */
  lemma {:induction false} HistorySafe(s: State, attempts: seq<Attempt>, name: string)
    requires Good(s) && !IsStaging(name) && forall i :: 0 <= i < |attempts| ==> Proper(attempts[i].objects)
    ensures name in s.dir ==>
      name in History(s, attempts).dir && Contents(History(s, attempts), name) == Contents(s, name)
    ensures name in History(s, attempts).dir ==>
      name in s.dir || FromAttempts(attempts, name, Contents(History(s, attempts), name))
    decreases |attempts|
  {
    hide Run, IsStaging;
    if attempts != [] {
      var a := attempts[0];
      var run := Run(a.objects, s, Open(0), a.choices).0;
      var after := if a.clear then Cleared(run) else run;
      AttemptKeeps(s, a);
      HistorySafe(after, attempts[1..], name);
      var end := Contents(History(s, attempts), name);
      if name in History(s, attempts).dir && name !in s.dir {
        if name in after.dir {
          var j :| 0 <= j < |a.objects| && a.objects[j].name == name
            && Contents(after, name) == Some(a.objects[j].contents);
          assert attempts[0].objects[j].name == name;
        } else {
          var i, j :| 0 <= i < |attempts[1..]| && 0 <= j < |attempts[1..][i].objects|
            && attempts[1..][i].objects[j].name == name && end == Some(attempts[1..][i].objects[j].contents);
          assert attempts[i + 1] == attempts[1..][i];
        }
      }
    }
  }

  // The code itself, run to its end.

  lemma {:induction false} RunOn(objects: seq<Object>, s: State, pc: Pc, a: seq<nat>, b: seq<nat>)
    ensures var (s', pc') := Run(objects, s, pc, a); Run(objects, s, pc, a + b) == Run(objects, s', pc', b)
    decreases |a|
  {
    hide Step;
    if a == [] {
      assert a + b == b;
    } else {
      var (s', pc') := Step(objects, s, pc, a[0]);
      RunOn(objects, s', pc', a[1..], b);
      assert (a + b)[1..] == a[1..] + b;
    }
  }

  lemma OneStep(objects: seq<Object>, s: State, pc: Pc)
    ensures Run(objects, s, pc, [0]) == Step(objects, s, pc, 0)
  {
    hide Step;
    assert [0][1..] == [];
  }

  class Directory {
    var dir: map<string, nat>
    var data: map<nat, string>
    var next: nat

    ghost function Now(): State
      reads this
    {
      State(dir, data, next)
    }

    /** One machine step has just been taken. */
    ghost method Tick(objects: seq<Object>, before: State, pc: Pc, start: State, first: Pc, done: seq<nat>)
      returns (more: seq<nat>)
      requires Run(objects, start, first, done) == (before, pc) && Now() == Step(objects, before, pc, 0).0
      ensures Run(objects, start, first, more) == (Now(), Step(objects, before, pc, 0).1)
    {
      hide Step;
      more := done + [0];
      RunOn(objects, start, first, done, [0]);
      OneStep(objects, before, pc);
    }

    /** `stage`: a leftover of the same name is removed, then the file is created and written. */
    method Stage(objects: seq<Object>, i: nat) returns (ghost steps: seq<nat>)
      requires i < |objects|
      modifies this
      ensures Run(objects, old(Now()), Open(i), steps) == (Now(), Open(i + 1))
    {
      var path, contents := Staged(objects[i].name), objects[i].contents;
      steps := [];
      if path in dir {
        dir := dir - {path};
        steps := Tick(objects, old(Now()), Open(i), old(Now()), Open(i), steps);
      }
      ghost var before := Now();
      dir, data, next := dir[path := next], data[next := ""], next + 1;
      steps := Tick(objects, before, Open(i), old(Now()), Open(i), steps);
      if contents != [] {
        before := Now();
        data := data[dir[path] := contents];
        assert contents[..|contents|] == contents;
        steps := Tick(objects, before, Writing(i, 0), old(Now()), Open(i), steps);
      }
      steps := Tick(objects, Now(), Writing(i, |contents|), old(Now()), Open(i), steps);
    }

    /** `claim_name` by hard link: false when the name is taken, and then nothing changes. */
    method ClaimName(objects: seq<Object>, i: nat) returns (ok: bool, ghost steps: seq<nat>)
      requires i < |objects|
      modifies this
      ensures Run(objects, old(Now()), Link(i), steps) == (Now(), if ok then Link(i + 1) else Finished(Some(i)))
      ensures !ok ==> Now() == old(Now())
    {
      var path, name := Staged(objects[i].name), objects[i].name;
      if name in dir || path !in dir {
        steps := Tick(objects, Now(), Link(i), old(Now()), Link(i), []);
        return false, steps;
      }
      dir := dir[name := dir[path]];
      steps := Tick(objects, old(Now()), Link(i), old(Now()), Link(i), []);
      ghost var before := Now();
      dir := dir - {path};
      steps := Tick(objects, before, Unlink(i), old(Now()), Link(i), steps);
      return true, steps;
    }

    /** `publish`: all objects are staged, then claimed in order until one name is taken. */
    method PublishAll(objects: seq<Object>) returns (taken: Option<nat>, ghost steps: seq<nat>)
      modifies this
      ensures Run(objects, old(Now()), Open(0), steps) == (Now(), Finished(taken))
    {
      hide Step;
      steps := [];
      var i := 0;
      while i < |objects|
        invariant 0 <= i <= |objects| && Run(objects, old(Now()), Open(0), steps) == (Now(), Open(i))
      {
        ghost var more := Stage(objects, i);
        RunOn(objects, old(Now()), Open(0), steps, more);
        steps := steps + more;
        i := i + 1;
      }
      AllStaged(objects, Now());
      steps := Tick(objects, Now(), Open(i), old(Now()), Open(0), steps);
      i := 0;
      while i < |objects|
        invariant 0 <= i <= |objects| && Run(objects, old(Now()), Open(0), steps) == (Now(), Link(i))
      {
        var ok;
        ghost var more;
        ok, more := ClaimName(objects, i);
        RunOn(objects, old(Now()), Open(0), steps, more);
        steps := steps + more;
        if !ok { return Some(i), steps; }
        i := i + 1;
      }
      AllLinked(objects, Now());
      steps := Tick(objects, Now(), Link(i), old(Now()), Open(0), steps);
      return None, steps;
    }
  }

  lemma AllStaged(objects: seq<Object>, s: State)
    ensures Step(objects, s, Open(|objects|), 0) == (s, Link(0))
  {
  }

  lemma AllLinked(objects: seq<Object>, s: State)
    ensures Step(objects, s, Link(|objects|), 0) == (s, Finished(None))
  {
  }
}
