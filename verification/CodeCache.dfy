/**
 The process-wide cache of entrypoint files. Threads call it while files are written and deleted; one
 step is one look at the cache together with the time stamp it is compared with, one read of a file, one
 look at its time stamp, or one insertion.
 */
module CodeCache {
  import opened Wrappers

  type Path = string

  datatype File = File(content: string, mtime: nat)

  datatype Entry = Entry(code: string, modified: nat)

  datatype Stage =
    | Begun
    | Missed
    | Read(code: string)
    | Stamped(code: string, modified: nat)
    | Done(result: Result<string, ()>)

  /** `held` is a history: every content the file had since the call began. */
  datatype Thread = Idle | Calling(path: Path, stage: Stage, held: set<string>)

  /** `written` is a history: the content each time stamp of a file stands for, which is what was written
      under it or, for a clock reading taken because the file was gone, what had been read before. */
  datatype State = State(
    disk: map<Path, File>, written: map<(Path, nat), string>, cache: map<Path, Entry>, threads: seq<Thread>)

  function Start(n: nat): State {
    State(map[], map[], map[], seq(n, _ => Idle))
  }

  datatype Action =
    | Write(path: Path, content: string, mtime: nat)
    | Delete(path: Path)
    | Call(t: nat, path: Path)
    | LookUp(t: nat)
    | ReadFile(t: nat)
    | Stamp(t: nat, now: nat)
    | Insert(t: nat)
    | Finish(t: nat)

  predicate InStage(s: State, t: nat, p: Stage -> bool) {
    t < |s.threads| && s.threads[t].Calling? && p(s.threads[t].stage)
  }

  /** Every write gets a time stamp that stands for nothing yet. */
  predicate Enabled(s: State, a: Action) {
    match a
    case Write(path, _, mtime) => (path, mtime) !in s.written
    case Delete(path) => path in s.disk
    case Call(t, _) => t < |s.threads| && s.threads[t].Idle?
    case LookUp(t) => InStage(s, t, (g: Stage) => g.Begun?)
    case ReadFile(t) => InStage(s, t, (g: Stage) => g.Missed?)
    case Stamp(t, _) => InStage(s, t, (g: Stage) => g.Read?)
    case Insert(t) => InStage(s, t, (g: Stage) => g.Stamped?)
    case Finish(t) => InStage(s, t, (g: Stage) => g.Done?)
  }

  function Move(s: State, t: nat, g: Stage): State
    requires t < |s.threads| && s.threads[t].Calling?
  {
    s.(threads := s.threads[t := s.threads[t].(stage := g)])
  }

  /** A call in progress on this path sees the new content. */
  function Notice(t: Thread, path: Path, content: string): Thread {
    if t.Calling? && t.path == path then t.(held := t.held + {content}) else t
  }

  function Contents(s: State, path: Path): set<string> {
    if path in s.disk then {s.disk[path].content} else {}
  }

  function Apply(s: State, a: Action): State
    requires Enabled(s, a)
  {
    match a
    case Write(path, content, mtime) =>
      s.(disk := s.disk[path := File(content, mtime)],
         written := s.written[(path, mtime) := content],
         threads := seq(|s.threads|, i requires 0 <= i < |s.threads| => Notice(s.threads[i], path, content)))
    case Delete(path) => s.(disk := s.disk - {path})
    case Call(t, path) => s.(threads := s.threads[t := Calling(path, Begun, Contents(s, path))])
    case LookUp(t) =>
      var path := s.threads[t].path;
      if path in s.cache && path in s.disk && s.disk[path].mtime == s.cache[path].modified
      then Move(s, t, Done(Ok(s.cache[path].code)))
      else Move(s, t, Missed)
    case ReadFile(t) =>
      var path := s.threads[t].path;
      if path in s.disk then Move(s, t, Read(s.disk[path].content)) else Move(s, t, Done(Err(())))
    case Stamp(t, now) =>
      var path := s.threads[t].path;
      var code := s.threads[t].stage.code;
      if path in s.disk then Move(s, t, Stamped(code, s.disk[path].mtime))
      else Move(s, t, Stamped(code, now)).(written := s.written[(path, now) := code])
    case Insert(t) =>
      var code, modified := s.threads[t].stage.code, s.threads[t].stage.modified;
      Move(s, t, Done(Ok(code))).(cache := s.cache[s.threads[t].path := Entry(code, modified)])
    case Finish(t) => s.(threads := s.threads[t := Idle])
  }

  function After(n: nat, actions: seq<Action>): Option<State> {
    if actions == [] then Some(Start(n)) else
      match After(n, actions[..|actions| - 1])
      case None => None
      case Some(s) => if Enabled(s, actions[|actions| - 1]) then Some(Apply(s, actions[|actions| - 1])) else None
  }

  // What can be asked of the steps of a run.

  type StepRule = (State, Action) -> bool

  ghost predicate AllSteps(n: nat, actions: seq<Action>, rule: StepRule) {
    actions == [] ||
    (AllSteps(n, actions[..|actions| - 1], rule) &&
     match After(n, actions[..|actions| - 1])
     case Some(s) => rule(s, actions[|actions| - 1])
     case None => true)
  }

  /** No write falls between a content read and the time stamp read that follows it. */
  predicate Undisturbed(s: State, a: Action) {
    a.Write? ==> forall i :: 0 <= i < |s.threads| && Reading(s.threads[i]) ==> s.threads[i].path != a.path
  }

  predicate Reading(t: Thread) {
    t.Calling? && t.stage.Read?
  }

  /** A file whose time stamp is read still has the content that was read. */
  predicate RightStamp(s: State, a: Action) {
    a.Stamp? && Enabled(s, a) ==>
      var t := s.threads[a.t];
      t.path in s.disk ==> s.disk[t.path].content == t.stage.code
  }

  /** A clock reading taken for a file that is gone does not already stand for other content of it. */
  predicate FreshClock(s: State, a: Action) {
    a.Stamp? && Enabled(s, a) ==>
      var t := s.threads[a.t];
      t.path !in s.disk && (t.path, a.now) in s.written ==> s.written[(t.path, a.now)] == t.stage.code
  }

  // The invariant.

  predicate WasWritten(s: State, path: Path, mtime: nat, content: string) {
    (path, mtime) in s.written && s.written[(path, mtime)] == content
  }

  ghost predicate DiskOk(s: State) {
    forall p :: p in s.disk ==> WasWritten(s, p, s.disk[p].mtime, s.disk[p].content)
  }

  /** The stamp is taken, and while the disk shows it the disk has this content. */
  predicate Agrees(s: State, path: Path, mtime: nat, content: string) {
    && (path, mtime) in s.written
    && (path in s.disk && s.disk[path].mtime == mtime ==> s.disk[path].content == content)
  }

  ghost predicate CacheOk(s: State) {
    forall p :: p in s.cache ==> Agrees(s, p, s.cache[p].modified, s.cache[p].code)
  }

  predicate ThreadOk(s: State, t: Thread) {
    t.Calling? ==>
      && Contents(s, t.path) <= t.held
      && match t.stage
         case Begun => true
         case Missed => true
         case Read(code) => code in t.held
         case Stamped(code, modified) => code in t.held && Agrees(s, t.path, modified, code)
         case Done(Ok(code)) => code in t.held
         case Done(Err(_)) => true
  }

  ghost predicate Inv(s: State) {
    DiskOk(s) && CacheOk(s) && forall i :: 0 <= i < |s.threads| ==> ThreadOk(s, s.threads[i])
  }

  lemma StepKeepsInv(s: State, a: Action)
    requires Inv(s) && Enabled(s, a) && RightStamp(s, a)
    ensures Inv(Apply(s, a))
  {
    if a.Write? || a.Delete? {
      FileStepKeepsInv(s, a);
    } else if a.Stamp? {
      StampKeepsInv(s, a);
    } else {
      CallStepKeepsInv(s, a);
    }
  }

  lemma FileStepKeepsInv(s: State, a: Action)
    requires Inv(s) && Enabled(s, a) && (a.Write? || a.Delete?)
    ensures Inv(Apply(s, a))
  {
    var s' := Apply(s, a);
    forall i | 0 <= i < |s'.threads| ensures ThreadOk(s', s'.threads[i]) {
      assert ThreadOk(s, s.threads[i]);
    }
  }

  lemma StampKeepsInv(s: State, a: Action)
    requires Inv(s) && Enabled(s, a) && RightStamp(s, a) && a.Stamp?
    ensures Inv(Apply(s, a))
  {
    var s' := Apply(s, a);
    forall i | 0 <= i < |s'.threads| ensures ThreadOk(s', s'.threads[i]) {
      assert ThreadOk(s, s.threads[i]);
    }
  }

  lemma CallStepKeepsInv(s: State, a: Action)
    requires Inv(s) && Enabled(s, a) && !a.Write? && !a.Delete? && !a.Stamp?
    ensures Inv(Apply(s, a))
  {
    var s' := Apply(s, a);
    assert ThreadOk(s, s.threads[a.t]);
    forall i | 0 <= i < |s'.threads| ensures ThreadOk(s', s'.threads[i]) {
      assert ThreadOk(s, s.threads[i]);
    }
  }

  lemma {:induction false} RunKeepsInv(n: nat, actions: seq<Action>)
    requires After(n, actions).Some? && AllSteps(n, actions, RightStamp)
    ensures Inv(After(n, actions).value)
  {
    if actions != [] {
      RunKeepsInv(n, actions[..|actions| - 1]);
      StepKeepsInv(After(n, actions[..|actions| - 1]).value, actions[|actions| - 1]);
    }
  }

  // Which version an entry holds, when clock readings are fresh as well.

  predicate StampedWritten(s: State, t: Thread) {
    t.Calling? && t.stage.Stamped? ==> WasWritten(s, t.path, t.stage.modified, t.stage.code)
  }

  ghost predicate VersionsOk(s: State) {
    && (forall p :: p in s.cache ==> WasWritten(s, p, s.cache[p].modified, s.cache[p].code))
    && (forall i :: 0 <= i < |s.threads| ==> StampedWritten(s, s.threads[i]))
  }

  lemma StepKeepsVersions(s: State, a: Action)
    requires DiskOk(s) && VersionsOk(s) && Enabled(s, a) && RightStamp(s, a) && FreshClock(s, a)
    ensures VersionsOk(Apply(s, a))
  {
    var s' := Apply(s, a);
    assert !a.Write? && !a.Delete? ==> StampedWritten(s, s.threads[a.t]);
    forall i | 0 <= i < |s'.threads| ensures StampedWritten(s', s'.threads[i]) {
      assert StampedWritten(s, s.threads[i]);
    }
  }

  lemma {:induction false} RunKeepsVersions(n: nat, actions: seq<Action>)
    requires After(n, actions).Some? && AllSteps(n, actions, RightStamp) && AllSteps(n, actions, FreshClock)
    ensures VersionsOk(After(n, actions).value)
  {
    if actions != [] {
      RunKeepsInv(n, actions[..|actions| - 1]);
      RunKeepsVersions(n, actions[..|actions| - 1]);
      StepKeepsVersions(After(n, actions[..|actions| - 1]).value, actions[|actions| - 1]);
    }
  }

  // The results.

  /** The call is about to return code. */
  predicate Returns(t: Thread) {
    t.Calling? && t.stage.Done? && t.stage.result.Ok?
  }

  /** Every call that returns code returns a content that the file had at some instant during that call. */
  ghost predicate CallsHold(s: State) {
    forall i :: 0 <= i < |s.threads| && Returns(s.threads[i]) ==> s.threads[i].stage.result.value in s.threads[i].held
  }

  /** Under concurrent callers inserting in any order, if every stamp was right: what the cache holds is what
      is on disk when the disk shows its time stamp, every call that returns code returns a content that
      the file had during that call, and with fresh clock readings every entry holds what its time stamp
      stands for. */
  lemma CacheAgreesWithDisk(n: nat, actions: seq<Action>)
    requires After(n, actions).Some? && AllSteps(n, actions, RightStamp)
    ensures var s := After(n, actions).value;
      && (forall p :: p in s.cache && p in s.disk && s.disk[p].mtime == s.cache[p].modified ==>
            s.cache[p].code == s.disk[p].content)
      && CallsHold(s)
      && (AllSteps(n, actions, FreshClock) ==> forall p :: p in s.cache ==>
            WasWritten(s, p, s.cache[p].modified, s.cache[p].code))
  {
    RunKeepsInv(n, actions);
    InvHolds(After(n, actions).value);
    if AllSteps(n, actions, FreshClock) {
      RunKeepsVersions(n, actions);
    }
  }

  lemma InvHolds(s: State)
    requires Inv(s)
    ensures CallsHold(s)
  {
    forall i | 0 <= i < |s.threads| && Returns(s.threads[i])
      ensures s.threads[i].stage.result.value in s.threads[i].held
    {
      assert ThreadOk(s, s.threads[i]);
    }
  }

  /** A file that was read and is still there has the content that was read. */
  predicate ReadOk(s: State, t: Thread) {
    Reading(t) && t.path in s.disk ==> s.disk[t.path].content == t.stage.code
  }

  lemma {:induction false} UndisturbedReads(n: nat, actions: seq<Action>)
    requires After(n, actions).Some? && AllSteps(n, actions, Undisturbed)
    ensures var s := After(n, actions).value; forall i :: 0 <= i < |s.threads| ==> ReadOk(s, s.threads[i])
  {
    if actions != [] {
      UndisturbedReads(n, actions[..|actions| - 1]);
      var s, a := After(n, actions[..|actions| - 1]).value, actions[|actions| - 1];
      var s' := Apply(s, a);
      forall i | 0 <= i < |s'.threads| ensures ReadOk(s', s'.threads[i]) {
        assert ReadOk(s, s.threads[i]);
      }
    }
  }

  /** If no write falls between a content read and the time stamp read that follows it, every stamp is
      right. */
  lemma {:induction false} UndisturbedIsRight(n: nat, actions: seq<Action>)
    requires After(n, actions).Some? && AllSteps(n, actions, Undisturbed)
    ensures AllSteps(n, actions, RightStamp)
  {
    if actions != [] {
      var init, a := actions[..|actions| - 1], actions[|actions| - 1];
      UndisturbedIsRight(n, init);
      UndisturbedReads(n, init);
      var s := After(n, init).value;
      assert a.Stamp? ==> ReadOk(s, s.threads[a.t]);
    }
  }

  // What a wrong stamp does.

  /** These steps can follow one another from `s` to `s'`, and every stamp among them is right. */
  ghost predicate Leads(s: State, more: seq<Action>, s': State)
    decreases |more|
  {
    if more == [] then s' == s else
      Enabled(s, more[0]) && RightStamp(s, more[0]) && Leads(Apply(s, more[0]), more[1..], s')
  }

  /** Right stamps alone can lead to a call that returns code the file never had during it. */
  ghost predicate Spoilt(s: State) {
    exists more, s' :: Leads(s, more, s') && !CallsHold(s')
  }

  lemma {:induction false} LeadsKeepsInv(s: State, more: seq<Action>, s': State)
    requires Inv(s) && Leads(s, more, s')
    ensures Inv(s')
    decreases |more|
  {
    if more != [] {
      StepKeepsInv(s, more[0]);
      LeadsKeepsInv(Apply(s, more[0]), more[1..], s');
    }
  }

  /** What a stamp is worth: the caller stores what it read, calls again with no write in between, and gets
      the same; that is a content the file had during the second call exactly when, at the stamp, the file
      still had the content that was read. */
  lemma StampAgreesExactly(s: State, t: nat, now: nat) returns (s5: State)
    requires Enabled(s, Stamp(t, now)) && s.threads[t].path in s.disk
    ensures var path, code := s.threads[t].path, s.threads[t].stage.code;
      && Leads(Apply(s, Stamp(t, now)), [Insert(t), Finish(t), Call(t, path), LookUp(t)], s5)
      && t < |s5.threads| && s5.threads[t].Calling? && s5.threads[t].stage == Done(Ok(code))
      && (code in s5.threads[t].held <==> s.disk[path].content == code)
  {
    var path, code, file := s.threads[t].path, s.threads[t].stage.code, s.disk[s.threads[t].path];
    var s1 := Apply(s, Stamp(t, now));
    var s2 := Apply(s1, Insert(t));
    var s3 := Apply(s2, Finish(t));
    var s4 := Apply(s3, Call(t, path));
    assert s4.threads[t] == Calling(path, Begun, {file.content});
    assert s4.cache[path] == Entry(code, file.mtime) && s4.disk[path] == file;
    s5 := Apply(s4, LookUp(t));
    assert s5.threads[t] == Calling(path, Done(Ok(code)), {file.content});
    hide Enabled, Apply;
    LeadsOne(s4, LookUp(t), [], s5);
    LeadsOne(s3, Call(t, path), [LookUp(t)], s5);
    LeadsOne(s2, Finish(t), [Call(t, path), LookUp(t)], s5);
    LeadsOne(s1, Insert(t), [Finish(t), Call(t, path), LookUp(t)], s5);
    var a, b, c, d := Insert(t), Finish(t), Call(t, path), LookUp(t);
    assert [d] + [] == [d] && [c] + [d] == [c, d] && [b] + [c, d] == [b, c, d] && [a] + [b, c, d] == [a, b, c, d];
  }

  lemma WrongStampSpoils(s: State, a: Action)
    requires a.Stamp? && Enabled(s, a) && !RightStamp(s, a)
    ensures Spoilt(Apply(s, a))
  {
    var s5 := StampAgreesExactly(s, a.t, a.now);
    assert Returns(s5.threads[a.t]) && !CallsHold(s5);
  }

  lemma LeadsOne(s: State, a: Action, more: seq<Action>, s': State)
    requires Enabled(s, a) && RightStamp(s, a) && Leads(Apply(s, a), more, s')
    ensures Leads(s, [a] + more, s')
  {
    assert ([a] + more)[1..] == more;
  }

  ghost predicate SpoiltAt(n: nat, actions: seq<Action>, k: nat)
    requires k <= |actions|
  {
    After(n, actions[..k]).Some? && Spoilt(After(n, actions[..k]).value)
  }

  lemma InvNotSpoilt(s: State)
    requires Inv(s)
    ensures !Spoilt(s)
  {
    forall more, s' | Leads(s, more, s') ensures CallsHold(s') {
      LeadsKeepsInv(s, more, s');
      InvHolds(s');
    }
  }

  /** At no moment of the run can right stamps alone lead to a call that returns code the file never had
      during it. */
  ghost predicate NeverSpoilt(n: nat, actions: seq<Action>) {
    forall k: nat :: k <= |actions| ==> !SpoiltAt(n, actions, k)
  }

  lemma NeverSpoiltSoFar(n: nat, actions: seq<Action>)
    requires actions != [] && After(n, actions).Some?
    ensures NeverSpoilt(n, actions) <==>
      NeverSpoilt(n, actions[..|actions| - 1]) && !Spoilt(After(n, actions).value)
  {
    hide After, Spoilt;
    var init := actions[..|actions| - 1];
    assert actions[..|actions|] == actions;
    forall k: nat | k <= |init| ensures SpoiltAt(n, init, k) <==> SpoiltAt(n, actions, k) {
      assert init[..k] == actions[..k];
    }
    assert SpoiltAt(n, actions, |actions|) <==> Spoilt(After(n, actions).value);
  }

  lemma RightIsNotSpoilt(n: nat, actions: seq<Action>)
    requires After(n, actions).Some? && AllSteps(n, actions, RightStamp)
    ensures !Spoilt(After(n, actions).value)
  {
    RunKeepsInv(n, actions);
    InvNotSpoilt(After(n, actions).value);
  }

  /** The exact condition: every stamp of a run was right if and only if the run is never spoilt. */
  lemma {:induction false} StampsRightExactly(n: nat, actions: seq<Action>)
    requires After(n, actions).Some?
    ensures AllSteps(n, actions, RightStamp) <==> NeverSpoilt(n, actions)
  {
    if AllSteps(n, actions, RightStamp) {
      RightIsNotSpoilt(n, actions);
    }
    if actions == [] {
      assert actions[..0] == actions;
    } else {
      var init, a := actions[..|actions| - 1], actions[|actions| - 1];
      StampsRightExactly(n, init);
      NeverSpoiltSoFar(n, actions);
      var s := After(n, init).value;
      if !RightStamp(s, a) {
        WrongStampSpoils(s, a);
      }
      hide Spoilt, NeverSpoilt, RightStamp;
    }
  }

  /** A write between the two reads leaves old code under the new time stamp: a later call gets code that
      the file did not have at any instant during that call. */
  lemma DisturbedStampGoesStale(path: Path, was: string, is_: string)
    requires was != is_
    ensures var stale := Done(Ok(was));
      exists s :: Reachable(2, s) && s.threads == [Calling(path, stale, {was, is_}), Calling(path, stale, {is_})]
  {
    hide Reachable;
    var s5 := FileChangesWhileRead(path, was, is_);
    var s6 := Apply(s5, Stamp(0, 0));
    ReachMore(2, s5, Stamp(0, 0));
    ReachMore(2, s6, Insert(0));
    var s7 := Apply(s6, Insert(0));
    ReachMore(2, s7, Call(1, path));
    var s8 := Apply(s7, Call(1, path));
    ReachMore(2, s8, LookUp(1));
    var s9 := Apply(s8, LookUp(1));
    assert s9.threads == [Calling(path, Done(Ok(was)), {was, is_}), Calling(path, Done(Ok(was)), {is_})];
  }

  lemma FileChangesWhileRead(path: Path, was: string, is_: string) returns (s5: State)
    requires was != is_
    ensures Reachable(2, s5) && s5.cache == map[] && s5.disk == map[path := File(is_, 2)]
    ensures s5.threads == [Calling(path, Read(was), {was, is_}), Idle]
  {
    hide Reachable;
    var s0 := Start(2);
    Begins(2);
    ReachMore(2, s0, Write(path, was, 1));
    var s1 := Apply(s0, Write(path, was, 1));
    ReachMore(2, s1, Call(0, path));
    var s2 := Apply(s1, Call(0, path));
    ReachMore(2, s2, LookUp(0));
    var s3 := Apply(s2, LookUp(0));
    ReachMore(2, s3, ReadFile(0));
    var s4 := Apply(s3, ReadFile(0));
    assert s4.threads == [Calling(path, Read(was), {was}), Idle];
    ReachMore(2, s4, Write(path, is_, 2));
    s5 := Apply(s4, Write(path, is_, 2));
    assert s5.threads[0] == Calling(path, Read(was), {was, is_}) && s5.threads[1] == Idle;
    assert s5.disk[path] == File(is_, 2) && s5.disk.Keys == {path};
  }

  ghost predicate Reachable(n: nat, s: State) {
    exists actions :: After(n, actions) == Some(s)
  }

  lemma Begins(n: nat)
    ensures Reachable(n, Start(n))
  {
    assert After(n, []) == Some(Start(n));
  }

  lemma ReachMore(n: nat, s: State, a: Action)
    requires Reachable(n, s) && Enabled(s, a)
    ensures Reachable(n, Apply(s, a))
  {
    var actions :| After(n, actions) == Some(s);
    assert (actions + [a])[..|actions + [a]| - 1] == actions;
    assert After(n, actions + [a]) == Some(Apply(s, a));
  }
}
