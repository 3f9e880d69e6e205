/**
 Threads recording requests concurrently in two label-indexed metrics, each a map behind a read/write
 lock: requests_total per (hostname, status) and request_duration per hostname. One step is one lock
 operation, one look at a map, one insertion or one atomic addition; any thread may take the next step.
 */
module MetricVecs {
  import opened Wrappers
  import opened MapOrders
  import opened Ranks

  type Key = (string, string)

  datatype Call = Call(host: string, status: string, amount: nat, value: real)

  /** Where a thread is inside one labelled update. `Updating` counts the atomic additions done. */
  datatype Stage =
    | WantRead
    | Looking
    | WantWrite
    | Checking
    | Vacant
    | Updating(exclusive: bool, done: nat)

  datatype Thread = Idle | InCounter(call: Call, stage: Stage) | InHistogram(call: Call, stage: Stage)

  datatype State = State(
    bounds: seq<Bound>, threads: seq<Thread>,
    counters: map<Key, nat>, histograms: map<string, Counts>, begun: seq<Call>)

  function Start(bounds: seq<Bound>, n: nat): State {
    State(bounds, seq(n, _ => Idle), map[], map[], [])
  }

  function KeyOf(c: Call): Key {
    (c.host, c.status)
  }

  predicate Shares(s: Stage) {
    s.Looking? || (s.Updating? && !s.exclusive)
  }

  predicate Excludes(s: Stage) {
    s.Checking? || s.Vacant? || (s.Updating? && s.exclusive)
  }

  function StageOf(t: Thread, inCounter: bool): Option<Stage> {
    match t
    case Idle => None
    case InCounter(_, g) => if inCounter then Some(g) else None
    case InHistogram(_, g) => if inCounter then None else Some(g)
  }

  /** Thread `t` holds the lock of the metric, shared or exclusive. */
  predicate Holds(t: Thread, inCounter: bool) {
    var g := StageOf(t, inCounter);
    g.Some? && (Shares(g.value) || Excludes(g.value))
  }

  predicate HoldsExclusive(t: Thread, inCounter: bool) {
    var g := StageOf(t, inCounter);
    g.Some? && Excludes(g.value)
  }

  predicate CanRead(s: State, inCounter: bool) {
    forall i :: 0 <= i < |s.threads| ==> !HoldsExclusive(s.threads[i], inCounter)
  }

  predicate CanWrite(s: State, inCounter: bool) {
    forall i :: 0 <= i < |s.threads| ==> !Holds(s.threads[i], inCounter)
  }

  /** The stage after the next step on the map itself, given whether the key is present. */
  function NextStage(g: Stage, present: bool): Stage {
    match g
    case WantRead => Looking
    case Looking => if present then Updating(false, 0) else WantWrite
    case WantWrite => Checking
    case Checking => if present then Updating(true, 0) else Vacant
    case Vacant => Updating(true, 0)
    case Updating(exclusive, done) => Updating(exclusive, done + 1)
  }

  datatype Action = Begin(t: nat, call: Call) | Step(t: nat)

  predicate Enabled(s: State, a: Action) {
    a.t < |s.threads| &&
    match a
    case Begin(t, _) => s.threads[t].Idle?
    case Step(t) =>
      match s.threads[t]
      case Idle => false
      case InCounter(_, g) => (g.WantRead? ==> CanRead(s, true)) && (g.WantWrite? ==> CanWrite(s, true))
      case InHistogram(_, g) => (g.WantRead? ==> CanRead(s, false)) && (g.WantWrite? ==> CanWrite(s, false))
  }

  function StepCounter(s: State, t: nat, c: Call, g: Stage): State
    requires t < |s.threads|
  {
    var k := KeyOf(c);
    if g.Updating? && g.done == 1 then
      s.(threads := s.threads[t := InHistogram(c, WantRead)])
    else
      var counters :=
        if g.Vacant? then s.counters[k := 0]
        else if g.Updating? && k in s.counters then s.counters[k := AddU64(s.counters[k], c.amount)]
        else s.counters;
      s.(counters := counters, threads := s.threads[t := InCounter(c, NextStage(g, k in s.counters))])
  }

  function StepHistogram(s: State, t: nat, c: Call, g: Stage): State
    requires t < |s.threads|
  {
    if g.Updating? && g.done == 3 then
      s.(threads := s.threads[t := Idle])
    else
      var histograms :=
        if g.Vacant? then s.histograms[c.host := Counts(seq(|s.bounds|, _ => 0), 0, 0)]
        else if g.Updating? && c.host in s.histograms then
          s.histograms[c.host := Observe(s.histograms[c.host], s.bounds, c.value, g.done)]
        else s.histograms;
      s.(histograms := histograms, threads := s.threads[t := InHistogram(c, NextStage(g, c.host in s.histograms))])
  }

  function Apply(s: State, a: Action): State
    requires Enabled(s, a)
  {
    match a
    case Begin(t, c) => s.(threads := s.threads[t := InCounter(c, WantRead)], begun := s.begun + [c])
    case Step(t) =>
      match s.threads[t]
      case InCounter(c, g) => StepCounter(s, t, c, g)
      case InHistogram(c, g) => StepHistogram(s, t, c, g)
  }

  function After(bounds: seq<Bound>, n: nat, actions: seq<Action>): Option<State> {
    if actions == [] then Some(Start(bounds, n)) else
      match After(bounds, n, actions[..|actions| - 1])
      case None => None
      case Some(s) =>
        var a := actions[|actions| - 1];
        if Enabled(s, a) then Some(Apply(s, a)) else None
  }

  // Locking.

  /** A thread past the look-up finds its entry. */
  predicate EntryKnown(s: State, t: Thread) {
    match t
    case Idle => true
    case InCounter(c, g) =>
      && (g.Updating? ==> KeyOf(c) in s.counters && g.done <= 1)
      && (g.Vacant? ==> KeyOf(c) !in s.counters)
    case InHistogram(c, g) =>
      && (g.Updating? ==> c.host in s.histograms && g.done <= 3)
      && (g.Vacant? ==> c.host !in s.histograms)
  }

  ghost predicate Exclusion(s: State, inCounter: bool) {
    forall i, j :: 0 <= i < |s.threads| && 0 <= j < |s.threads| && i != j ==>
      HoldsExclusive(s.threads[i], inCounter) ==> !Holds(s.threads[j], inCounter)
  }

  ghost predicate LockInv(s: State) {
    && Exclusion(s, true)
    && Exclusion(s, false)
    && (forall i :: 0 <= i < |s.threads| ==> EntryKnown(s, s.threads[i]))
    && (forall h :: h in s.histograms ==> |s.histograms[h].buckets| == |s.bounds|)
  }

  lemma ExclusionStep(s: State, a: Action, inCounter: bool)
    requires Exclusion(s, inCounter) && Enabled(s, a)
    ensures Exclusion(Apply(s, a), inCounter)
  {
    var s' := Apply(s, a);
    assert forall i :: 0 <= i < |s.threads| && i != a.t ==> s'.threads[i] == s.threads[i];
    var old_, new_ := s.threads[a.t], s'.threads[a.t];
    if Holds(new_, inCounter) && !Holds(old_, inCounter) {
      assert HoldsExclusive(new_, inCounter) ==> CanWrite(s, inCounter);
      assert !HoldsExclusive(new_, inCounter) ==> CanRead(s, inCounter);
    }
    assert HoldsExclusive(new_, inCounter) && Holds(old_, inCounter) ==> HoldsExclusive(old_, inCounter);
  }

  lemma EntriesStep(s: State, a: Action)
    requires LockInv(s) && Enabled(s, a)
    ensures var s' := Apply(s, a);
      && (forall i :: 0 <= i < |s'.threads| ==> EntryKnown(s', s'.threads[i]))
      && (forall h :: h in s'.histograms ==> |s'.histograms[h].buckets| == |s'.bounds|)
  {
    var s' := Apply(s, a);
    forall i | 0 <= i < |s'.threads| ensures EntryKnown(s', s'.threads[i]) {
      assert EntryKnown(s, s.threads[i]) && EntryKnown(s, s.threads[a.t]);
      if i != a.t {
        assert s'.threads[i] == s.threads[i];
        assert HoldsExclusive(s.threads[i], true) ==> !Holds(s.threads[a.t], true);
        assert HoldsExclusive(s.threads[i], false) ==> !Holds(s.threads[a.t], false);
      }
    }
  }

  // Conservation: what is stored and what is still owed adds up to what was begun.

  datatype Quantity = CounterOf(key: Key) | BucketOf(host: string, i: nat) | SumOf(host: string) | CountOf(host: string)

  function Due(c: Call, bounds: seq<Bound>, q: Quantity): nat {
    match q
    case CounterOf(k) => if KeyOf(c) == k then c.amount else 0
    case BucketOf(h, i) => if c.host == h && i < |bounds| && FirstBucket(bounds, c.value) == i then 1 else 0
    case SumOf(h) => if c.host == h then Scaled(c.value) else 0
    case CountOf(h) => if c.host == h then 1 else 0
  }

  function TotalDue(calls: seq<Call>, bounds: seq<Bound>, q: Quantity): nat {
    if calls == [] then 0 else TotalDue(calls[..|calls| - 1], bounds, q) + Due(calls[|calls| - 1], bounds, q)
  }

  function Stored(s: State, q: Quantity): nat {
    match q
    case CounterOf(k) => if k in s.counters then s.counters[k] else 0
    case _ => if q.host in s.histograms then Field(s.histograms[q.host], q) else 0
  }

  function Field(h: Counts, q: Quantity): nat
    requires !q.CounterOf?
  {
    match q
    case BucketOf(_, i) => if i < |h.buckets| then h.buckets[i] else 0
    case SumOf(_) => h.sum
    case CountOf(_) => h.count
  }

  /** The atomic addition, counted from 0, that brings a quantity up to date. */
  function Turn(q: Quantity): nat {
    match q
    case CounterOf(_) => 0
    case BucketOf(_, _) => 0
    case SumOf(_) => 1
    case CountOf(_) => 2
  }

  function Owed(t: Thread, bounds: seq<Bound>, q: Quantity): nat {
    match t
    case Idle => 0
    case InCounter(c, g) => if q.CounterOf? && g.Updating? && g.done > 0 then 0 else Due(c, bounds, q)
    case InHistogram(c, g) =>
      if q.CounterOf? || (g.Updating? && g.done > Turn(q)) then 0 else Due(c, bounds, q)
  }

  function TotalOwed(ts: seq<Thread>, bounds: seq<Bound>, q: Quantity): nat {
    if ts == [] then 0 else TotalOwed(ts[..|ts| - 1], bounds, q) + Owed(ts[|ts| - 1], bounds, q)
  }

  lemma {:induction false} OwedUpdate(ts: seq<Thread>, i: nat, t: Thread, bounds: seq<Bound>, q: Quantity)
    requires i < |ts|
    ensures TotalOwed(ts[i := t], bounds, q) + Owed(ts[i], bounds, q) == TotalOwed(ts, bounds, q) + Owed(t, bounds, q)
  {
    if i == |ts| - 1 {
      assert ts[i := t][..|ts| - 1] == ts[..|ts| - 1];
    } else {
      OwedUpdate(ts[..|ts| - 1], i, t, bounds, q);
      assert ts[i := t][..|ts| - 1] == ts[..|ts| - 1][i := t];
    }
  }

  /** Stored and owed make up what was begun. */
  predicate ConservedAt(s: State, q: Quantity) {
    && Stored(s, q) < U64_SIZE
    && Congruent(Stored(s, q) + TotalOwed(s.threads, s.bounds, q), TotalDue(s.begun, s.bounds, q))
  }

  /** The same modulo 2^64. */
  predicate Congruent(a: nat, b: nat) {
    a % U64_SIZE == b % U64_SIZE
  }

  /** From `s` to `s'` thread `t` moves what it owed into what is stored; the others do nothing. */
  predicate Settles(s: State, s': State, t: nat, q: Quantity) {
    && t < |s.threads| == |s'.threads|
    && s'.threads == s.threads[t := s'.threads[t]]
    && s'.bounds == s.bounds && s'.begun == s.begun
    && var paid := Owed(s.threads[t], s.bounds, q) - Owed(s'.threads[t], s.bounds, q);
    && paid >= 0
    && Stored(s', q) == AddU64(Stored(s, q), paid)
  }

  lemma CounterSettles(s: State, t: nat, c: Call, g: Stage, q: Quantity)
    requires t < |s.threads| && s.threads[t] == InCounter(c, g) && EntryKnown(s, s.threads[t])
    requires Stored(s, q) < U64_SIZE
    ensures Settles(s, StepCounter(s, t, c, g), t, q)
  {
  }

  lemma ObserveField(h: Counts, bounds: seq<Bound>, c: Call, step: nat, q: Quantity)
    requires !q.CounterOf? && q.host == c.host && |h.buckets| == |bounds| && step < 3
    requires Field(h, q) < U64_SIZE
    ensures Field(Observe(h, bounds, c.value, step), q) ==
            AddU64(Field(h, q), if step == Turn(q) then Due(c, bounds, q) else 0)
  {
  }

  lemma NewField(n: nat, q: Quantity)
    requires !q.CounterOf?
    ensures Field(Counts(seq(n, _ => 0), 0, 0), q) == 0
  {
  }

  lemma HistogramSettles(s: State, t: nat, c: Call, g: Stage, q: Quantity)
    requires t < |s.threads| && s.threads[t] == InHistogram(c, g) && EntryKnown(s, s.threads[t])
    requires c.host in s.histograms ==> |s.histograms[c.host].buckets| == |s.bounds|
    requires Stored(s, q) < U64_SIZE
    ensures Settles(s, StepHistogram(s, t, c, g), t, q)
  {
    if !q.CounterOf? {
      NewField(|s.bounds|, q);
      if g.Updating? && g.done < 3 && q.host == c.host {
        ObserveField(s.histograms[c.host], s.bounds, c, g.done, q);
      }
    }
    hide Field, Observe, Due;
  }

  lemma StepSettles(s: State, t: nat, q: Quantity)
    requires LockInv(s) && Enabled(s, Step(t)) && Stored(s, q) < U64_SIZE
    ensures Settles(s, Apply(s, Step(t)), t, q)
  {
    assert EntryKnown(s, s.threads[t]);
    hide Settles, StepCounter, StepHistogram, EntryKnown, Stored;
    match s.threads[t]
    case InCounter(c, g) => CounterSettles(s, t, c, g, q);
    case InHistogram(c, g) => HistogramSettles(s, t, c, g, q);
  }

  lemma SettleMod(stored: nat, stored': nat, paid: nat, owed: nat, owed': nat, due: nat)
    requires stored' == AddU64(stored, paid) && owed == owed' + paid
    requires Congruent(stored + owed, due)
    ensures stored' < U64_SIZE && Congruent(stored' + owed', due)
  {
  }

  lemma SumMod(a: nat, b: nat, d: nat)
    requires Congruent(a, b)
    ensures Congruent(a + d, b + d)
  {
  }

  lemma BeginConserves(s: State, t: nat, c: Call, q: Quantity)
    requires ConservedAt(s, q) && Enabled(s, Begin(t, c))
    ensures ConservedAt(Apply(s, Begin(t, c)), q)
  {
    var s' := Apply(s, Begin(t, c));
    OwedUpdate(s.threads, t, InCounter(c, WantRead), s.bounds, q);
    assert s'.begun[..|s'.begun| - 1] == s.begun;
    hide Due, Congruent;
    SumMod(Stored(s, q) + TotalOwed(s.threads, s.bounds, q), TotalDue(s.begun, s.bounds, q), Due(c, s.bounds, q));
  }

  lemma SettlingConserves(s: State, s': State, t: nat, q: Quantity)
    requires ConservedAt(s, q) && Settles(s, s', t, q)
    ensures ConservedAt(s', q)
  {
    hide Stored, Owed, TotalOwed, TotalDue, AddU64, Congruent;
    OwedUpdate(s.threads, t, s'.threads[t], s.bounds, q);
    var paid := Owed(s.threads[t], s.bounds, q) - Owed(s'.threads[t], s.bounds, q);
    SettleMod(Stored(s, q), Stored(s', q), paid, TotalOwed(s.threads, s.bounds, q), TotalOwed(s'.threads, s.bounds, q),
              TotalDue(s.begun, s.bounds, q));
  }

  lemma {:induction false} NothingOwed(ts: seq<Thread>, bounds: seq<Bound>, q: Quantity)
    requires forall i :: 0 <= i < |ts| ==> ts[i].Idle?
    ensures TotalOwed(ts, bounds, q) == 0
  {
    if ts != [] {
      NothingOwed(ts[..|ts| - 1], bounds, q);
    }
  }

  lemma {:induction false} RunLocks(bounds: seq<Bound>, n: nat, actions: seq<Action>)
    requires After(bounds, n, actions).Some?
    ensures LockInv(After(bounds, n, actions).value)
  {
    if actions != [] {
      var a := actions[|actions| - 1];
      RunLocks(bounds, n, actions[..|actions| - 1]);
      var s := After(bounds, n, actions[..|actions| - 1]).value;
      ExclusionStep(s, a, true);
      ExclusionStep(s, a, false);
      EntriesStep(s, a);
    }
  }

  lemma {:induction false} RunConserves(bounds: seq<Bound>, n: nat, actions: seq<Action>, q: Quantity)
    requires After(bounds, n, actions).Some?
    ensures ConservedAt(After(bounds, n, actions).value, q)
  {
    if actions == [] {
      NothingOwed(Start(bounds, n).threads, bounds, q);
    } else {
      RunConserves(bounds, n, actions[..|actions| - 1], q);
      RunLocks(bounds, n, actions[..|actions| - 1]);
      var s := After(bounds, n, actions[..|actions| - 1]).value;
      match actions[|actions| - 1]
      case Begin(t, c) => BeginConserves(s, t, c, q);
      case Step(t) =>
        StepSettles(s, t, q);
        hide LockInv, Enabled, Apply, Settles, Stored, TotalOwed, TotalDue, Congruent;
        SettlingConserves(s, Apply(s, Step(t)), t, q);
    }
  }

  // The results.

  predicate Quiescent(s: State) {
    forall i :: 0 <= i < |s.threads| ==> s.threads[i].Idle?
  }

  /** The locks never block for good: unless all threads are idle, some thread can take its next step. */
  lemma NeverDeadlocked(bounds: seq<Bound>, n: nat, actions: seq<Action>)
    requires After(bounds, n, actions).Some? && !Quiescent(After(bounds, n, actions).value)
    ensures exists t :: Enabled(After(bounds, n, actions).value, Step(t))
  {
    var s := After(bounds, n, actions).value;
    if t :| 0 <= t < |s.threads| && (Holds(s.threads[t], true) || Holds(s.threads[t], false)) {
      assert Enabled(s, Step(t));
    } else {
      var t :| 0 <= t < |s.threads| && !s.threads[t].Idle?;
      assert CanRead(s, true) && CanWrite(s, true) && CanRead(s, false) && CanWrite(s, false);
      assert Enabled(s, Step(t));
    }
  }

  /** No update is lost under any interleaving: once every call has returned, each counter equals the sum
      of the increments made under its key, and every bucket, sum and count of a histogram equals the
      total of the observations made for its host, modulo 2^64. */
  lemma NoLostUpdate(bounds: seq<Bound>, n: nat, actions: seq<Action>, q: Quantity)
    requires After(bounds, n, actions).Some? && Quiescent(After(bounds, n, actions).value)
    ensures var s := After(bounds, n, actions).value;
      Stored(s, q) == TotalDue(s.begun, s.bounds, q) % 0x1_0000_0000_0000_0000
  {
    var s := After(bounds, n, actions).value;
    RunConserves(bounds, n, actions, q);
    NothingOwed(s.threads, s.bounds, q);
  }

  /** The sum of the counters of one host over a list of statuses. */
  function HostTotal(s: State, host: string, statuses: seq<string>): nat {
    if statuses == [] then 0 else
      HostTotal(s, host, statuses[..|statuses| - 1]) + Stored(s, CounterOf((host, statuses[|statuses| - 1])))
  }

  function HostDue(calls: seq<Call>, bounds: seq<Bound>, host: string, statuses: seq<string>): nat {
    if statuses == [] then 0 else
      HostDue(calls, bounds, host, statuses[..|statuses| - 1]) +
      TotalDue(calls, bounds, CounterOf((host, statuses[|statuses| - 1])))
  }

  lemma {:induction false} HostDueSnoc(
    calls: seq<Call>, c: Call, bounds: seq<Bound>, host: string, statuses: seq<string>)
    requires NoDuplicates(statuses) && c.amount == 1
    ensures HostDue(calls + [c], bounds, host, statuses) ==
            HostDue(calls, bounds, host, statuses) + if c.host == host && c.status in statuses then 1 else 0
  {
    if statuses != [] {
      var init, last := statuses[..|statuses| - 1], statuses[|statuses| - 1];
      HostDueSnoc(calls, c, bounds, host, init);
      assert (calls + [c])[..|calls + [c]| - 1] == calls;
      assert statuses == init + [last];
      assert last !in init;
    }
  }

  lemma {:induction false} HostDueEmpty(bounds: seq<Bound>, host: string, statuses: seq<string>)
    ensures HostDue([], bounds, host, statuses) == 0
  {
    if statuses != [] {
      HostDueEmpty(bounds, host, statuses[..|statuses| - 1]);
    }
  }

  lemma {:induction false} HostDueIsCount(calls: seq<Call>, bounds: seq<Bound>, host: string, statuses: seq<string>)
    requires NoDuplicates(statuses)
    requires forall i :: 0 <= i < |calls| ==>
      calls[i].amount == 1 && (calls[i].host == host ==> calls[i].status in statuses)
    ensures HostDue(calls, bounds, host, statuses) == TotalDue(calls, bounds, CountOf(host))
  {
    if calls == [] {
      HostDueEmpty(bounds, host, statuses);
    } else {
      var init, last := calls[..|calls| - 1], calls[|calls| - 1];
      assert calls == init + [last];
      HostDueIsCount(init, bounds, host, statuses);
      HostDueSnoc(init, last, bounds, host, statuses);
    }
  }

  lemma {:induction false} HostTotalIsDue(s: State, host: string, statuses: seq<string>)
    requires forall q :: Stored(s, q) == TotalDue(s.begun, s.bounds, q) % U64_SIZE
    ensures HostTotal(s, host, statuses) % U64_SIZE == HostDue(s.begun, s.bounds, host, statuses) % U64_SIZE
  {
    if statuses != [] {
      var init, q := statuses[..|statuses| - 1], CounterOf((host, statuses[|statuses| - 1]));
      HostTotalIsDue(s, host, init);
      hide Stored, TotalDue;
      assert Stored(s, q) == TotalDue(s.begun, s.bounds, q) % U64_SIZE;
      AddMods(HostTotal(s, host, init), HostDue(s.begun, s.bounds, host, init), TotalDue(s.begun, s.bounds, q));
    }
  }

  lemma AddMods(a: nat, b: nat, d: nat)
    requires a % U64_SIZE == b % U64_SIZE
    ensures (a + d % U64_SIZE) % U64_SIZE == (b + d) % U64_SIZE
  {
  }

  /** When all threads have finished recording requests, the requests_total counters of a hostname, summed
      over the statuses seen for it, equal the count of its duration histogram (modulo 2^64). */
  lemma RequestsMatchDurations(bounds: seq<Bound>, n: nat, actions: seq<Action>, host: string, statuses: seq<string>)
    requires After(bounds, n, actions).Some? && Quiescent(After(bounds, n, actions).value)
    requires var s := After(bounds, n, actions).value;
      && (forall i :: 0 <= i < |s.begun| ==> s.begun[i].amount == 1)
      && (forall status :: status in statuses <==> (host, status) in s.counters)
    requires NoDuplicates(statuses)
    ensures var s := After(bounds, n, actions).value;
      HostTotal(s, host, statuses) % U64_SIZE == Stored(s, CountOf(host))
  {
    var s := After(bounds, n, actions).value;
    forall q ensures Stored(s, q) == TotalDue(s.begun, s.bounds, q) % U64_SIZE {
      NoLostUpdate(bounds, n, actions, q);
    }
    RunEntries(bounds, n, actions);
    HostTotalIsDue(s, host, statuses);
    HostDueIsCount(s.begun, s.bounds, host, statuses);
  }

  // Every call that got past its look-up has an entry.

  predicate BeforeEntry(t: Thread, k: Key) {
    t.InCounter? && KeyOf(t.call) == k && !t.stage.Updating?
  }

  ghost predicate Entered(s: State, k: Key) {
    k in s.counters || exists i :: 0 <= i < |s.threads| && BeforeEntry(s.threads[i], k)
  }

  lemma EnteredStep(s: State, a: Action, k: Key)
    requires LockInv(s) && Enabled(s, a)
    ensures Entered(s, k) ==> Entered(Apply(s, a), k)
    ensures a.Begin? ==> Entered(Apply(s, a), KeyOf(a.call))
  {
    var s' := Apply(s, a);
    assert EntryKnown(s, s.threads[a.t]);
    if a.Begin? {
      assert BeforeEntry(s'.threads[a.t], KeyOf(a.call));
    }
    if Entered(s, k) && k !in s.counters {
      var i :| 0 <= i < |s.threads| && BeforeEntry(s.threads[i], k);
      if i != a.t {
        assert s'.threads[i] == s.threads[i];
      } else if k !in s'.counters {
        assert BeforeEntry(s'.threads[i], k);
      }
    }
  }

  lemma {:induction false} RunEntered(bounds: seq<Bound>, n: nat, actions: seq<Action>)
    requires After(bounds, n, actions).Some?
    ensures var s := After(bounds, n, actions).value;
      forall i :: 0 <= i < |s.begun| ==> Entered(s, KeyOf(s.begun[i]))
  {
    if actions != [] {
      var a := actions[|actions| - 1];
      RunEntered(bounds, n, actions[..|actions| - 1]);
      RunLocks(bounds, n, actions[..|actions| - 1]);
      var s := After(bounds, n, actions[..|actions| - 1]).value;
      forall i | 0 <= i < |Apply(s, a).begun| ensures Entered(Apply(s, a), KeyOf(Apply(s, a).begun[i])) {
        EnteredStep(s, a, KeyOf(Apply(s, a).begun[i]));
      }
    }
  }

  lemma RunEntries(bounds: seq<Bound>, n: nat, actions: seq<Action>)
    requires After(bounds, n, actions).Some? && Quiescent(After(bounds, n, actions).value)
    ensures var s := After(bounds, n, actions).value;
      forall i :: 0 <= i < |s.begun| ==> KeyOf(s.begun[i]) in s.counters
  {
    RunEntered(bounds, n, actions);
  }
}
