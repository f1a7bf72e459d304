/** Any number of clients updating one key of a revisioned key-value store: the check-and-create prologue and
    the compare-and-swap loop (UpdateObj and updateKV in common/natsutil.go). */
module UpdateKV {
  import opened Model

  /** Where a client is: about to look whether the key exists, about to create it, about to read it, about to
      write back what it made of the value it read, or through. */
  datatype Client<V> =
    | Checking
    | Creating
    | Reading
    | Writing(rev: nat, read: V, updated: V)
    | Done
    | Failed

  /** `create` is what each client stores when the key is missing, `update` what it makes of a stored value; None stands
      for an update function that fails. `absent` tells the values that are stored as no bytes at all: a client that
      finds one takes the key for missing. */
  datatype Config<!V> = Config(create: map<nat, V>, update: map<nat, V -> Option<V>>, absent: V -> bool) {
    predicate Valid() {
      create.Keys == update.Keys
    }
  }

  /** The store with its last revision number, the clients, and the history: the value and revision last created
      or found, the clients whose updates were written since, those whose updates were overwritten by a create, and
      how often each client has had to start over. */
  datatype State<V> = State(
    store: Option<V>,
    rev: nat,
    clients: map<nat, Client<V>>,
    base: Option<V>,
    baseRev: nat,
    log: seq<nat>,
    lost: seq<nat>,
    retries: map<nat, nat>)

  function Apply<V>(cfg: Config<V>, c: nat, v: Option<V>): Option<V> {
    if v.Some? && c in cfg.update then cfg.update[c](v.value) else None
  }

  /** The update functions of the clients listed, applied one after another. */
  function Fold<V>(cfg: Config<V>, v: Option<V>, log: seq<nat>): Option<V> {
    if log == [] then v else Apply(cfg, log[|log| - 1], Fold(cfg, v, log[..|log| - 1]))
  }

  /** The values that come about one after another: each is what the update function of the next client listed makes of
      the one before. */
  ghost predicate Chained<V>(cfg: Config<V>, v: V, log: seq<nat>, values: seq<V>) {
    && |values| == |log| + 1 && values[0] == v
    && forall i | 0 <= i < |log| :: log[i] in cfg.update && cfg.update[log[i]](values[i]) == Some(values[i + 1])
  }

  lemma {:induction false} FoldIsChain<V>(cfg: Config<V>, v: V, log: seq<nat>) returns (values: seq<V>)
    requires Fold(cfg, Some(v), log).Some?
    ensures Chained(cfg, v, log, values) && Fold(cfg, Some(v), log) == Some(values[|log|])
  {
    if log == [] {
      values := [v];
    } else {
      var n := |log| - 1;
      var before := FoldIsChain(cfg, v, log[..n]);
      values := before + [Fold(cfg, Some(v), log).value];
      assert log[..n][..n] == log[..n];
      forall i | 0 <= i < |log|
        ensures log[i] in cfg.update && cfg.update[log[i]](values[i]) == Some(values[i + 1])
      {
        assert i < n ==> log[..n][i] == log[i];
      }
    }
  }

  predicate Missing<V>(cfg: Config<V>, v: Option<V>) {
    v.None? || cfg.absent(v.value)
  }

  ghost predicate Init<V>(cfg: Config<V>, s: State<V>) {
    && cfg.Valid() && s.clients.Keys == s.retries.Keys == cfg.update.Keys
    && (forall c | c in s.clients :: s.clients[c] == Checking && s.retries[c] == 0)
    && s.base == s.store && s.baseRev == s.rev && s.log == [] && s.lost == []
  }

  datatype Step = Check | Create | Read | Write | Conflict | GiveUp

  function Become<V>(s: State<V>, c: nat, client: Client<V>): State<V> {
    s.(clients := s.clients[c := client])
  }

  ghost predicate NextBy<V>(cfg: Config<V>, s: State<V>, t: State<V>, c: nat, step: Step) {
    && cfg.Valid() && c in s.clients && c in cfg.update && c in s.retries
    && match step
       case Check =>
         s.clients[c].Checking? && t == Become(s, c, if Missing(cfg, s.store) then Creating else Reading)
       case Create =>
         // an unconditional put: whatever was written since is overwritten
         && s.clients[c].Creating?
         && t == Become(s, c, Reading).(store := Some(cfg.create[c]), rev := s.rev + 1, base := Some(cfg.create[c]),
                                        baseRev := s.rev + 1, log := [], lost := s.lost + s.log)
       case Read =>
         && s.clients[c].Reading?
         && t == Become(s, c, match Apply(cfg, c, s.store)
                              case None => Failed
                              case Some(v) => Writing(s.rev, s.store.value, v))
       case Write =>
         && s.clients[c].Writing? && s.clients[c].rev == s.rev
         && t == Become(s, c, Done).(store := Some(s.clients[c].updated), rev := s.rev + 1, log := s.log + [c])
       case Conflict =>
         && s.clients[c].Writing? && s.clients[c].rev != s.rev
         && t == Become(s, c, Reading).(retries := s.retries[c := s.retries[c] + 1])
       case GiveUp =>
         // the store or the network fails: nothing is written
         && !s.clients[c].Done? && !s.clients[c].Failed? && t == Become(s, c, Failed)
  }

  ghost predicate Next<V>(cfg: Config<V>, s: State<V>, t: State<V>) {
    exists c, step :: NextBy(cfg, s, t, c, step)
  }

  ghost predicate Run<V>(cfg: Config<V>, run: seq<State<V>>) {
    run != [] && Init(cfg, run[0]) && forall i | 0 <= i < |run| - 1 :: Next(cfg, run[i], run[i + 1])
  }

  predicate NoRepeats(log: seq<nat>) {
    forall i, j | 0 <= i < j < |log| :: log[i] != log[j]
  }

  // ---- What every step keeps ----

  /** The clients whose updates were written, oldest first. */
  function Committed<V>(s: State<V>): seq<nat> {
    s.lost + s.log
  }

  /** The stored value is what the updates written since the last create make of it, one per revision. */
  ghost predicate StoreFolded<V>(cfg: Config<V>, s: State<V>) {
    s.rev == s.baseRev + |s.log| && s.store == Fold(cfg, s.base, s.log) && (s.base.None? <==> s.store.None?)
  }

  /** A client has written its update exactly once if it has succeeded, and never otherwise. */
  predicate CommittedOnce<V>(s: State<V>) {
    && NoRepeats(Committed(s))
    && (forall c | c in s.clients :: c in Committed(s) <==> s.clients[c].Done?)
    && (forall c | c in Committed(s) :: c in s.clients)
  }

  /** What a client is about to write is its update of the value it read; no write has happened since if the
      revision is still the same. */
  ghost predicate WritersFair<V>(cfg: Config<V>, s: State<V>) {
    forall c | c in s.clients && s.clients[c].Writing? ::
      && s.clients[c].rev <= s.rev
      && Apply(cfg, c, Some(s.clients[c].read)) == Some(s.clients[c].updated)
      && (s.clients[c].rev == s.rev ==> s.store == Some(s.clients[c].read))
  }

  ghost predicate Consistent<V>(cfg: Config<V>, s: State<V>) {
    && cfg.Valid() && s.clients.Keys == s.retries.Keys == cfg.update.Keys
    && StoreFolded(cfg, s) && CommittedOnce(s) && WritersFair(cfg, s)
  }

  lemma InitConsistent<V>(cfg: Config<V>, s: State<V>)
    requires Init(cfg, s)
    ensures Consistent(cfg, s)
  {
  }

  lemma StepConsistent<V>(cfg: Config<V>, s: State<V>, t: State<V>, c: nat, step: Step)
    requires Consistent(cfg, s) && NextBy(cfg, s, t, c, step)
    ensures Consistent(cfg, t)
  {
    hide StoreFolded, CommittedOnce, WritersFair, Apply;
    StoreFoldedStep(cfg, s, t, c, step);
    CommittedOnceStep(cfg, s, t, c, step);
    WritersFairStep(cfg, s, t, c, step);
  }

  lemma StoreFoldedStep<V>(cfg: Config<V>, s: State<V>, t: State<V>, c: nat, step: Step)
    requires StoreFolded(cfg, s) && WritersFair(cfg, s) && NextBy(cfg, s, t, c, step)
    ensures StoreFolded(cfg, t)
  {
    if step.Write? {
      assert t.log[..|s.log|] == s.log;
    }
  }

  lemma CommittedOnceStep<V>(cfg: Config<V>, s: State<V>, t: State<V>, c: nat, step: Step)
    requires CommittedOnce(s) && NextBy(cfg, s, t, c, step)
    ensures CommittedOnce(t)
  {
    hide Apply;
    if step.Write? {
      assert Committed(t) == Committed(s) + [c];
      hide Committed;
    } else {
      assert Committed(t) == Committed(s);
      hide Committed, NoRepeats;
    }
  }

  lemma WritersFairStep<V>(cfg: Config<V>, s: State<V>, t: State<V>, c: nat, step: Step)
    requires WritersFair(cfg, s) && NextBy(cfg, s, t, c, step)
    ensures WritersFair(cfg, t)
  {
    assert forall k | k in s.clients && k != c :: t.clients[k] == s.clients[k];
  }

  // ---- A key that exists ----

  /** Commits of clients other than c. */
  function OthersIn<V>(s: State<V>, c: nat): int {
    |s.log| - (if c in s.log then 1 else 0)
  }

  /** Every time this client had to start over another client's update was written first. */
  predicate Paid<V>(s: State<V>, c: nat)
    requires c in s.clients && c in s.retries
  {
    && !s.clients[c].Creating?
    && s.retries[c] <= OthersIn(s, c)
    && (s.clients[c].Writing? ==> s.baseRev <= s.clients[c].rev && s.retries[c] <= s.clients[c].rev - s.baseRev)
  }

  /** The key keeps existing and nothing is overwritten. */
  ghost predicate Kept<V>(s: State<V>, value: V) {
    && s.base == Some(value) && s.store.Some? && s.lost == [] && s.clients.Keys == s.retries.Keys
    && forall c | c in s.clients :: Paid(s, c)
  }

  lemma PaidByOthers<V>(cfg: Config<V>, s: State<V>, t: State<V>, c: nat, step: Step, k: nat)
    requires NextBy(cfg, s, t, c, step) && !s.clients[c].Creating? && k in s.clients && k in s.retries && k != c
    requires Paid(s, k)
    ensures k in t.clients && k in t.retries && Paid(t, k)
  {
    hide Apply;
    assert forall x :: x in s.log + [c] <==> x in s.log || x == c;
  }

  lemma PaidBySelf<V>(cfg: Config<V>, s: State<V>, t: State<V>, c: nat, step: Step)
    requires NextBy(cfg, s, t, c, step) && !Missing(cfg, s.store) && Paid(s, c) && c !in s.log
    requires s.rev == s.baseRev + |s.log|
    requires s.clients[c].Writing? ==> s.clients[c].rev <= s.rev
    ensures c in t.clients && c in t.retries && Paid(t, c)
  {
    hide Apply;
    assert c in s.log + [c];
  }

  /** Whichever updates are written, in whatever order, the value is not stored as no bytes while a client is still to
      look for it. */
  ghost predicate Safe<V>(cfg: Config<V>, value: V, ids: set<nat>) {
    forall log | NoRepeats(log) && (forall k | k in log :: k in ids) && |log| < |ids| ::
      !Missing(cfg, Fold(cfg, Some(value), log))
  }

  lemma KeptStep<V>(cfg: Config<V>, s: State<V>, t: State<V>, c: nat, step: Step, value: V)
    requires Consistent(cfg, s) && Kept(s, value) && Safe(cfg, value, s.clients.Keys) && NextBy(cfg, s, t, c, step)
    ensures Kept(t, value) && t.clients.Keys == s.clients.Keys
  {
    hide Apply, Paid, Consistent, Safe, Missing;
    StepFacts(cfg, s, t, c, step, value);
    forall k | k in t.clients
      ensures k in t.retries && Paid(t, k)
    {
      if k == c {
        PaidBySelf(cfg, s, t, c, step);
      } else {
        PaidByOthers(cfg, s, t, c, step, k);
      }
    }
  }

  lemma StepFacts<V>(cfg: Config<V>, s: State<V>, t: State<V>, c: nat, step: Step, value: V)
    requires Consistent(cfg, s) && Kept(s, value) && Safe(cfg, value, s.clients.Keys) && NextBy(cfg, s, t, c, step)
    ensures !s.clients[c].Creating? && !Missing(cfg, s.store) && c !in s.log && s.rev == s.baseRev + |s.log|
    ensures s.clients[c].Writing? ==> s.clients[c].rev <= s.rev
  {
    hide Apply, Paid, NoRepeats, Fold, Safe, Missing, WritersFair, Kept;
    CreatesNothing(s, c, value);
    NotDone(cfg, s, t, c, step);
    NotMissing(cfg, s, c, value);
    WriterBehind(cfg, s, c);
    NothingLostYet(s, value);
    assert Committed(s) == s.log;
  }

  lemma NotDone<V>(cfg: Config<V>, s: State<V>, t: State<V>, c: nat, step: Step)
    requires NextBy(cfg, s, t, c, step)
    ensures !s.clients[c].Done?
  {
    hide Apply, Missing;
  }

  lemma NothingLostYet<V>(s: State<V>, value: V)
    requires Kept(s, value)
    ensures s.lost == []
  {
    hide Paid;
  }

  lemma WriterBehind<V>(cfg: Config<V>, s: State<V>, c: nat)
    requires WritersFair(cfg, s) && c in s.clients
    ensures s.clients[c].Writing? ==> s.clients[c].rev <= s.rev
  {
    hide Apply;
  }

  lemma NotMissing<V>(cfg: Config<V>, s: State<V>, c: nat, value: V)
    requires Consistent(cfg, s) && Kept(s, value) && Safe(cfg, value, s.clients.Keys) && c in s.clients
    requires !s.clients[c].Done?
    ensures !Missing(cfg, s.store)
  {
    hide Apply, Paid, NoRepeats, Fold, Missing, WritersFair;
    assert Committed(s) == s.log;
    OthersBound(s.log, s.clients.Keys, c);
  }

  lemma CreatesNothing<V>(s: State<V>, c: nat, value: V)
    requires Kept(s, value) && c in s.clients
    ensures !s.clients[c].Creating?
  {
  }

  /** A client starts over only when another client has written since it read. */
  lemma RetryIsPaidFor<V>(cfg: Config<V>, s: State<V>, t: State<V>, c: nat, value: V)
    requires Consistent(cfg, s) && Kept(s, value) && NextBy(cfg, s, t, c, Conflict)
    ensures var since := s.clients[c].rev - s.baseRev;
            0 <= since < |s.log| && s.log[since] != c && s.log[since] in s.clients
  {
    hide Apply, NoRepeats, Fold, WritersFair, Missing;
    var since := s.clients[c].rev - s.baseRev;
    WriterBehind(cfg, s, c);
    assert Paid(s, c);
    hide Paid;
    assert Committed(s) == s.log;
    assert s.log[since] in s.log;
  }

  lemma {:induction false} RunKept<V>(cfg: Config<V>, run: seq<State<V>>, i: nat)
    requires Run(cfg, run) && Fresh(cfg, run[0]) && i < |run|
    ensures Consistent(cfg, run[i]) && Kept(run[i], run[0].store.value) && run[i].clients.Keys == run[0].clients.Keys
  {
    hide Consistent, Kept, NextBy, Init, Safe;
    if i == 0 {
      InitConsistent(cfg, run[0]);
      InitKept(cfg, run[0]);
    } else {
      RunKept(cfg, run, i - 1);
      assert Next(cfg, run[i - 1], run[i - 1 + 1]);
      var c, step :| NextBy(cfg, run[i - 1], run[i], c, step);
      StepConsistent(cfg, run[i - 1], run[i], c, step);
      KeptStep(cfg, run[i - 1], run[i], c, step, run[0].store.value);
    }
  }

  /** The key exists, and no update makes it look missing. */
  ghost predicate Fresh<V>(cfg: Config<V>, s: State<V>) {
    s.store.Some? && Safe(cfg, s.store.value, s.clients.Keys)
  }

  lemma InitKept<V>(cfg: Config<V>, s: State<V>)
    requires Init(cfg, s) && s.store.Some?
    ensures Kept(s, s.store.value)
  {
  }

  /** In every run from an existing key that no update makes look missing: the stored value is the initial one with the
      updates of exactly the clients that succeeded, each once, in the order of their revisions, and no client starts
      over more often than other clients have written, hence less often than there are clients. */
  lemma UpdatesAreSerialised<V>(cfg: Config<V>, run: seq<State<V>>, i: nat)
    requires Run(cfg, run) && Fresh(cfg, run[0]) && i < |run|
    ensures var s := run[i];
            && s.store.Some? && s.store == Fold(cfg, run[0].store, s.log) && s.rev == s.baseRev + |s.log|
              && s.lost == []
            && NoRepeats(s.log) && (forall c :: c in s.log <==> c in s.clients && s.clients[c].Done?)
            && (forall c | c in s.clients :: c in s.retries && s.retries[c] <= OthersIn(s, c) < |s.clients|)
    ensures var s := run[i];
            run[0].store.Some? && exists values ::
              Chained(cfg, run[0].store.value, s.log, values) && s.store == Some(values[|s.log|])
  {
    hide Fold, WritersFair, Safe, Chained;
    RunKept(cfg, run, i);
    var s := run[i];
    var values := FoldIsChain(cfg, run[0].store.value, s.log);
    assert Committed(s) == s.log;
    forall c | c in s.clients
      ensures OthersIn(s, c) < |s.clients|
    {
      OthersBound(s.log, s.clients.Keys, c);
    }
  }

  lemma OthersBound(log: seq<nat>, clients: set<nat>, c: nat)
    requires NoRepeats(log) && (forall k | k in log :: k in clients) && c in clients
    ensures |log| - (if c in log then 1 else 0) < |clients|
  {
    if c in log {
      SizeWithoutRepeats(log, clients);
    } else {
      SizeWithoutRepeats(log, clients - {c});
    }
  }

  lemma {:induction false} SizeWithoutRepeats(log: seq<nat>, ids: set<nat>)
    requires NoRepeats(log) && forall k | k in log :: k in ids
    ensures |log| <= |ids|
  {
    if log != [] {
      var n := |log| - 1;
      assert forall k | k in log[..n] :: k in log && k != log[n];
      SizeWithoutRepeats(log[..n], ids - {log[n]});
    }
  }

  // ---- A key that is missing ----

  ghost predicate RunFrom<V>(cfg: Config<V>, s: State<V>, run: seq<State<V>>) {
    Run(cfg, run) && run[0] == s
  }

  ghost predicate NeverLost<V(!new)>(cfg: Config<V>, s: State<V>) {
    forall run: seq<State<V>>, i | RunFrom(cfg, s, run) && 0 <= i < |run| :: run[i].lost == []
  }

  /** With one client alone, nothing has been written while it may still create the key. */
  predicate Alone<V>(s: State<V>, c: nat) {
    && s.lost == [] && s.clients.Keys <= {c}
    && (c in s.clients && (s.clients[c].Checking? || s.clients[c].Creating?) ==> s.log == [])
  }

  lemma AloneStep<V>(cfg: Config<V>, s: State<V>, t: State<V>, a: nat, c: nat, step: Step)
    requires Alone(s, a) && NextBy(cfg, s, t, c, step)
    ensures Alone(t, a)
  {
    hide Apply;
    assert c == a;
  }

  lemma {:induction false} AloneRun<V>(cfg: Config<V>, run: seq<State<V>>, a: nat, i: nat)
    requires Run(cfg, run) && run[0].clients.Keys <= {a} && i < |run|
    ensures Alone(run[i], a)
  {
    hide NextBy;
    if i > 0 {
      AloneRun(cfg, run, a, i - 1);
      assert Next(cfg, run[i - 1], run[i - 1 + 1]);
      var c, step :| NextBy(cfg, run[i - 1], run[i], c, step);
      AloneStep(cfg, run[i - 1], run[i], a, c, step);
    }
  }

  lemma Extend<V>(cfg: Config<V>, s: State<V>, run: seq<State<V>>, t: State<V>, c: nat, step: Step)
    requires run != [] && RunFrom(cfg, s, run) && NextBy(cfg, run[|run| - 1], t, c, step)
    ensures RunFrom(cfg, s, run + [t])
  {
    hide NextBy, Init;
    var longer := run + [t];
    forall i | 0 <= i < |longer| - 1
      ensures Next(cfg, longer[i], longer[i + 1])
    {
      if i < |run| - 1 {
        assert Next(cfg, run[i], run[i + 1]);
      } else {
        assert longer[i + 1] == t;
      }
    }
  }

  /** Both clients look for the key before either creates it. */
  lemma BothFindItMissing<V>(cfg: Config<V>, s: State<V>, a: nat, b: nat) returns (run: seq<State<V>>)
    requires Init(cfg, s) && Missing(cfg, s.store) && a in s.clients && b in s.clients && a != b
    ensures run != [] && RunFrom(cfg, s, run)
    ensures run[|run| - 1] == Become(Become(s, a, Creating), b, Creating)
  {
    hide RunFrom;
    var s1 := Become(s, a, Creating);
    assert RunFrom(cfg, s, [s]) by { StartRun(cfg, s); }
    Extend(cfg, s, [s], s1, a, Check);
    assert [s] + [s1] == [s, s1];
    Extend(cfg, s, [s, s1], Become(s1, b, Creating), b, Check);
    run := [s, s1] + [Become(s1, b, Creating)];
  }

  lemma StartRun<V>(cfg: Config<V>, s: State<V>)
    requires Init(cfg, s)
    ensures RunFrom(cfg, s, [s])
  {
  }

  /** One client creates the key and completes its update. */
  lemma CreateAndUpdate<V>(cfg: Config<V>, s: State<V>, before: seq<State<V>>, a: nat) returns (run: seq<State<V>>)
    requires before != [] && RunFrom(cfg, s, before)
    requires var l := before[|before| - 1];
             cfg.Valid() && a in l.clients && a in cfg.update && a in l.retries && l.clients[a].Creating?
               && l.lost == [] && l.log == []
    requires Apply(cfg, a, Some(cfg.create[a])).Some?
    ensures run != [] && RunFrom(cfg, s, run)
    ensures var l, t := before[|before| - 1], run[|run| - 1];
            && t.clients == l.clients[a := Done] && t.retries == l.retries && t.lost == [] && t.log == [a]
  {
    hide Apply, RunFrom;
    var l, v := before[|before| - 1], cfg.create[a];
    var s1 := Become(l, a, Reading).(store := Some(v), rev := l.rev + 1, base := Some(v), baseRev := l.rev + 1,
                                     log := [], lost := l.lost + l.log);
    Extend(cfg, s, before, s1, a, Create);
    var s2 := Become(s1, a, Writing(s1.rev, v, Apply(cfg, a, Some(v)).value));
    Extend(cfg, s, before + [s1], s2, a, Read);
    var s3 := Become(s2, a, Done).(store := Some(s2.clients[a].updated), rev := s2.rev + 1, log := s2.log + [a]);
    Extend(cfg, s, before + [s1] + [s2], s3, a, Write);
    run := before + [s1] + [s2] + [s3];
    assert s3.clients == l.clients[a := Done];
  }

  /** Two clients that both find the key missing: the second to create it overwrites what the first has written. */
  lemma LosingRun<V>(cfg: Config<V>, s: State<V>, a: nat, b: nat) returns (run: seq<State<V>>)
    requires Init(cfg, s) && Missing(cfg, s.store) && a in s.clients && b in s.clients && a != b
    requires Apply(cfg, a, Some(cfg.create[a])).Some?
    ensures run != [] && RunFrom(cfg, s, run) && run[|run| - 1].lost == [a]
  {
    hide Apply, RunFrom;
    run := BothFindItMissing(cfg, s, a, b);
    run := CreateAndUpdate(cfg, s, run, a);
    var l, w := run[|run| - 1], cfg.create[b];
    var t := Become(l, b, Reading).(store := Some(w), rev := l.rev + 1, base := Some(w), baseRev := l.rev + 1,
                                    log := [], lost := l.lost + l.log);
    Extend(cfg, s, run, t, b, Create);
    run := run + [t];
  }

  ghost predicate NeverFails<V(!new)>(cfg: Config<V>) {
    forall c, v | c in cfg.update :: Apply(cfg, c, Some(v)).Some?
  }

  // ---- A key that updates make look missing ----

  /** The state after the clients listed have done their updates one after another, all others being still to start. */
  ghost predicate After<V>(cfg: Config<V>, s: State<V>, t: State<V>, log: seq<nat>) {
    && t.clients.Keys == s.clients.Keys && t.retries == s.retries && t.lost == [] && t.log == log
    && t.store == Fold(cfg, s.store, log)
    && forall c | c in t.clients :: t.clients[c] == if c in log then Done else Checking
  }

  /** The update of one client from beginning to end. */
  lemma OneUpdate<V>(cfg: Config<V>, s: State<V>, before: seq<State<V>>, a: nat) returns (run: seq<State<V>>)
    requires before != [] && RunFrom(cfg, s, before)
    requires var l := before[|before| - 1];
             && cfg.Valid() && a in l.clients && a in cfg.update && a in l.retries && l.clients[a].Checking?
             && !Missing(cfg, l.store) && Apply(cfg, a, l.store).Some?
    ensures run != [] && RunFrom(cfg, s, run)
    ensures var l, t := before[|before| - 1], run[|run| - 1];
            && t.clients == l.clients[a := Done] && t.retries == l.retries && t.lost == l.lost && t.log == l.log + [a]
            && t.store == Apply(cfg, a, l.store)
  {
    hide Apply, RunFrom;
    var l := before[|before| - 1];
    var s1 := Become(l, a, Reading);
    Extend(cfg, s, before, s1, a, Check);
    var s2 := Become(s1, a, Writing(s1.rev, l.store.value, Apply(cfg, a, l.store).value));
    Extend(cfg, s, before + [s1], s2, a, Read);
    var s3 := Become(s2, a, Done).(store := Some(s2.clients[a].updated), rev := s2.rev + 1, log := s2.log + [a]);
    Extend(cfg, s, before + [s1] + [s2], s3, a, Write);
    run := before + [s1] + [s2] + [s3];
    assert s3.clients == l.clients[a := Done];
  }

  /** After none of the first n updates, but the last, does the key look missing. */
  ghost predicate PresentUpTo<V>(cfg: Config<V>, v: Option<V>, log: seq<nat>, n: nat)
    requires n <= |log|
  {
    forall m | 0 <= m < n :: !Missing(cfg, Fold(cfg, v, log[..m]))
  }

  predicate Known<V>(s: State<V>, log: seq<nat>) {
    NoRepeats(log) && forall k | k in log :: k in s.clients
  }

  lemma {:induction false} UpdateAll<V(!new)>(cfg: Config<V>, s: State<V>, log: seq<nat>,
                                       n: nat) returns (run: seq<State<V>>)
    requires Init(cfg, s) && NeverFails(cfg) && Known(s, log) && n <= |log| && PresentUpTo(cfg, s.store, log, n)
    ensures run != [] && RunFrom(cfg, s, run) && After(cfg, s, run[|run| - 1], log[..n])
  {
    hide RunFrom, Missing, NeverFails, After, Known, Apply, Fold, Init;
    if n == 0 {
      run := [s];
      StartRun(cfg, s);
      AfterNone(cfg, s);
      assert log[..0] == [];
    } else {
      run := UpdateAll(cfg, s, log, n - 1);
      var l, a := run[|run| - 1], log[n - 1];
      ReadyFor(cfg, s, l, log, n - 1);
      PresentSucceeds(cfg, l.store, a);
      run := OneUpdate(cfg, s, run, a);
      AfterOne(cfg, s, l, run[|run| - 1], log, n - 1);
    }
  }

  lemma AfterNone<V>(cfg: Config<V>, s: State<V>)
    requires Init(cfg, s)
    ensures After(cfg, s, s, [])
  {
  }

  lemma ReadyFor<V>(cfg: Config<V>, s: State<V>, l: State<V>, log: seq<nat>, n: nat)
    requires Init(cfg, s) && Known(s, log) && n < |log| && After(cfg, s, l, log[..n])
    requires !Missing(cfg, Fold(cfg, s.store, log[..n]))
    ensures cfg.Valid() && log[n] in l.clients && log[n] in cfg.update && log[n] in l.retries
    ensures l.clients[log[n]].Checking? && !Missing(cfg, l.store)
  {
    hide Missing, Fold;
    assert log[n] in log;
  }

  lemma AfterOne<V>(cfg: Config<V>, s: State<V>, l: State<V>, t: State<V>, log: seq<nat>, n: nat)
    requires n < |log| && After(cfg, s, l, log[..n]) && log[n] in l.clients
    requires t.clients == l.clients[log[n] := Done] && t.retries == l.retries && t.lost == l.lost
    requires t.log == l.log + [log[n]]
    requires t.store == Apply(cfg, log[n], l.store)
    ensures After(cfg, s, t, log[..n + 1])
  {
    hide Apply;
    assert log[..n + 1] == log[..n] + [log[n]] && log[..n + 1][..n] == log[..n];
  }

  lemma PresentSucceeds<V(!new)>(cfg: Config<V>, v: Option<V>, a: nat)
    requires NeverFails(cfg) && a in cfg.update && !Missing(cfg, v)
    ensures Apply(cfg, a, v).Some?
  {
  }

  /** The updates of the clients listed leave a value that is stored as no bytes; one more client takes the key for
      missing, creates it, and all those updates are lost. */
  lemma EmptiedKeyLoses<V(!new)>(cfg: Config<V>, s: State<V>, log: seq<nat>, b: nat) returns (run: seq<State<V>>)
    requires Init(cfg, s) && NeverFails(cfg) && Known(s, log)
    requires PresentUpTo(cfg, s.store, log, |log|) && Missing(cfg, Fold(cfg, s.store, log))
    requires b in s.clients && b !in log
    ensures run != [] && RunFrom(cfg, s, run) && run[|run| - 1].lost == log
  {
    hide RunFrom, Missing, Fold, Known, Apply, NeverFails, PresentUpTo;
    run := UpdateAll(cfg, s, log, |log|);
    assert log[..|log|] == log;
    var l, w := run[|run| - 1], cfg.create[b];
    var s1 := Become(l, b, Creating);
    Extend(cfg, s, run, s1, b, Check);
    var s2 := Become(s1, b, Reading).(store := Some(w), rev := s1.rev + 1, base := Some(w), baseRev := s1.rev + 1,
                                      log := [], lost := s1.lost + s1.log);
    Extend(cfg, s, run + [s1], s2, b, Create);
    run := run + [s1] + [s2];
  }

  /** The first part of the list after which the key looks missing. */
  lemma {:induction false} FirstMissing<V>(cfg: Config<V>, v: Option<V>, log: seq<nat>) returns (n: nat)
    requires Missing(cfg, Fold(cfg, v, log))
    ensures n <= |log| && Missing(cfg, Fold(cfg, v, log[..n])) && PresentUpTo(cfg, v, log, n)
  {
    hide Fold, Missing;
    n := 0;
    assert log[..|log|] == log;
    while n < |log| && !Missing(cfg, Fold(cfg, v, log[..n]))
      invariant n <= |log| && forall m | 0 <= m < n :: !Missing(cfg, Fold(cfg, v, log[..m]))
    {
      n := n + 1;
    }
  }

  lemma {:induction false} SomeoneLeft(log: seq<nat>, ids: set<nat>) returns (b: nat)
    requires |log| < |ids|
    ensures b in ids && b !in log
  {
    if log == [] {
      b :| b in ids;
    } else {
      var n := |log| - 1;
      b := SomeoneLeft(log[..n], ids - {log[n]});
      assert log == log[..n] + [log[n]];
    }
  }

  /** With update functions that do not fail, no written update is ever overwritten if and only if fewer than two
      clients are at work, or the key exists beforehand and no updates of fewer than all clients, in any order, leave a
      value that is stored as no bytes. */
  lemma NeverLostIffNeverMissing<V(!new)>(cfg: Config<V>, s: State<V>)
    requires Init(cfg, s) && NeverFails(cfg)
    ensures NeverLost(cfg, s) <==> |s.clients| < 2 || Fresh(cfg, s)
  {
    hide NeverLost, Init, NeverFails, Fresh;
    if |s.clients| < 2 || Fresh(cfg, s) {
      NeverLostThen(cfg, s);
    } else {
      LostSometimes(cfg, s);
    }
  }

  lemma NeverLostThen<V(!new)>(cfg: Config<V>, s: State<V>)
    requires |s.clients| < 2 || Fresh(cfg, s)
    ensures NeverLost(cfg, s)
  {
    hide RunFrom, Fresh;
    forall run: seq<State<V>>, i | RunFrom(cfg, s, run) && 0 <= i < |run|
      ensures run[i].lost == []
    {
      NothingLost(cfg, s, run, i);
    }
  }

  lemma LostSometimes<V(!new)>(cfg: Config<V>, s: State<V>)
    requires Init(cfg, s) && NeverFails(cfg) && |s.clients| >= 2 && !Fresh(cfg, s)
    ensures !NeverLost(cfg, s)
  {
    hide RunFrom, Init, Apply, NeverFails, Missing, Fold, NoRepeats;
    var run;
    if Missing(cfg, s.store) {
      var a, b := TwoClients(s.clients.Keys);
      ClientKnown(cfg, s, a);
      UpdateSucceeds(cfg, a);
      run := LosingRun(cfg, s, a, b);
    } else {
      PresentIsSome(cfg, s.store);
      var log :| && NoRepeats(log) && (forall k | k in log :: k in s.clients.Keys) && |log| < |s.clients.Keys|
                 && Missing(cfg, Fold(cfg, Some(s.store.value), log));
      run := LosingRunBy(cfg, s, log);
    }
    assert run[|run| - 1].lost != [];
  }

  lemma PresentIsSome<V>(cfg: Config<V>, v: Option<V>)
    requires !Missing(cfg, v)
    ensures v.Some?
  {
  }

  lemma LosingRunBy<V(!new)>(cfg: Config<V>, s: State<V>, log: seq<nat>) returns (run: seq<State<V>>)
    requires Init(cfg, s) && NeverFails(cfg) && Known(s, log)
    requires |log| < |s.clients| && !Missing(cfg, s.store) && Missing(cfg, Fold(cfg, s.store, log))
    ensures run != [] && RunFrom(cfg, s, run) && run[|run| - 1].lost != []
  {
    hide RunFrom, Init, Apply, NeverFails, Missing, PresentUpTo, Known;
    var n := FirstMissing(cfg, s.store, log);
    FirstParts(cfg, s, log, n);
    assert n != 0 by { assert log[..0] == []; }
    hide Fold;
    var b := SomeoneLeft(log[..n], s.clients.Keys);
    run := EmptiedKeyLoses(cfg, s, log[..n], b);
  }

  lemma FirstParts<V>(cfg: Config<V>, s: State<V>, log: seq<nat>, n: nat)
    requires n <= |log| && Known(s, log) && PresentUpTo(cfg, s.store, log, n)
    ensures Known(s, log[..n]) && PresentUpTo(cfg, s.store, log[..n], n)
  {
    hide Fold, Missing;
    assert forall m | 0 <= m < n :: log[..n][..m] == log[..m];
    assert forall k | k in log[..n] :: k in log;
  }

  lemma UpdateSucceeds<V(!new)>(cfg: Config<V>, c: nat)
    requires NeverFails(cfg) && c in cfg.update && c in cfg.create
    ensures Apply(cfg, c, Some(cfg.create[c])).Some?
  {
  }

  lemma ClientKnown<V>(cfg: Config<V>, s: State<V>, c: nat)
    requires Init(cfg, s) && c in s.clients
    ensures c in cfg.update && c in cfg.create
  {
  }

  lemma NothingLost<V>(cfg: Config<V>, s: State<V>, run: seq<State<V>>, i: nat)
    requires RunFrom(cfg, s, run) && i < |run| && (|s.clients| < 2 || Fresh(cfg, s))
    ensures run[i].lost == []
  {
    hide Consistent, Run, Fresh;
    if Fresh(cfg, s) {
      RunKept(cfg, run, i);
    } else {
      var a := OnlyClient(s.clients.Keys);
      AloneRun(cfg, run, a, i);
    }
  }

  lemma OnlyClient(ids: set<nat>) returns (a: nat)
    requires |ids| <= 1
    ensures ids <= {a}
  {
    a := 0;
    if ids != {} {
      a :| a in ids;
      assert |ids - {a}| == 0;
    }
  }

  lemma TwoClients(ids: set<nat>) returns (a: nat, b: nat)
    requires |ids| >= 2
    ensures a in ids && b in ids && a != b
  {
    a :| a in ids;
    assert |ids - {a}| >= 1;
    b :| b in ids - {a};
  }
}
