/** Any number of clients loading, saving and deleting large objects under a lock that is the presence of an entry
    in a key-value store (Lock, UnLock, largeObjLock, LoadLarge, SaveLarge and DeleteLarge in common/natsutil.go).
    Lock entries do not expire. */
module LargeObject {
  import opened Model

  /** The bytes of an object. */
  type Data = string

  datatype Op = Load | Save(data: Data) | Delete

  datatype Result = Loaded(value: Option<Data>) | Finished | Error

  /** Where a client is. Reading and writing an object take time: `seen` is the number of writes begun or ended on
      the key when the client began. A client leaves in two steps, looking for the lock entry and deleting it. */
  datatype Client =
    | Waiting(key: string, op: Op)
    | Entered(key: string, op: Op)
    | Active(key: string, op: Op, seen: nat)
    | Leaving(key: string, result: Result)
    | Unlocking(key: string, result: Result)
    | Done(result: Result)
  {
    predicate Holds(k: string) {
      (Entered? || Active? || Leaving? || Unlocking?) && key == k
    }

    predicate Writes(k: string) {
      Active? && key == k && !op.Load?
    }
  }

  /** What has happened to the objects. */
  datatype Event = Saved(key: string, data: Data) | Deleted(key: string)

  datatype State = State(
    locks: set<string>,
    objects: map<string, Data>,
    writes: map<string, nat>,
    clients: map<nat, Client>,
    initial: map<string, Data>,
    log: seq<Event>)

  function Lookup(objects: map<string, Data>, k: string): Option<Data> {
    if k in objects then Some(objects[k]) else None
  }

  function WritesOn(s: State, k: string): nat {
    if k in s.writes then s.writes[k] else 0
  }

  /** The data of the last completed save of a key, None when it has been deleted since. */
  function LastSaved(initial: map<string, Data>, log: seq<Event>, k: string): Option<Data> {
    if log == [] then Lookup(initial, k)
    else
      var e := log[|log| - 1];
      if e.key != k then LastSaved(initial, log[..|log| - 1], k)
      else if e.Saved? then Some(e.data)
      else None
  }

  datatype Step =
    | Lock
    | LockTaken
    | Cancel
    | Begin
    | LoadEnd(value: Option<Data>)
    | SaveEnd
    | DeleteEnd
    | Fail(result: Result)
    | FindLock
    | RemoveLock
    | LoseLock

  ghost predicate Init(s: State) {
    && s.locks == {} && s.objects == s.initial && s.log == []
    && forall c | c in s.clients :: s.clients[c].Waiting?
  }

  function Become(s: State, c: nat, client: Client): State {
    s.(clients := s.clients[c := client])
  }

  function Touch(s: State, k: string): State {
    s.(writes := s.writes[k := WritesOn(s, k) + 1])
  }

  ghost predicate NextBy(s: State, t: State, c: nat, step: Step) {
    && c in s.clients
    && var p := s.clients[c];
       match step
       case Lock => p.Waiting? && p.key !in s.locks
         && t == Become(s, c, Entered(p.key, p.op)).(locks := s.locks + {p.key})
       case LockTaken => p.Waiting? && p.key in s.locks && t == s
       case Cancel => p.Waiting? && t == Become(s, c, Done(Error))
       case Begin =>
         && p.Entered?
         && t == (if p.op.Load? then Become(s, c, Active(p.key, p.op, WritesOn(s, p.key)))
                  else Touch(Become(s, c, Active(p.key, p.op, WritesOn(s, p.key) + 1)), p.key))
       case LoadEnd(value) =>
         // a read that no write overlaps returns the object; otherwise nothing is known about what it returns
         && p.Active? && p.op.Load?
         && (WritesOn(s, p.key) == p.seen && (forall d | d in s.clients :: !s.clients[d].Writes(p.key)) ==>
               value == Lookup(s.objects, p.key))
         && t == Become(s, c, Leaving(p.key, Loaded(value)))
       case SaveEnd =>
         && p.Active? && p.op.Save?
         && t == Touch(Become(s, c, Leaving(p.key, Finished)), p.key).(
                   objects := s.objects[p.key := p.op.data], log := s.log + [Saved(p.key, p.op.data)])
       case DeleteEnd =>
         && p.Active? && p.op.Delete?
         && t == Touch(Become(s, c, Leaving(p.key, Finished)), p.key).(
                   objects := s.objects - {p.key}, log := s.log + [Deleted(p.key)])
       case Fail(result) =>
         // the store refuses: nothing changes; a failed delete may be passed over in silence
         && p.Active? && !result.Loaded? && (result.Finished? ==> p.op.Delete?)
         && t == (if p.op.Load? then Become(s, c, Leaving(p.key, result))
           else Touch(Become(s, c, Leaving(p.key, result)), p.key))
       case FindLock => p.Leaving?
         && t == Become(s, c, if p.key in s.locks then Unlocking(p.key, p.result) else Done(p.result))
       case RemoveLock => p.Unlocking? && t == Become(s, c, Done(p.result)).(locks := s.locks - {p.key})
       case LoseLock => (p.Leaving? || p.Unlocking?) && t == Become(s, c, Done(p.result))
  }

  ghost predicate Next(s: State, t: State) {
    exists c, step :: NextBy(s, t, c, step)
  }

  ghost predicate Run(run: seq<State>) {
    run != [] && Init(run[0]) && forall i | 0 <= i < |run| - 1 :: Next(run[i], run[i + 1])
  }

  // ---- What every step keeps ----

  /** A client that has got past the lock has its entry in the store, and no other client has got past it. */
  ghost predicate Exclusive(s: State) {
    && (forall c, k | c in s.clients && s.clients[c].Holds(k) :: k in s.locks)
    && (forall c, d, k | c in s.clients && d in s.clients && s.clients[c].Holds(k) && s.clients[d].Holds(k) :: c == d)
  }

  /** The object store holds what was saved last. */
  ghost predicate UpToDate(s: State) {
    forall k :: Lookup(s.objects, k) == LastSaved(s.initial, s.log, k)
  }

  /** A client that is reading or writing sees no other write; what a client has loaded is current until it lets go. */
  ghost predicate Undisturbed(s: State) {
    forall c | c in s.clients :: SeesNoOther(s, s.clients[c])
  }

  predicate SeesNoOther(s: State, p: Client) {
    && (p.Active? ==> p.seen == WritesOn(s, p.key))
    && ((p.Leaving? || p.Unlocking?) && p.result.Loaded? ==> p.result.value == LastSaved(s.initial, s.log, p.key))
  }

  /** What a step may do to the locks: a client comes to hold a lock only by entering it, and an entry goes only
      when the client that holds it lets go. */
  lemma LocksStep(s: State, t: State, c: nat, step: Step)
    requires NextBy(s, t, c, step)
    ensures c in s.clients && c in t.clients && t.clients == s.clients[c := t.clients[c]]
    ensures forall k | t.clients[c].Holds(k) :: k in t.locks || k !in s.locks
    ensures forall k | t.clients[c].Holds(k) && !s.clients[c].Holds(k) :: k !in s.locks && k in t.locks
    ensures forall k | k in s.locks && k !in t.locks :: s.clients[c].Holds(k) && !t.clients[c].Holds(k)
  {
  }

  lemma ExclusiveStep(s: State, t: State, c: nat, step: Step)
    requires Exclusive(s) && NextBy(s, t, c, step)
    ensures Exclusive(t)
  {
    LocksStep(s, t, c, step);
    hide NextBy, Client.Holds;
    forall d, k | d in t.clients && t.clients[d].Holds(k)
      ensures k in t.locks
    {
      assert d != c ==> d in s.clients && t.clients[d] == s.clients[d];
    }
    forall d, e, k | d in t.clients && e in t.clients && t.clients[d].Holds(k) && t.clients[e].Holds(k)
      ensures d == e
    {
      assert d != c ==> d in s.clients && t.clients[d] == s.clients[d];
      assert e != c ==> e in s.clients && t.clients[e] == s.clients[e];
    }
  }

  lemma LastSavedStep(initial: map<string, Data>, log: seq<Event>, e: Event, k: string)
    ensures LastSaved(initial, log + [e], k) == if e.key != k then LastSaved(initial, log, k)
                                                else if e.Saved? then Some(e.data) else None
  {
    assert (log + [e])[..|log|] == log;
  }

  lemma UpToDateStep(s: State, t: State, c: nat, step: Step)
    requires UpToDate(s) && NextBy(s, t, c, step)
    ensures UpToDate(t)
  {
    hide LastSaved;
    forall k
      ensures Lookup(t.objects, k) == LastSaved(t.initial, t.log, k)
    {
      assert Lookup(s.objects, k) == LastSaved(s.initial, s.log, k);
      if step.SaveEnd? || step.DeleteEnd? {
        LastSavedStep(s.initial, s.log, t.log[|s.log|], k);
      }
    }
  }

  /** A step of one client leaves alone the keys it does not hold. */
  lemma QuietElsewhere(s: State, t: State, c: nat, step: Step, k: string)
    requires NextBy(s, t, c, step) && !s.clients[c].Holds(k)
    ensures WritesOn(t, k) == WritesOn(s, k) && LastSaved(t.initial, t.log, k) == LastSaved(s.initial, s.log, k)
  {
    hide LastSaved;
    if step.SaveEnd? || step.DeleteEnd? {
      LastSavedStep(s.initial, s.log, t.log[|s.log|], k);
    }
  }

  /** Under the lock a read is never overlapped by a write. */
  lemma LoadsWhatWasSaved(s: State, t: State, c: nat, value: Option<Data>)
    requires Exclusive(s) && UpToDate(s) && Undisturbed(s) && NextBy(s, t, c, LoadEnd(value))
    ensures value == LastSaved(s.initial, s.log, s.clients[c].key)
  {
    hide LastSaved;
    var k := s.clients[c].key;
    assert SeesNoOther(s, s.clients[c]) && s.clients[c].Holds(k);
    forall d | d in s.clients
      ensures !s.clients[d].Writes(k)
    {
      var p := s.clients[d];
      assert p.Writes(k) ==> p.Holds(k);
    }
    assert Lookup(s.objects, k) == LastSaved(s.initial, s.log, k);
  }

  lemma UndisturbedStep(s: State, t: State, c: nat, step: Step)
    requires Exclusive(s) && UpToDate(s) && Undisturbed(s) && NextBy(s, t, c, step)
    ensures Undisturbed(t)
  {
    hide LastSaved;
    LocksStep(s, t, c, step);
    forall d | d in t.clients
      ensures SeesNoOther(t, t.clients[d])
    {
      assert d in s.clients && SeesNoOther(s, s.clients[d]);
      if d == c {
        if step.LoadEnd? {
          LoadsWhatWasSaved(s, t, c, step.value);
        }
      } else {
        OtherUndisturbed(s, t, c, step, d);
      }
    }
  }

  lemma OtherUndisturbed(s: State, t: State, c: nat, step: Step, d: nat)
    requires Exclusive(s) && NextBy(s, t, c, step) && d in s.clients && d != c && SeesNoOther(s, s.clients[d])
    ensures SeesNoOther(t, s.clients[d])
  {
    var p := s.clients[d];
    if p.Active? || p.Leaving? || p.Unlocking? {
      assert p.Holds(p.key) && !s.clients[c].Holds(p.key);
      QuietElsewhere(s, t, c, step, p.key);
    }
    hide NextBy, LastSaved, Exclusive;
  }

  lemma {:induction false} RunSafe(run: seq<State>, i: nat)
    requires Run(run) && i < |run|
    ensures Exclusive(run[i]) && UpToDate(run[i]) && Undisturbed(run[i])
  {
    hide NextBy, Exclusive, UpToDate, Undisturbed, Init;
    if i == 0 {
      InitSafe(run[0]);
    } else {
      RunSafe(run, i - 1);
      assert Next(run[i - 1], run[i - 1 + 1]);
      var c, step :| NextBy(run[i - 1], run[i], c, step);
      ExclusiveStep(run[i - 1], run[i], c, step);
      UpToDateStep(run[i - 1], run[i], c, step);
      UndisturbedStep(run[i - 1], run[i], c, step);
    }
  }

  lemma InitSafe(s: State)
    requires Init(s)
    ensures Exclusive(s) && UpToDate(s) && Undisturbed(s)
  {
  }

  // ---- What the lock is for ----

  /** In every run at most one client is past the lock of a key. */
  lemma MutualExclusion(run: seq<State>, i: nat, c: nat, d: nat, k: string)
    requires Run(run) && i < |run| && c in run[i].clients && d in run[i].clients
    requires run[i].clients[c].Holds(k) && run[i].clients[d].Holds(k)
    ensures c == d
  {
    hide Run;
    RunSafe(run, i);
  }

  /** In every run a load that completes returns the data of the last completed save, nothing when the object was
      deleted since; and so it still is when the client lets go of the lock. */
  lemma LoadsReturnLastSave(run: seq<State>, i: nat, c: nat)
    requires Run(run) && i < |run| && c in run[i].clients
    requires (run[i].clients[c].Leaving? || run[i].clients[c].Unlocking?) && run[i].clients[c].result.Loaded?
    ensures run[i].clients[c].result.value == LastSaved(run[i].initial, run[i].log, run[i].clients[c].key)
  {
    hide Run, LastSaved;
    RunSafe(run, i);
    assert SeesNoOther(run[i], run[i].clients[c]);
  }

  // ---- What a client is told in the end ----

  predicate HasResult(p: Client) {
    p.Leaving? || p.Unlocking? || p.Done?
  }

  /** A result that fits the call: a load ends with an object or an error, and a save that reports success has been
      completed. */
  predicate Reported(log: seq<Event>, k: string, op: Op, result: Result) {
    match op
    case Load => !result.Finished?
    case Save(data) => !result.Loaded? && (result.Finished? ==> Saved(k, data) in log)
    case Delete => !result.Loaded?
  }

  /** A client goes on with the key and the call it came with, and its result fits them. */
  predicate Truthful(log: seq<Event>, start: Client, p: Client) {
    && start.Waiting?
    && (!p.Done? ==> p.key == start.key)
    && (p.Waiting? || p.Entered? || p.Active? ==> p.op == start.op)
    && (HasResult(p) ==> Reported(log, start.key, start.op, p.result))
  }

  lemma TruthfulStep(s: State, t: State, c: nat, step: Step, d: nat, start: Client)
    requires NextBy(s, t, c, step) && d in s.clients && Truthful(s.log, start, s.clients[d])
    ensures d in t.clients && Truthful(t.log, start, t.clients[d])
  {
    assert s.log <= t.log;
    assert step.SaveEnd? ==> t.log[|s.log|] == Saved(s.clients[c].key, s.clients[c].op.data);
  }

  lemma {:induction false} RunTruthful(run: seq<State>, i: nat, c: nat)
    requires Run(run) && i < |run| && c in run[i].clients
    ensures c in run[0].clients && Truthful(run[i].log, run[0].clients[c], run[i].clients[c])
  {
    hide NextBy, Truthful;
    if i == 0 {
      TruthfulAtFirst(run[0], c);
    } else {
      assert Next(run[i - 1], run[i - 1 + 1]);
      var d, step :| NextBy(run[i - 1], run[i], d, step);
      LocksStep(run[i - 1], run[i], d, step);
      RunTruthful(run, i - 1, c);
      TruthfulStep(run[i - 1], run[i], d, step, c, run[0].clients[c]);
    }
  }

  lemma TruthfulAtFirst(s: State, c: nat)
    requires Init(s) && c in s.clients
    ensures Truthful(s.log, s.clients[c], s.clients[c])
  {
  }

  predicate HoldsAndSees(s: State, c: nat, k: string, value: Option<Data>) {
    c in s.clients && s.clients[c].Holds(k) && value == LastSaved(s.initial, s.log, k)
  }

  /** In every run, a load that is done returned what the last completed save had left at a time when the client held
      the lock of the key. */
  lemma {:induction false} LoadedWhileHeld(run: seq<State>, i: nat, c: nat, value: Option<Data>) returns (j: nat)
    requires Run(run) && i < |run| && c in run[i].clients && run[i].clients[c] == Done(Loaded(value))
    ensures c in run[0].clients && run[0].clients[c].Waiting? && run[0].clients[c].op.Load?
    ensures j <= i && HoldsAndSees(run[j], c, run[0].clients[c].key, value)
  {
    hide LastSaved, NextBy, Init, HoldsAndSees;
    RunTruthful(run, i, c);
    assert i > 0;
    assert Next(run[i - 1], run[i - 1 + 1]);
    var d, step :| NextBy(run[i - 1], run[i], d, step);
    LocksStep(run[i - 1], run[i], d, step);
    if run[i - 1].clients[c].Done? {
      StaysDone(run[i - 1], run[i], d, step, c);
      j := LoadedWhileHeld(run, i - 1, c, value);
    } else {
      j := i - 1;
      LeavesWith(run[j], run[i], d, step, c);
      RunTruthful(run, j, c);
      LoadsReturnLastSave(run, j, c);
      StillHolds(run[j], c, run[0].clients[c].key, value);
    }
  }

  lemma StillHolds(s: State, c: nat, k: string, value: Option<Data>)
    requires c in s.clients && (s.clients[c].Leaving? || s.clients[c].Unlocking?) && s.clients[c].key == k
    requires value == LastSaved(s.initial, s.log, k)
    ensures HoldsAndSees(s, c, k, value)
  {
  }

  lemma StaysDone(s: State, t: State, d: nat, step: Step, c: nat)
    requires NextBy(s, t, d, step) && c in s.clients && s.clients[c].Done?
    ensures c in t.clients && t.clients[c] == s.clients[c]
  {
  }

  lemma LeavesWith(s: State, t: State, d: nat, step: Step, c: nat)
    requires NextBy(s, t, d, step) && c in s.clients && c in t.clients && !s.clients[c].Done? && t.clients[c].Done?
    requires t.clients[c].result.Loaded?
    ensures (s.clients[c].Leaving? || s.clients[c].Unlocking?) && s.clients[c].result == t.clients[c].result
  {
  }

  /** In every run, a save that reports success has been completed. */
  lemma SavedWhenFinished(run: seq<State>, i: nat, c: nat)
    requires Run(run) && i < |run| && c in run[i].clients && run[i].clients[c] == Done(Finished)
    requires c in run[0].clients && run[0].clients[c].Waiting? && run[0].clients[c].op.Save?
    ensures Saved(run[0].clients[c].key, run[0].clients[c].op.data) in run[i].log
  {
    hide Run;
    RunTruthful(run, i, c);
  }

  function Successes(s: State): set<nat> {
    set c | c in s.clients && HasResult(s.clients[c]) && s.clients[c].result.Finished?
  }

  /** A step adds an event only along with a client that reports success. */
  lemma SuccessesStep(s: State, t: State, c: nat, step: Step)
    requires NextBy(s, t, c, step) && |s.log| <= |Successes(s)|
    ensures |t.log| <= |Successes(t)|
  {
    hide NextBy, Successes;
    var a, b := Successes(s), Successes(t);
    if step.SaveEnd? || step.DeleteEnd? {
      SuccessAdded(s, t, c, step);
    } else {
      SuccessStays(s, t, c, step);
      Smaller(a, b);
    }
  }

  lemma SuccessAdded(s: State, t: State, c: nat, step: Step)
    requires NextBy(s, t, c, step) && (step.SaveEnd? || step.DeleteEnd?)
    ensures Successes(t) == Successes(s) + {c} && c !in Successes(s) && |t.log| == |s.log| + 1
  {
    assert c in t.clients && t.clients[c] == Leaving(s.clients[c].key, Finished) && !HasResult(s.clients[c]);
    assert t.clients == s.clients[c := t.clients[c]] && |t.log| == |s.log| + 1;
    hide NextBy;
  }

  lemma SuccessStays(s: State, t: State, c: nat, step: Step)
    requires NextBy(s, t, c, step) && !step.SaveEnd? && !step.DeleteEnd?
    ensures Successes(s) <= Successes(t) && t.log == s.log
  {
    LocksStep(s, t, c, step);
  }

  lemma Smaller(a: set<nat>, b: set<nat>)
    requires a <= b
    ensures |a| <= |b|
  {
    assert b == a + (b - a);
  }

  /** In every run there are no more saves and deletes done than clients that report success: a call that reports an
      error has left no trace. */
  lemma {:induction false} NoEventWithoutSuccess(run: seq<State>, i: nat)
    requires Run(run) && i < |run|
    ensures |run[i].log| <= |Successes(run[i])|
  {
    hide NextBy, Successes;
    if i > 0 {
      NoEventWithoutSuccess(run, i - 1);
      assert Next(run[i - 1], run[i - 1 + 1]);
      var c, step :| NextBy(run[i - 1], run[i], c, step);
      SuccessesStep(run[i - 1], run[i], c, step);
    }
  }

  // ---- A client that nothing hinders ----

  /** What the call of a client that goes on alone comes to. */
  predicate Served(s: State, t: State, c: nat) {
    && c in s.clients && s.clients[c].Waiting? && c in t.clients
    && s.clients[c].key !in t.locks
    && var k := s.clients[c].key;
       match s.clients[c].op
       case Load => t.clients[c] == Done(Loaded(LastSaved(s.initial, s.log, k)))
       case Save(data) => t.clients[c] == Done(Finished) && Lookup(t.objects, k) == Some(data)
       case Delete => t.clients[c] == Done(Finished) && Lookup(t.objects, k) == None
  }

  lemma Extend(run: seq<State>, t: State, c: nat, step: Step) returns (longer: seq<State>)
    requires Run(run) && NextBy(run[|run| - 1], t, c, step)
    ensures Run(longer) && run < longer && |longer| == |run| + 1 && longer[|run|] == t
  {
    hide NextBy, Init;
    longer := run + [t];
    forall i | 0 <= i < |longer| - 1
      ensures Next(longer[i], longer[i + 1])
    {
      assert i < |run| - 1 ==> Next(run[i], run[i + 1]);
    }
  }

  /** Taking the lock and setting about the call. */
  lemma Starts(run: seq<State>, c: nat) returns (longer: seq<State>)
    requires Run(run) && c in run[|run| - 1].clients && run[|run| - 1].clients[c].Waiting?
    requires run[|run| - 1].clients[c].key !in run[|run| - 1].locks
    ensures Run(longer) && run < longer
    ensures var s, t := run[|run| - 1], longer[|longer| - 1];
            && c in t.clients && t.clients[c].Active? && t.clients[c].key == s.clients[c].key
            && t.clients[c].op == s.clients[c].op
            && t.objects == s.objects && t.initial == s.initial && t.log == s.log
  {
    var s := run[|run| - 1];
    hide Run, LastSaved;
    var k, op := s.clients[c].key, s.clients[c].op;
    var locked := Become(s, c, Entered(k, op)).(locks := s.locks + {k});
    longer := Extend(run, locked, c, Lock);
    var n := WritesOn(locked, k);
    var begun := if op.Load? then Become(locked, c, Active(k, op, n))
      else Touch(Become(locked, c, Active(k, op, n + 1)), k);
    longer := Extend(longer, begun, c, Begin);
  }

  /** Completing it. */
  lemma Works(run: seq<State>, c: nat) returns (longer: seq<State>)
    requires Run(run) && c in run[|run| - 1].clients && run[|run| - 1].clients[c].Active?
    ensures Run(longer) && run < longer
    ensures var s, t := run[|run| - 1], longer[|longer| - 1];
            && c in t.clients && t.clients[c].Leaving? && t.clients[c].key == s.clients[c].key
            && var k := s.clients[c].key;
               match s.clients[c].op
               case Load => t.clients[c].result == Loaded(Lookup(s.objects, k))
               case Save(data) => t.clients[c].result == Finished && Lookup(t.objects, k) == Some(data)
               case Delete => t.clients[c].result == Finished && Lookup(t.objects, k) == None
  {
    var s := run[|run| - 1];
    hide Run, LastSaved;
    var k := s.clients[c].key;
    match s.clients[c].op
    case Load =>
      var value := Lookup(s.objects, k);
      longer := Extend(run, Become(s, c, Leaving(k, Loaded(value))), c, LoadEnd(value));
    case Save(data) =>
      var t := Touch(Become(s, c, Leaving(k, Finished)), k).(
        objects := s.objects[k := data], log := s.log + [Saved(k, data)]);
      longer := Extend(run, t, c, SaveEnd);
    case Delete =>
      var t := Touch(Become(s, c, Leaving(k, Finished)), k).(
        objects := s.objects - {k}, log := s.log + [Deleted(k)]);
      longer := Extend(run, t, c, DeleteEnd);
  }

  /** Letting go. */
  lemma Leaves(run: seq<State>, c: nat) returns (longer: seq<State>)
    requires Run(run) && c in run[|run| - 1].clients && run[|run| - 1].clients[c].Leaving?
    ensures Run(longer) && run < longer
    ensures var s, t := run[|run| - 1], longer[|longer| - 1];
            c in t.clients && t.clients[c] == Done(s.clients[c].result) && t.objects == s.objects
            && s.clients[c].key !in t.locks
  {
    RunSafe(run, |run| - 1);
    hide Run, Undisturbed, UpToDate, LastSaved;
    var s := run[|run| - 1];
    var k, result := s.clients[c].key, s.clients[c].result;
    assert s.clients[c].Holds(k);
    var found := Become(s, c, Unlocking(k, result));
    longer := Extend(run, found, c, FindLock);
    longer := Extend(longer, Become(found, c, Done(result)).(locks := found.locks - {k}), c, RemoveLock);
  }

  /** From every state that a run comes to, a client that finds the lock free can go on to the end: a load then returns
      what was saved last, after a save or a delete the object is there or gone, and the lock is free again. */
  lemma Unhindered(run: seq<State>, c: nat) returns (longer: seq<State>)
    requires Run(run) && c in run[|run| - 1].clients && run[|run| - 1].clients[c].Waiting?
    requires run[|run| - 1].clients[c].key !in run[|run| - 1].locks
    ensures Run(longer) && run < longer && Served(run[|run| - 1], longer[|longer| - 1], c)
  {
    RunSafe(run, |run| - 1);
    hide Run, Exclusive, Undisturbed, LastSaved;
    var s := run[|run| - 1];
    var k := s.clients[c].key;
    assert Lookup(s.objects, k) == LastSaved(s.initial, s.log, k);
    longer := Starts(run, c);
    longer := Works(longer, c);
    longer := Leaves(longer, c);
  }

  // ---- A delete that removes nothing ----

  /** The states of a client alone that deletes an object, with the store refusing to. */
  function Refused(k: string, data: Data, n: nat): State
    requires n <= 5
  {
    var p := [Waiting(k, Delete), Entered(k, Delete), Active(k, Delete, 1), Leaving(k, Finished),
              Unlocking(k, Finished), Done(Finished)];
    State(if 1 <= n <= 4 then {k} else {}, map[k := data], if n < 2 then map[] else map[k := if n == 2 then 1 else 2],
          map[0 := p[n]], map[k := data], [])
  }

  function RefusedStep(n: nat): Step
    requires n < 5
  {
    [Lock, Begin, Fail(Finished), FindLock, RemoveLock][n]
  }

  lemma RefusedNext(k: string, data: Data, n: nat)
    requires n < 5
    ensures NextBy(Refused(k, data, n), Refused(k, data, n + 1), 0, RefusedStep(n))
  {
    var s, t := Refused(k, data, n), Refused(k, data, n + 1);
    assert {} + {k} == {k} && {k} - {k} == {};
  }

  /** Most errors of the store are passed over by a delete: it reports success, and the object is still there. */
  lemma SilentDelete(k: string, data: Data) returns (run: seq<State>)
    ensures Run(run)
    ensures var s := run[|run| - 1];
            0 in s.clients && s.clients[0] == Done(Finished) && run[0].clients == map[0 := Waiting(k, Delete)]
            && Lookup(s.objects, k) == Some(data)
  {
    run := seq(6, n requires 0 <= n < 6 => Refused(k, data, n));
    forall i | 0 <= i < |run| - 1
      ensures Next(run[i], run[i + 1])
    {
      RefusedNext(k, data, i);
    }
  }
}
