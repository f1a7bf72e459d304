/** A prefix index kept up to date by watching a key-value store (common/indexer/index.go). */
module Indexer {
  import opened Model

  /** The index keys under which an entry of the store is to be found. */
  type IndexFn = (string, string) -> seq<string>

  /** No index key belongs to entries with different keys. */
  ghost predicate NoCollisions(f: IndexFn) {
    forall k, v, k1, v1, x | x in f(k, v) && x in f(k1, v1) :: k == k1
  }

  /** The index maps exactly the index keys of the live entries, each to the key of its entry. */
  ghost predicate Accurate(f: IndexFn, db: map<string, string>, live: map<string, string>) {
    && (forall x | x in db :: db[x] in live && x in f(db[x], live[db[x]]))
    && (forall k, x | k in live && x in f(k, live[k]) :: x in db && db[x] == k)
  }

  predicate Covers(xs: seq<string>, ys: seq<string>) {
    forall y | y in ys :: y in xs
  }

  // ---- The watcher ----

  function SetAll(db: map<string, string>, xs: seq<string>, k: string): (r: map<string, string>)
    ensures forall x :: x in r <==> x in db || x in xs
    ensures forall x | x in r :: r[x] == if x in xs then k else db[x]
  {
    if xs == [] then db else SetAll(db, xs[..|xs| - 1], k)[xs[|xs| - 1] := k]
  }

  function DeleteAll(db: map<string, string>, xs: seq<string>): (r: map<string, string>)
    ensures forall x :: x in r <==> x in db && x !in xs
    ensures forall x | x in r :: r[x] == db[x]
  {
    if xs == [] then db else DeleteAll(db, xs[..|xs| - 1]) - {xs[|xs| - 1]}
  }

  datatype Entry = Entry(key: string, value: string)

  class Index {
    const indexFn: IndexFn
    var db: map<string, string>

    constructor (indexFn: IndexFn)
      ensures this.indexFn == indexFn && db == map[]
    {
      this.indexFn := indexFn;
      db := map[];
    }

    method HandlePut(u: Entry)
      modifies this
      ensures db == SetAll(old(db), indexFn(u.key, u.value), u.key)
    {
      var indexKeys := indexFn(u.key, u.value);
      for i := 0 to |indexKeys|
        invariant db == SetAll(old(db), indexKeys[..i], u.key)
      {
        assert indexKeys[..i + 1][..i] == indexKeys[..i];
        db := db[indexKeys[i] := u.key];
      }
      assert indexKeys[..|indexKeys|] == indexKeys;
    }

    /** The entry deleted is taken to be the one before the last in the history of the key. */
    method HandleDelete(history: seq<Entry>)
      requires |history| >= 2
      modifies this
      ensures var last := history[|history| - 2];
              db == DeleteAll(old(db), indexFn(last.key, last.value))
    {
      var last := history[|history| - 2];
      var indexKeys := indexFn(last.key, last.value);
      for i := 0 to |indexKeys|
        invariant db == DeleteAll(old(db), indexKeys[..i])
      {
        assert indexKeys[..i + 1][..i] == indexKeys[..i];
        db := db - {indexKeys[i]};
      }
      assert indexKeys[..|indexKeys|] == indexKeys;
    }

    /** The watcher's loop over the log of the store. The i-th operation is handled when the log has got as far as
        `seen[i]`. The loop fails when the history of a removed key holds less than two revisions. */
    method Watch(log: seq<Op>, depth: nat, seen: seq<nat>) returns (ok: bool)
      requires db == map[] && Seen(log, seen)
      modifies this
      ensures ok <==> HistoriesLongEnough(log, depth, seen)
      ensures ok ==> db == IndexAfter(indexFn, EventsOf(log, depth, seen, |log|))
    {
      hide SetAll, DeleteAll, History;
      assert EventsOf(log, depth, seen, 0) == [];
      hide EventsOf;
      for i := 0 to |log|
        invariant db == IndexAfter(indexFn, EventsOf(log, depth, seen, i))
        invariant forall j | 0 <= j < i && log[j].Remove? :: |History(log[..seen[j]], log[j].key, depth)| >= 2
      {
        match log[i] {
          case Write(key, value) => HandlePut(Entry(key, value));
          case Remove(key) =>
            var history := History(log[..seen[i]], key, depth);
            if |history| < 2 {
              return false;
            }
            HandleDelete(history);
        }
        EventsStep(log, depth, seen, i);
      }
      return true;
    }

    /** Goes through the index keys in order, from the first that is not below the prefix while they have it, and
        looks up their entries in the store. */
    method Fetch(order: seq<string>, prefix: string, store: map<string, string>) returns (ret: seq<Entry>)
      requires InOrder(order) && forall x :: x in order <==> x in db
      ensures ret == Entries(db, store, Matching(order, prefix))
    {
      var i := 0;
      while i < |order| && !LexLe(prefix, order[i])
        invariant 0 <= i <= |order| && Matching(order[..i], prefix) == []
      {
        NotBelow(prefix, order[i]);
        MatchingStep(order, i, prefix);
        i := i + 1;
      }
      ret := [];
      ghost var start := i;
      while i < |order| && prefix <= order[i]
        invariant start <= i <= |order|
        invariant ret == Entries(db, store, Matching(order[..i], prefix))
      {
        MatchingStep(order, i, prefix);
        EntriesStep(db, store, Matching(order[..i], prefix), order[i]);
        var val := db[order[i]];
        if val in store {
          ret := ret + [Entry(val, store[val])];
        }
        i := i + 1;
      }
      NoneBeyond(order, start, i, prefix);
    }
  }

  // ---- The store ----

  /** What was done to the store. */
  datatype Op = Write(key: string, value: string) | Remove(key: string)

  /** The revision an operation makes; that of a removal has no value. */
  function Revision(op: Op): Entry {
    match op
    case Write(key, value) => Entry(key, value)
    case Remove(key) => Entry(key, "")
  }

  function LiveOf(log: seq<Op>): (live: map<string, string>) {
    if log == [] then map[]
    else
      var live := LiveOf(log[..|log| - 1]);
      match log[|log| - 1]
      case Write(key, value) => live[key := value]
      case Remove(key) => live - {key}
  }

  function Revisions(log: seq<Op>, key: string): (revisions: seq<Entry>)
    ensures forall i | 0 <= i < |revisions| :: revisions[i].key == key
  {
    if log == [] then []
    else
      var op := log[|log| - 1];
      Revisions(log[..|log| - 1], key) + if op.key == key then [Revision(op)] else []
  }

  /** The store keeps so many of the last revisions of a key. */
  function History(log: seq<Op>, key: string, depth: nat): (revisions: seq<Entry>)
    ensures forall i | 0 <= i < |revisions| :: revisions[i].key == key
  {
    var all := Revisions(log, key);
    if |all| <= depth then all else all[|all| - depth..]
  }

  /** An operation is handled after it was done. */
  predicate Seen(log: seq<Op>, seen: seq<nat>) {
    |seen| == |log| && forall i | 0 <= i < |log| :: i < seen[i] <= |log|
  }

  predicate HistoriesLongEnough(log: seq<Op>, depth: nat, seen: seq<nat>)
    requires Seen(log, seen)
  {
    forall i | 0 <= i < |log| && log[i].Remove? :: |History(log[..seen[i]], log[i].key, depth)| >= 2
  }

  /** What the watcher makes of the first n operations. */
  function EventsOf(log: seq<Op>, depth: nat, seen: seq<nat>, n: nat): (events: seq<Event>)
    requires Seen(log, seen) && n <= |log|
    ensures |events| == n
  {
    if n == 0 then [] else EventsOf(log, depth, seen, n - 1) + [EventOf(log, depth, seen, n - 1)]
  }

  function EventOf(log: seq<Op>, depth: nat, seen: seq<nat>, i: nat): (event: Event)
    requires Seen(log, seen) && i < |log|
  {
    match log[i]
    case Write(key, value) => Put(Entry(key, value))
    case Remove(key) =>
      var history := History(log[..seen[i]], key, depth);
      Deletion(if |history| >= 2 then history[|history| - 2] else Entry(key, ""))
  }

  lemma EventsStep(log: seq<Op>, depth: nat, seen: seq<nat>, i: nat)
    requires Seen(log, seen) && i < |log|
    ensures EventsOf(log, depth, seen, i + 1)[..i] == EventsOf(log, depth, seen, i)
    ensures EventsOf(log, depth, seen, i + 1)[i] == EventOf(log, depth, seen, i)
  {
  }

  // ---- The order of index keys ----

  /** Lexicographic order. */
  predicate LexLe(a: string, b: string) {
    a == [] || (b != [] && (a[0] < b[0] || (a[0] == b[0] && LexLe(a[1..], b[1..]))))
  }

  /** One text is a beginning of the other, or has the smaller character where they first differ. */
  lemma {:induction false} LexLeIff(a: string, b: string)
    ensures LexLe(a, b) <==> a <= b || exists n :: 0 <= n < |a| && n < |b| && a[..n] == b[..n] && a[n] < b[n]
    decreases |a|
  {
    forall n | 0 < n < |a| && n < |b| && a[..n] == b[..n]
      ensures a[0] == b[0]
    {
      assert a[..n][0] == b[..n][0];
    }
    if a != "" && b != "" && a[0] == b[0] {
      LexLeIff(a[1..], b[1..]);
      assert a == [a[0]] + a[1..] && b == [b[0]] + b[1..];
      if n :| 0 <= n < |a[1..]| && n < |b[1..]| && a[1..][..n] == b[1..][..n] && a[1..][n] < b[1..][n] {
        assert a[..n + 1] == [a[0]] + a[1..][..n] && b[..n + 1] == [b[0]] + b[1..][..n];
        assert a[n + 1] < b[n + 1];
      }
      if n :| 0 <= n < |a| && n < |b| && a[..n] == b[..n] && a[n] < b[n] {
        assert n > 0 && a[1..][..n - 1] == a[..n][1..] && b[1..][..n - 1] == b[..n][1..];
        assert a[1..][n - 1] < b[1..][n - 1];
      }
    } else if a != "" && b != "" && a[0] < b[0] {
      assert a[..0] == b[..0] && a[0] < b[0];
    }
  }

  predicate InOrder(order: seq<string>) {
    forall i, j | 0 <= i < j < |order| :: LexLe(order[i], order[j]) && order[i] != order[j]
  }

  function Matching(order: seq<string>, prefix: string): (r: seq<string>) {
    if order == [] then []
    else Matching(order[..|order| - 1], prefix) + (if prefix <= order[|order| - 1] then [order[|order| - 1]] else [])
  }

  /** The entries of the store that index keys lead to, one for every index key. */
  function Entries(db: map<string, string>, store: map<string, string>, xs: seq<string>): (r: seq<Entry>) {
    if xs == [] then []
    else
      var x := xs[|xs| - 1];
      Entries(db, store, xs[..|xs| - 1]) + (if x in db && db[x] in store then [Entry(db[x], store[db[x]])] else [])
  }

  lemma MatchingStep(order: seq<string>, i: nat, prefix: string)
    requires i < |order|
    ensures Matching(order[..i + 1], prefix) == Matching(order[..i], prefix) + if prefix <= order[i] then [order[i]]
            else []
  {
    assert order[..i + 1][..i] == order[..i];
  }

  lemma EntriesStep(db: map<string, string>, store: map<string, string>, xs: seq<string>, x: string)
    ensures Entries(db, store, xs + [x])
            == Entries(db, store, xs) + if x in db && db[x] in store then [Entry(db[x], store[db[x]])] else []
  {
    assert (xs + [x])[..|xs|] == xs;
  }

  /** A key with the prefix is not below it. */
  lemma {:induction false} NotBelow(prefix: string, x: string)
    ensures prefix <= x ==> LexLe(prefix, x)
  {
    if prefix <= x && prefix != [] {
      NotBelow(prefix[1..], x[1..]);
    }
  }

  /** Between the prefix and a key that has it, every key has it. */
  lemma {:induction false} PrefixBetween(prefix: string, x: string, y: string)
    requires LexLe(prefix, x) && LexLe(x, y) && prefix <= y
    ensures prefix <= x
  {
    if prefix != [] {
      PrefixBetween(prefix[1..], x[1..], y[1..]);
      assert prefix == [prefix[0]] + prefix[1..] && x == [x[0]] + x[1..];
    }
  }

  /** Once a key without the prefix is reached, none with it follows. */
  lemma {:induction false} NoneBeyond(order: seq<string>, start: nat, i: nat, prefix: string)
    requires InOrder(order) && start <= i <= |order|
    requires start == |order| || LexLe(prefix, order[start])
    requires i == |order| || !(prefix <= order[i])
    ensures Matching(order, prefix) == Matching(order[..i], prefix)
  {
    if i == |order| {
      assert order[..i] == order;
    } else {
      NoneFrom(order, start, i, |order|, prefix);
      assert order[..|order|] == order;
    }
  }

  lemma {:induction false} NoneFrom(order: seq<string>, start: nat, i: nat, n: nat, prefix: string)
    requires InOrder(order) && start <= i < n <= |order| && LexLe(prefix, order[start]) && !(prefix <= order[i])
    ensures Matching(order[..n], prefix) == Matching(order[..i], prefix)
    decreases n
  {
    MatchingStep(order, n - 1, prefix);
    if n - 1 > i {
      NoneFrom(order, start, i, n - 1, prefix);
      if prefix <= order[n - 1] {
        LexTransitive(prefix, order[start], order[i]);
        PrefixBetween(prefix, order[i], order[n - 1]);
      }
    }
  }

  lemma {:induction false} LexTransitive(a: string, b: string, c: string)
    requires LexLe(a, b) && (b == c || LexLe(b, c))
    ensures LexLe(a, c)
  {
    if a != [] && b != c && a[0] == b[0] == c[0] {
      LexTransitive(a[1..], b[1..], c[1..]);
    }
  }

  // ---- What the index promises ----

  lemma SameOwner(f: IndexFn, k: string, v: string, k1: string, v1: string, x: string)
    requires NoCollisions(f) && x in f(k, v) && x in f(k1, v1)
    ensures k == k1
  {
  }

  lemma AccurateFor(f: IndexFn, db: map<string, string>, live: map<string, string>, k: string, x: string)
    requires Accurate(f, db, live) && k in live && x in f(k, live[k])
    ensures x in db && db[x] == k
  {
  }

  lemma PutKeepsAccurate(f: IndexFn, db: map<string, string>, live: map<string, string>, u: Entry)
    requires NoCollisions(f) && Accurate(f, db, live)
    requires u.key in live ==> Covers(f(u.key, u.value), f(u.key, live[u.key]))
    ensures Accurate(f, SetAll(db, f(u.key, u.value), u.key), live[u.key := u.value])
  {
    hide NoCollisions, SetAll, Accurate;
    var xs := f(u.key, u.value);
    var db1, live1 := SetAll(db, xs, u.key), live[u.key := u.value];
    forall x | x in db1
      ensures db1[x] in live1 && x in f(db1[x], live1[db1[x]])
    {
      if x !in xs {
        AccurateAt(f, db, live, x);
      }
    }
    forall k, x | k in live1 && x in f(k, live1[k])
      ensures x in db1 && db1[x] == k
    {
      if k != u.key {
        AccurateFor(f, db, live, k, x);
        if x in xs {
          SameOwner(f, k, live1[k], u.key, u.value, x);
        }
      }
    }
    AccurateWhen(f, db1, live1);
  }

  lemma AccurateWhen(f: IndexFn, db: map<string, string>, live: map<string, string>)
    requires forall x | x in db :: db[x] in live && x in f(db[x], live[db[x]])
    requires forall k, x | k in live && x in f(k, live[k]) :: x in db && db[x] == k
    ensures Accurate(f, db, live)
  {
  }

  /** After a put the index is accurate if and only if the entry it replaces had no index key that the new one lacks. */
  lemma PutKeepsAccurateIff(f: IndexFn, db: map<string, string>, live: map<string, string>, u: Entry)
    requires NoCollisions(f) && Accurate(f, db, live)
    ensures Accurate(f, SetAll(db, f(u.key, u.value), u.key), live[u.key := u.value])
            <==> (u.key in live ==> Covers(f(u.key, u.value), f(u.key, live[u.key])))
  {
    hide NoCollisions, SetAll;
    var db1, live1 := SetAll(db, f(u.key, u.value), u.key), live[u.key := u.value];
    if u.key in live ==> Covers(f(u.key, u.value), f(u.key, live[u.key])) {
      hide Accurate;
      PutKeepsAccurate(f, db, live, u);
    } else {
      var y :| y in f(u.key, live[u.key]) && y !in f(u.key, u.value);
      assert y in db1 && db1[y] == u.key && live1[u.key] == u.value;
    }
  }

  lemma DeleteKeepsAccurate(f: IndexFn, db: map<string, string>, live: map<string, string>, last: Entry)
    requires NoCollisions(f) && Accurate(f, db, live)
    requires last.key in live ==> Covers(f(last.key, last.value), f(last.key, live[last.key]))
    ensures Accurate(f, DeleteAll(db, f(last.key, last.value)), live - {last.key})
  {
    hide NoCollisions, DeleteAll;
    var xs := f(last.key, last.value);
    var db1, live1 := DeleteAll(db, xs), live - {last.key};
    forall k, x | k in live1 && x in f(k, live1[k])
      ensures x in db1 && db1[x] == k
    {
      assert k in live && live[k] == live1[k];
      assert x in db && db[x] == k;
      if x in xs {
        SameOwner(f, k, live1[k], last.key, last.value, x);
      }
    }
  }

  /** After a delete the index is accurate if and only if the entry found in the history has all the index keys of the
      one deleted. */
  lemma DeleteKeepsAccurateIff(f: IndexFn, db: map<string, string>, live: map<string, string>, last: Entry)
    requires NoCollisions(f) && Accurate(f, db, live)
    ensures Accurate(f, DeleteAll(db, f(last.key, last.value)), live - {last.key})
            <==> (last.key in live ==> Covers(f(last.key, last.value), f(last.key, live[last.key])))
  {
    hide NoCollisions, DeleteAll;
    var db1 := DeleteAll(db, f(last.key, last.value));
    if last.key in live ==> Covers(f(last.key, last.value), f(last.key, live[last.key])) {
      hide Accurate;
      DeleteKeepsAccurate(f, db, live, last);
    } else {
      var y :| y in f(last.key, live[last.key]) && y !in f(last.key, last.value);
      assert y in db1 && db1[y] == last.key;
    }
  }

  /** What the watcher is told: a put, or a delete with the entry that the history gives for it. */
  datatype Event = Put(entry: Entry) | Deletion(last: Entry)

  function LiveAfter(events: seq<Event>): (live: map<string, string>) {
    if events == [] then map[]
    else
      var live := LiveAfter(events[..|events| - 1]);
      match events[|events| - 1]
      case Put(u) => live[u.key := u.value]
      case Deletion(last) => live - {last.key}
  }

  function IndexAfter(f: IndexFn, events: seq<Event>): (db: map<string, string>) {
    if events == [] then map[]
    else
      var db := IndexAfter(f, events[..|events| - 1]);
      match events[|events| - 1]
      case Put(u) => SetAll(db, f(u.key, u.value), u.key)
      case Deletion(last) => DeleteAll(db, f(last.key, last.value))
  }

  /** The event drops no index key of the live entry it replaces or removes. */
  predicate SteadyAt(f: IndexFn, live: map<string, string>, event: Event) {
    var e := if event.Put? then event.entry else event.last;
    e.key in live ==> Covers(f(e.key, e.value), f(e.key, live[e.key]))
  }

  predicate Steady(f: IndexFn, events: seq<Event>) {
    forall i | 0 <= i < |events| :: SteadyAt(f, LiveAfter(events[..i]), events[i])
  }

  ghost predicate AccurateAfter(f: IndexFn, events: seq<Event>) {
    Accurate(f, IndexAfter(f, events), LiveAfter(events))
  }

  ghost predicate AlwaysAccurate(f: IndexFn, events: seq<Event>) {
    forall i | 0 <= i <= |events| :: AccurateAfter(f, events[..i])
  }

  lemma StepAccurateIff(f: IndexFn, events: seq<Event>)
    requires NoCollisions(f) && events != []
    requires AccurateAfter(f, events[..|events| - 1])
    ensures AccurateAfter(f, events) <==> SteadyAt(f, LiveAfter(events[..|events| - 1]), events[|events| - 1])
  {
    hide NoCollisions, Accurate, SetAll, DeleteAll, Covers;
    var db, live := IndexAfter(f, events[..|events| - 1]), LiveAfter(events[..|events| - 1]);
    match events[|events| - 1] {
      case Put(u) => PutKeepsAccurateIff(f, db, live, u);
      case Deletion(last) => DeleteKeepsAccurateIff(f, db, live, last);
    }
  }

  /** The index is accurate after every one of the events if and only if none of them drops an index key. */
  lemma {:induction false} AlwaysAccurateIffSteady(f: IndexFn, events: seq<Event>)
    requires NoCollisions(f)
    ensures AlwaysAccurate(f, events) <==> Steady(f, events)
  {
    hide NoCollisions, AccurateAfter, Steady, SteadyAt, LiveAfter, AlwaysAccurate;
    if events == [] {
      EmptyIsAccurate(f);
    } else {
      AlwaysAccurateIffSteady(f, events[..|events| - 1]);
      LastEvent(f, events);
      if AlwaysAccurate(f, events[..|events| - 1]) {
        StepAccurateIff(f, events);
      }
    }
  }

  lemma EmptyIsAccurate(f: IndexFn)
    ensures AlwaysAccurate(f, []) && Steady(f, [])
  {
    var none: seq<Event> := [];
    assert none[..0] == none;
  }

  lemma LastEvent(f: IndexFn, events: seq<Event>)
    requires events != []
    ensures AlwaysAccurate(f, events) <==> AlwaysAccurate(f, events[..|events| - 1]) && AccurateAfter(f, events)
    ensures AlwaysAccurate(f, events[..|events| - 1]) ==> AccurateAfter(f, events[..|events| - 1])
    ensures Steady(f, events) <==>
            Steady(f, events[..|events| - 1]) && SteadyAt(f, LiveAfter(events[..|events| - 1]), events[|events| - 1])
  {
    hide AccurateAfter, LiveAfter, SteadyAt;
    LastAccurate(f, events, |events| - 1);
    LastSteady(f, events, |events| - 1);
  }

  lemma LastAccurate(f: IndexFn, events: seq<Event>, n: nat)
    requires n + 1 == |events|
    ensures AlwaysAccurate(f, events) <==> AlwaysAccurate(f, events[..n]) && AccurateAfter(f, events)
    ensures AlwaysAccurate(f, events[..n]) ==> AccurateAfter(f, events[..n])
  {
    hide AccurateAfter;
    var before := events[..n];
    assert forall i | 0 <= i <= n :: before[..i] == events[..i];
    assert events[..n + 1] == events && before[..n] == before;
  }

  lemma LastSteady(f: IndexFn, events: seq<Event>, n: nat)
    requires n + 1 == |events|
    ensures Steady(f, events) <==> Steady(f, events[..n]) && SteadyAt(f, LiveAfter(events[..n]), events[n])
  {
    hide LiveAfter, SteadyAt;
    var before := events[..n];
    assert forall i | 0 <= i < n :: before[..i] == events[..i] && before[i] == events[i];
  }

  // ---- A watcher that keeps up ----

  /** No removal of a key never heard of before, and none handled only after the key was touched again. */
  predicate KeptUp(log: seq<Op>, seen: seq<nat>)
    requires Seen(log, seen)
  {
    forall i | 0 <= i < |log| && log[i].Remove? ::
      Revisions(log[..i], log[i].key) != []
        && Revisions(log[..seen[i]], log[i].key) == Revisions(log[..i + 1], log[i].key)
  }

  lemma {:induction false} LiveIsLastRevision(log: seq<Op>, key: string)
    requires key in LiveOf(log)
    ensures var all := Revisions(log, key);
            all != [] && all[|all| - 1] == Entry(key, LiveOf(log)[key])
  {
    var n := |log| - 1;
    if log[n].key != key {
      LiveIsLastRevision(log[..n], key);
    }
  }

  /** A watcher that keeps up with a store of at least two revisions finds in the history the revision removed. */
  lemma KeptUpFinds(log: seq<Op>, depth: nat, seen: seq<nat>, i: nat)
    requires Seen(log, seen) && KeptUp(log, seen) && depth >= 2 && i < |log| && log[i].Remove?
    ensures var history, before := History(log[..seen[i]], log[i].key, depth), Revisions(log[..i], log[i].key);
            |history| >= 2 && before != [] && history[|history| - 2] == before[|before| - 1]
  {
    assert log[..i + 1][..i] == log[..i] && log[..i + 1][i] == log[i];
  }

  lemma {:induction false} EventsKeepLive(log: seq<Op>, depth: nat, seen: seq<nat>, n: nat)
    requires Seen(log, seen) && n <= |log|
    ensures LiveAfter(EventsOf(log, depth, seen, n)) == LiveOf(log[..n])
  {
    if n > 0 {
      hide History, EventsOf, EventOf;
      EventsKeepLive(log, depth, seen, n - 1);
      EventsStep(log, depth, seen, n - 1);
      EventTells(log, depth, seen, n - 1);
      assert log[..n][..n - 1] == log[..n - 1] && log[..n][n - 1] == log[n - 1];
    }
  }

  lemma EventTells(log: seq<Op>, depth: nat, seen: seq<nat>, i: nat)
    requires Seen(log, seen) && i < |log|
    ensures match EventOf(log, depth, seen, i)
            case Put(e) => log[i] == Write(e.key, e.value)
            case Deletion(last) => log[i] == Remove(last.key)
  {
    hide History;
  }

  /** No write drops an index key of the live entry that it replaces. */
  predicate WritesSteady(f: IndexFn, log: seq<Op>) {
    forall i | 0 <= i < |log| && log[i].Write? ::
      var live := LiveOf(log[..i]);
      log[i].key in live ==> Covers(f(log[i].key, log[i].value), f(log[i].key, live[log[i].key]))
  }

  lemma {:induction false} EventAt(log: seq<Op>, depth: nat, seen: seq<nat>, n: nat, i: nat)
    requires Seen(log, seen) && i < n <= |log|
    ensures EventsOf(log, depth, seen, n)[i] == EventOf(log, depth, seen, i)
    ensures EventsOf(log, depth, seen, n)[..i] == EventsOf(log, depth, seen, i)
  {
    hide EventOf;
    EventsStep(log, depth, seen, n - 1);
    if i < n - 1 {
      EventAt(log, depth, seen, n - 1, i);
      assert EventsOf(log, depth, seen, n)[..i] == EventsOf(log, depth, seen, n)[..n - 1][..i];
    }
  }

  lemma SteadyOf(f: IndexFn, log: seq<Op>, depth: nat, seen: seq<nat>, i: nat)
    requires Seen(log, seen) && KeptUp(log, seen) && depth >= 2 && i < |log|
    ensures SteadyAt(f, LiveOf(log[..i]), EventOf(log, depth, seen, i)) <==>
            (log[i].Write? && log[i].key in LiveOf(log[..i]) ==>
               Covers(f(log[i].key, log[i].value), f(log[i].key, LiveOf(log[..i])[log[i].key])))
  {
    hide KeptUp, History, LiveOf;
    if log[i].Remove? {
      KeptUpFinds(log, depth, seen, i);
      if log[i].key in LiveOf(log[..i]) {
        LiveIsLastRevision(log[..i], log[i].key);
      }
    }
  }

  /** With a watcher that keeps up and a store of at least two revisions, the watcher never fails, and the index is
      accurate after every operation if and only if no write drops an index key of the entry that it replaces. */
  lemma KeptUpAccurateIffWritesSteady(f: IndexFn, log: seq<Op>, depth: nat, seen: seq<nat>)
    requires NoCollisions(f) && Seen(log, seen) && KeptUp(log, seen) && depth >= 2
    ensures HistoriesLongEnough(log, depth, seen)
    ensures AlwaysAccurate(f, EventsOf(log, depth, seen, |log|)) <==> WritesSteady(f, log)
  {
    hide NoCollisions, AlwaysAccurate, KeptUp, SteadyAt, LiveOf, LiveAfter, EventOf, History, EventsOf, Covers;
    var events := EventsOf(log, depth, seen, |log|);
    AlwaysAccurateIffSteady(f, events);
    forall i | 0 <= i < |log|
      ensures log[i].Remove? ==> |History(log[..seen[i]], log[i].key, depth)| >= 2
      ensures SteadyAt(f, LiveAfter(events[..i]), events[i]) <==>
              (log[i].Write? && log[i].key in LiveOf(log[..i]) ==>
                 Covers(f(log[i].key, log[i].value), f(log[i].key, LiveOf(log[..i])[log[i].key])))
    {
      if log[i].Remove? {
        KeptUpFinds(log, depth, seen, i);
      }
      EventAt(log, depth, seen, |log|, i);
      EventsKeepLive(log, depth, seen, i);
      SteadyOf(f, log, depth, seen, i);
    }
  }

  /** With an accurate index and the store unchanged, every match leads to a live entry that has the index key. */
  lemma {:induction false} FetchedAreLive(f: IndexFn, db: map<string, string>, live: map<string, string>,
                                          xs: seq<string>)
    requires Accurate(f, db, live) && forall x | x in xs :: x in db
    ensures |Entries(db, live, xs)| == |xs|
    ensures forall i | 0 <= i < |xs| ::
              var e := Entries(db, live, xs)[i];
              xs[i] in db && e.key == db[xs[i]] && e.key in live && e.value == live[e.key] && xs[i] in f(e.key, e.value)
  {
    hide Accurate;
    if xs != [] {
      var n := |xs| - 1;
      FetchedAreLive(f, db, live, xs[..n]);
      AccurateAt(f, db, live, xs[n]);
    }
  }

  lemma AccurateAt(f: IndexFn, db: map<string, string>, live: map<string, string>, x: string)
    requires Accurate(f, db, live) && x in db
    ensures db[x] in live && x in f(db[x], live[db[x]])
  {
  }

  /** The matches are exactly the index keys with the prefix, each once and in order. */
  lemma {:induction false} MatchingIff(order: seq<string>, prefix: string, x: string)
    requires InOrder(order)
    ensures x in Matching(order, prefix) <==> x in order && prefix <= x
    ensures InOrder(Matching(order, prefix))
  {
    if order != [] {
      var n := |order| - 1;
      MatchingIff(order[..n], prefix, x);
      assert order == order[..n] + [order[n]];
      forall y | y in Matching(order[..n], prefix)
        ensures LexLe(y, order[n]) && y != order[n]
      {
        MatchingIff(order[..n], prefix, y);
      }
    }
  }

  /** What a fetch yields once the watcher has handled the whole log: for every index key with the prefix, in order and
      once each, the live entry that has it; and so for every index key with the prefix of every live entry. */
  lemma FetchFindsExactly(f: IndexFn, log: seq<Op>, depth: nat, seen: seq<nat>, order: seq<string>, prefix: string)
    requires NoCollisions(f) && Seen(log, seen) && KeptUp(log, seen) && depth >= 2 && WritesSteady(f, log)
    requires InOrder(order) && forall x :: x in order <==> x in IndexAfter(f, EventsOf(log, depth, seen, |log|))
    ensures var live, xs := LiveOf(log), Matching(order, prefix);
            var found := Entries(IndexAfter(f, EventsOf(log, depth, seen, |log|)), live, xs);
            && |found| == |xs| && InOrder(xs)
            && (forall i | 0 <= i < |xs| ::
                  && prefix <= xs[i] && found[i].key in live && found[i].value == live[found[i].key]
                  && xs[i] in f(found[i].key, found[i].value))
            && (forall key, x | key in live && x in f(key, live[key]) && prefix <= x ::
                  exists i :: 0 <= i < |xs| && xs[i] == x && found[i].key == key)
  {
    hide NoCollisions, KeptUp, LiveOf, IndexAfter, EventsOf, WritesSteady, Accurate, Matching, Entries, InOrder, Seen;
    var events, live := EventsOf(log, depth, seen, |log|), LiveOf(log);
    var db, xs := IndexAfter(f, events), Matching(order, prefix);
    AccurateAtEnd(f, log, depth, seen);
    forall x
      ensures x in xs <==> x in db && prefix <= x
    {
      MatchingIff(order, prefix, x);
    }
    MatchingIff(order, prefix, prefix);
    FetchedAreLive(f, db, live, xs);
    var found := Entries(db, live, xs);
    assert forall i | 0 <= i < |xs| :: xs[i] in xs;
    forall key, x | key in live && x in f(key, live[key]) && prefix <= x
      ensures exists i :: 0 <= i < |xs| && xs[i] == x && found[i].key == key
    {
      AccurateFor(f, db, live, key, x);
      var i :| 0 <= i < |xs| && xs[i] == x;
      assert found[i].key == key;
    }
  }

  lemma AccurateAtEnd(f: IndexFn, log: seq<Op>, depth: nat, seen: seq<nat>)
    requires NoCollisions(f) && Seen(log, seen) && KeptUp(log, seen) && depth >= 2 && WritesSteady(f, log)
    ensures Accurate(f, IndexAfter(f, EventsOf(log, depth, seen, |log|)), LiveOf(log))
  {
    hide NoCollisions, KeptUp, LiveOf, LiveAfter, IndexAfter, EventsOf, WritesSteady, Accurate;
    var events := EventsOf(log, depth, seen, |log|);
    KeptUpAccurateIffWritesSteady(f, log, depth, seen);
    assert AccurateAfter(f, events[..|events|]) && events[..|events|] == events;
    EventsKeepLive(log, depth, seen, |log|);
    assert log[..|log|] == log;
  }

  // ---- Stale index keys ----

  /** Entries with the value "x" are found under their own key, others not at all. */
  function Marked(key: string, value: string): seq<string> {
    if value == "x" then [key] else []
  }

  /** A write that drops an index key leaves it in the index, though no two entries share one. */
  lemma DroppedKeyIsStale()
    ensures NoCollisions(Marked)
    ensures !AccurateAfter(Marked, [Put(Entry("a", "x")), Put(Entry("a", "y"))])
  {
    var e1, e2 := Put(Entry("a", "x")), Put(Entry("a", "y"));
    assert [e1, e2][..1] == [e1] && [e1][..0] == [];
    var db := SetAll(map[], Marked("a", "x"), "a");
    assert IndexAfter(Marked, [e1]) == db && "a" in db;
    assert LiveAfter([e1]) == map["a" := "x"];
    assert LiveAfter([e1, e2]) == map["a" := "y"];
    assert IndexAfter(Marked, [e1, e2]) == SetAll(db, Marked("a", "y"), "a");
  }

  const TOUCHED := [Write("a", "x"), Remove("a"), Write("a", "y")]

  lemma TouchedPrefixes()
    ensures TOUCHED[..0] == [] && TOUCHED[..3] == TOUCHED
    ensures TOUCHED[..1][..0] == TOUCHED[..0] && TOUCHED[..2][..1] == TOUCHED[..1] && TOUCHED[..3][..2] == TOUCHED[..2]
  {
  }

  lemma TouchedRevisions()
    ensures Revisions(TOUCHED[..3], "a") == [Entry("a", "x"), Entry("a", ""), Entry("a", "y")]
  {
    TouchedPrefixes();
    assert Revisions(TOUCHED[..1], "a") == [Entry("a", "x")];
    assert Revisions(TOUCHED[..2], "a") == [Entry("a", "x"), Entry("a", "")];
  }

  lemma TouchedLive()
    ensures LiveOf(TOUCHED[..0]) == map[] && LiveOf(TOUCHED[..1]) == map["a" := "x"] && LiveOf(TOUCHED[..2]) == map[]
  {
    TouchedPrefixes();
    assert LiveOf(TOUCHED[..0]) == map[];
    assert LiveOf(TOUCHED[..1]) == map["a" := "x"];
  }

  lemma TouchedEvent()
    ensures var seen: seq<nat> := [1, 3, 3];
            && Seen(TOUCHED, seen) && HistoriesLongEnough(TOUCHED, 5, seen)
            && EventOf(TOUCHED, 5, seen, 1) == Deletion(Entry("a", ""))
  {
    TouchedRevisions();
    hide Revisions;
    assert Seen(TOUCHED, [1, 3, 3]);
  }

  /** A watcher that lags behind takes the removal itself for the revision removed. It does not fail, no write drops an
      index key, and yet the index does not stay accurate. */
  lemma LateWatcherMisses()
    ensures var seen: seq<nat> := [1, 3, 3];
            && Seen(TOUCHED, seen) && WritesSteady(Marked, TOUCHED) && HistoriesLongEnough(TOUCHED, 5, seen)
            && !AlwaysAccurate(Marked, EventsOf(TOUCHED, 5, seen, 3))
  {
    var seen: seq<nat> := [1, 3, 3];
    TouchedEvent();
    TouchedSteady();
    MarkedApart();
    hide LiveOf, EventsOf, EventOf, AlwaysAccurate, NoCollisions, LiveAfter, HistoriesLongEnough, Seen, Steady,
      WritesSteady, Marked;
    AlwaysAccurateIffSteady(Marked, EventsOf(TOUCHED, 5, seen, 3));
    TouchedUnsteady(seen);
  }

  lemma TouchedSteady()
    ensures WritesSteady(Marked, TOUCHED)
  {
    TouchedLive();
    hide LiveOf;
  }

  lemma TouchedUnsteady(seen: seq<nat>)
    requires Seen(TOUCHED, seen) && HistoriesLongEnough(TOUCHED, 5, seen)
    requires EventOf(TOUCHED, 5, seen, 1) == Deletion(Entry("a", ""))
    ensures !Steady(Marked, EventsOf(TOUCHED, 5, seen, 3))
  {
    TouchedLive();
    hide LiveOf, EventsOf, EventOf, LiveAfter, HistoriesLongEnough, Seen;
    EventAt(TOUCHED, 5, seen, 3, 1);
    EventsKeepLive(TOUCHED, 5, seen, 1);
    assert "a" in Marked("a", "x") && "a" !in Marked("a", "");
  }

  lemma MarkedApart()
    ensures NoCollisions(Marked)
  {
  }
}
