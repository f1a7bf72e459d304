/** Retrying a job whose handler fails: the delay before the next delivery, what a delivery does to its message, and
    the whole life of a job (client/backoff.go and the message loop of Process in common/natsutil.go). */
module Retry {
  import opened Arithmetic
  import opened Model

  // ---- The delay, in nanoseconds ----

  const MILLISECOND := 1_000_000
  const SECOND := 1_000_000_000
  const TWO63 := 0x8000_0000_0000_0000

  datatype Strategy = Linear | Exponential

  datatype Settings = Settings(strategy: Strategy, initMilli: int, intervalMilli: int, maxMilli: int)

  function Pow2(k: nat): (p: nat)
    ensures p >= 1
  {
    if k == 0 then 1 else 2 * Pow2(k - 1)
  }

  /** A signed 64-bit integer. */
  function Wrap(x: int): (r: int)
    ensures -TWO63 <= r < TWO63
    ensures -TWO63 <= x < TWO63 ==> r == x
  {
    (x + TWO63) % (2 * TWO63) - TWO63
  }

  /** The power of two that comes from a floating-point number. What an out-of-range conversion yields is up to the
      machine. */
  function PowInt64(k: int, outOfRange: int): int {
    if k < 0 then 0 else if k < 63 then Pow2(k) else outOfRange
  }

  /** The delay before the age of the job is looked at, in 64-bit arithmetic. */
  function BeforeAge(s: Settings, deliveryCount: int, outOfRange: int): (offset: int) {
    var initial := Wrap(s.initMilli * MILLISECOND);
    var interval0 := Wrap(s.intervalMilli * MILLISECOND);
    var ceiling0 := Wrap(s.maxMilli * MILLISECOND);
    var interval := if interval0 == 0 then SECOND else interval0;
    var ceiling := if ceiling0 < interval then interval else ceiling0;
    if deliveryCount > 1 then
      var raw := if s.strategy.Linear? then Wrap(initial + Wrap(interval * (deliveryCount - 1)))
                 else Wrap(initial + Wrap(interval * Wrap(PowInt64(deliveryCount - 1, outOfRange))));
      if raw > ceiling then ceiling else raw
    else 0
  }

  /** The delay as the source computes it. `age` is how long ago the job was created. */
  function GetOffset(s: Settings, deliveryCount: int, age: int, outOfRange: int): (offset: int) {
    var offset := BeforeAge(s, deliveryCount, outOfRange);
    if age > Wrap(offset * MILLISECOND) then 0 else offset
  }

  // ---- The delay over the integers ----

  function Interval(s: Settings): int {
    if s.intervalMilli == 0 then SECOND else s.intervalMilli * MILLISECOND
  }

  /** The longest delay there can be. */
  function Cap(s: Settings): int {
    if s.maxMilli * MILLISECOND < Interval(s) then Interval(s) else s.maxMilli * MILLISECOND
  }

  function Uncapped(s: Settings, deliveryCount: nat): int
    requires deliveryCount > 1
  {
    s.initMilli * MILLISECOND
    + Interval(s) * (if s.strategy.Linear? then deliveryCount - 1 else Pow2(deliveryCount - 1))
  }

  /** The delay before the age of the job is looked at, as the settings say. */
  function Delay(s: Settings, deliveryCount: nat): (delay: int) {
    if deliveryCount <= 1 then 0
    else if Uncapped(s, deliveryCount) > Cap(s) then Cap(s)
    else Uncapped(s, deliveryCount)
  }

  predicate NonNegative(s: Settings) {
    s.initMilli >= 0 && s.intervalMilli >= 0 && s.maxMilli >= 0
  }

  lemma {:induction false} Pow2Monotone(m: nat, n: nat)
    requires m <= n
    ensures Pow2(m) <= Pow2(n)
  {
    if m < n {
      Pow2Monotone(m, n - 1);
    }
  }

  lemma Pow2Of63()
    ensures Pow2(63) == TWO63
  {
    assert Pow2(8) == 0x100;
    assert Pow2(16) == 0x1_0000;
    assert Pow2(24) == 0x100_0000;
    assert Pow2(32) == 0x1_0000_0000;
    assert Pow2(40) == 0x100_0000_0000;
    assert Pow2(48) == 0x1_0000_0000_0000;
    assert Pow2(56) == 0x100_0000_0000_0000;
  }

  /** The delay never shrinks from one delivery to a later one, and never exceeds the cap. */
  lemma DelaysGrow(s: Settings, m: nat, n: nat)
    requires NonNegative(s) && m <= n
    ensures 0 <= Delay(s, m) <= Delay(s, n) <= Cap(s)
  {
    hide Pow2;
    if m > 1 {
      UncappedGrows(s, m, n);
    }
    if n > 1 {
      UncappedGrows(s, n, n);
    }
  }

  lemma UncappedGrows(s: Settings, m: nat, n: nat)
    requires NonNegative(s) && 1 < m <= n
    ensures 0 <= Uncapped(s, m) <= Uncapped(s, n)
  {
    Pow2Monotone(m - 1, n - 1);
    hide Pow2;
    var a, b := if s.strategy.Linear? then m - 1 else Pow2(m - 1), if s.strategy.Linear? then n - 1 else Pow2(n - 1);
    Scale(Interval(s), a, b);
    Scale(Interval(s), 0, a);
  }

  // ---- When the 64-bit delay is the integer one ----

  /** The settings themselves, in nanoseconds, are 64-bit integers. */
  predicate SettingsFit(s: Settings) {
    NonNegative(s) && s.initMilli * MILLISECOND < TWO63 && Interval(s) < TWO63 && s.maxMilli * MILLISECOND < TWO63
  }

  lemma WrapShifts(x: int, q: int)
    ensures Wrap(x + 2 * TWO63 * q) == Wrap(x)
  {
    var m := 2 * TWO63;
    var y := x + TWO63;
    Remainder(m, y / m + q, y % m);
    assert m * (y / m + q) + y % m == y + m * q;
  }

  /** Wrapping on the way makes no difference to a sum. */
  lemma WrapSum(a: int, b: int)
    ensures Wrap(a + Wrap(b)) == Wrap(a + b)
  {
    var q := (b + TWO63) / (2 * TWO63);
    assert Wrap(b) == b - 2 * TWO63 * q;
    hide Wrap;
    WrapShifts(a + b, -q);
  }

  /** The power of two, if the strategy calls for one, is a 64-bit integer. */
  predicate PowerFits(s: Settings, deliveryCount: nat) {
    s.strategy.Exponential? ==> deliveryCount - 1 < 63
  }

  /** The sum is below the ceiling, or, if not, wraps to something that is not below it either. */
  predicate CapHolds(s: Settings, deliveryCount: nat)
    requires deliveryCount > 1
  {
    Uncapped(s, deliveryCount) <= Cap(s) || Wrap(Uncapped(s, deliveryCount)) >= Cap(s)
  }

  /** The 64-bit computation comes out right: something to be told from the settings and the delivery count. */
  predicate Sound(s: Settings, deliveryCount: nat) {
    deliveryCount > 1 ==>
      && PowerFits(s, deliveryCount) && CapHolds(s, deliveryCount)
      && Delay(s, deliveryCount) * MILLISECOND < TWO63
  }

  lemma BeforeAgeWraps(s: Settings, deliveryCount: nat, outOfRange: int)
    requires SettingsFit(s) && deliveryCount > 1 && PowerFits(s, deliveryCount)
    ensures var u := Wrap(Uncapped(s, deliveryCount));
            BeforeAge(s, deliveryCount, outOfRange) == if u > Cap(s) then Cap(s) else u
  {
    var k := deliveryCount - 1;
    if s.strategy.Exponential? {
      Pow2Of63();
      hide Pow2;
      Pow2Monotone(k, 62);
      assert Pow2(63) == 2 * Pow2(62) by { Pow2Doubles(62); }
      hide Wrap;
      WrapSum(s.initMilli * MILLISECOND, Interval(s) * Pow2(k));
    } else {
      hide Wrap;
      WrapSum(s.initMilli * MILLISECOND, Interval(s) * k);
    }
  }

  lemma Pow2Doubles(k: nat)
    ensures Pow2(k + 1) == 2 * Pow2(k)
  {
  }

  /** With a power of two that is none, what the machine makes of it can turn the sum negative. */
  lemma BeforeAgeOutOfRange(s: Settings, deliveryCount: nat) returns (outOfRange: int)
    requires SettingsFit(s) && deliveryCount > 1 && !PowerFits(s, deliveryCount)
    ensures -TWO63 <= outOfRange < TWO63 && BeforeAge(s, deliveryCount, outOfRange) < 0
  {
    hide Wrap, Pow2;
    var initial, interval := s.initMilli * MILLISECOND, Interval(s);
    var q := initial / interval + 1;
    outOfRange := -q;
    NegativeMultiple(initial, interval);
    WrapSum(initial, interval * outOfRange);
    assert interval * outOfRange == -(interval * q);
  }

  lemma NegativeMultiple(x: int, m: int)
    requires x >= 0 && m > 1
    ensures 0 < x / m + 1 <= x + 1
    ensures -m <= x - m * (x / m + 1) < 0
  {
    assert m * (x / m + 1) == m * (x / m) + m;
    var d := x / m;
    assert x == m * d + x % m;
    if d < 0 {
      Scale(m, d, -1);
    }
    Scale(d, 1, m);
  }

  /** The 64-bit delay is the integer one, cut to zero once the job is old enough. */
  predicate OffsetRight(s: Settings, deliveryCount: nat, age: int, outOfRange: int) {
    GetOffset(s, deliveryCount, age, outOfRange)
    == if age > Delay(s, deliveryCount) * MILLISECOND then 0 else Delay(s, deliveryCount)
  }

  ghost predicate AlwaysRight(s: Settings, deliveryCount: nat) {
    forall age, outOfRange | -TWO63 <= age < TWO63 && -TWO63 <= outOfRange < TWO63 ::
      OffsetRight(s, deliveryCount, age, outOfRange)
  }

  /** Whatever the age of the job and the machine, the delay is right if and only if the power of two fits, the cap
      holds in spite of an overflow before it is applied, and the delay taken for milliseconds, which is what the age
      is compared with, is still a 64-bit number of nanoseconds. */
  lemma AlwaysRightIffSound(s: Settings, deliveryCount: nat)
    requires SettingsFit(s)
    ensures AlwaysRight(s, deliveryCount) <==> Sound(s, deliveryCount)
  {
    hide AlwaysRight, Sound;
    if Sound(s, deliveryCount) {
      forall age, outOfRange ensures OffsetRight(s, deliveryCount, age, outOfRange) {
        RightWhenSound(s, deliveryCount, age, outOfRange);
      }
      AllRight(s, deliveryCount);
    } else {
      WrongWhenUnsound(s, deliveryCount);
    }
  }

  lemma AllRight(s: Settings, deliveryCount: nat)
    requires forall age, outOfRange :: OffsetRight(s, deliveryCount, age, outOfRange)
    ensures AlwaysRight(s, deliveryCount)
  {
    hide OffsetRight;
  }

  lemma BeforeAgeWhenSound(s: Settings, deliveryCount: nat, outOfRange: int)
    requires SettingsFit(s) && Sound(s, deliveryCount)
    ensures BeforeAge(s, deliveryCount, outOfRange) == Delay(s, deliveryCount)
    ensures 0 <= Delay(s, deliveryCount) && Delay(s, deliveryCount) * MILLISECOND < TWO63
  {
    DelaysGrow(s, deliveryCount, deliveryCount);
    if deliveryCount > 1 {
      UncappedGrows(s, deliveryCount, deliveryCount);
      BeforeAgeWraps(s, deliveryCount, outOfRange);
      hide BeforeAge, Uncapped;
    }
  }

  lemma RightWhenSound(s: Settings, deliveryCount: nat, age: int, outOfRange: int)
    requires SettingsFit(s) && Sound(s, deliveryCount)
    ensures OffsetRight(s, deliveryCount, age, outOfRange)
  {
    BeforeAgeWhenSound(s, deliveryCount, outOfRange);
    hide BeforeAge, Delay, Sound;
  }

  lemma WrongWhenUnsound(s: Settings, deliveryCount: nat)
    requires SettingsFit(s) && !Sound(s, deliveryCount)
    ensures !AlwaysRight(s, deliveryCount)
  {
    hide Pow2, Wrap, BeforeAge, Uncapped, GetOffset;
    DelaysGrow(s, deliveryCount, deliveryCount);
    if !PowerFits(s, deliveryCount) {
      var outOfRange := BeforeAgeOutOfRange(s, deliveryCount);
      WrongBeforeAge(s, deliveryCount, outOfRange);
    } else {
      BeforeAgeWraps(s, deliveryCount, 0);
      if !CapHolds(s, deliveryCount) {
        WrongBeforeAge(s, deliveryCount, 0);
      } else {
        UncappedGrows(s, deliveryCount, deliveryCount);
        WrongComparison(s, deliveryCount);
      }
    }
  }

  lemma WrongBeforeAge(s: Settings, deliveryCount: nat, outOfRange: int)
    requires SettingsFit(s) && -TWO63 <= outOfRange < TWO63
    requires BeforeAge(s, deliveryCount, outOfRange) != Delay(s, deliveryCount) && 0 <= Delay(s, deliveryCount)
    ensures !AlwaysRight(s, deliveryCount)
  {
    hide BeforeAge, Delay, SettingsFit;
    assert !OffsetRight(s, deliveryCount, -TWO63, outOfRange);
  }

  lemma WrongComparison(s: Settings, deliveryCount: nat)
    requires BeforeAge(s, deliveryCount, 0) == Delay(s, deliveryCount)
    requires Delay(s, deliveryCount) * MILLISECOND >= TWO63
    ensures !AlwaysRight(s, deliveryCount)
  {
    hide BeforeAge, Delay;
    WrapsBelow(Delay(s, deliveryCount));
    hide Wrap;
    assert !OffsetRight(s, deliveryCount, TWO63 - 1, 0);
  }

  lemma WrapsBelow(d: int)
    ensures Wrap(d * MILLISECOND) < TWO63 - 1
  {
    var x := d * MILLISECOND + TWO63;
    var q := x / (2 * TWO63);
    assert x == 2 * TWO63 * q + x % (2 * TWO63);
    assert x % (2 * TWO63) == 2 * (500_000 * d + 0x4000_0000_0000_0000 - TWO63 * q);
  }

  /** Where it comes out right, the 64-bit delay of a job never shrinks from one delivery to a later one and never
      exceeds the cap, for a job of any age. */
  lemma OffsetsGrow(s: Settings, m: nat, n: nat, age: int, outOfRange: int)
    requires SettingsFit(s) && m <= n && Sound(s, m) && Sound(s, n)
    ensures 0 <= GetOffset(s, m, age, outOfRange) <= GetOffset(s, n, age, outOfRange) <= Cap(s)
  {
    hide Sound, GetOffset, Delay, Cap;
    RightWhenSound(s, m, age, outOfRange);
    RightWhenSound(s, n, age, outOfRange);
    DelaysGrow(s, m, n);
  }

  /** All is right when no delay is longer than 9,223,372 ms, which is about two and a half hours, and the sum before
      the cap is a 64-bit number. */
  lemma SoundWithinBounds(s: Settings, deliveryCount: nat)
    requires SettingsFit(s) && Cap(s) <= 9_223_372 * MILLISECOND
    requires deliveryCount > 1 ==> Uncapped(s, deliveryCount) < TWO63
    ensures Sound(s, deliveryCount)
  {
    hide Pow2;
    if deliveryCount > 1 {
      if !PowerFits(s, deliveryCount) {
        PowerTooLarge(s, deliveryCount);
      }
      UncappedGrows(s, deliveryCount, deliveryCount);
      hide Uncapped;
    }
  }

  lemma PowerTooLarge(s: Settings, deliveryCount: nat)
    requires SettingsFit(s) && deliveryCount > 1 && !PowerFits(s, deliveryCount)
    ensures Uncapped(s, deliveryCount) >= TWO63
  {
    hide Pow2;
    var k := deliveryCount - 1;
    Pow2Of63();
    Pow2Monotone(63, k);
    Scale(Pow2(k), 1, Interval(s));
    assert Pow2(k) * Interval(s) == Interval(s) * Pow2(k);
  }

  /** The usual settings, an interval of one second that doubles up to ten: at the 36th delivery the sum overflows
      before it is capped, and the job comes back without any delay. */
  lemma DoublingOverflows(age: int, outOfRange: int)
    ensures var s := Settings(Exponential, 0, 1000, 10000);
            SettingsFit(s) && Delay(s, 36) == 10 * SECOND && GetOffset(s, 36, age, outOfRange) <= 0
            && !OffsetRight(s, 36, 0, outOfRange)
  {
    hide Pow2, BeforeAge;
    var s := Settings(Exponential, 0, 1000, 10000);
    Pow2Of35();
    BeforeAgeWraps(s, 36, outOfRange);
    assert Wrap(SECOND * 0x8_0000_0000) < 0;
  }

  lemma Pow2Of35()
    ensures Pow2(35) == 0x8_0000_0000
  {
    assert Pow2(8) == 0x100;
    assert Pow2(16) == 0x1_0000;
    assert Pow2(24) == 0x100_0000;
    assert Pow2(32) == 0x1_0000_0000;
  }

  /** A delay of ten thousand seconds drops to zero: taken for milliseconds it is no 64-bit number. */
  lemma LongDelayVanishes(outOfRange: int)
    ensures var s := Settings(Linear, 0, 10_000_000, 10_000_000);
            SettingsFit(s) && Delay(s, 2) == 10_000 * SECOND && GetOffset(s, 2, 0, outOfRange) == 0
            && !OffsetRight(s, 2, 0, outOfRange)
  {
  }

  // ---- What a delivery does to its message ----

  datatype Action = PauseWorkflow | ThrowWorkflowError | SetVariableValue | FailWorkflow

  /** Ack, Nak, NakWithDelay and Term settle a message; the others act on the workflow. */
  datatype Effect =
    | Ack
    | Nak
    | NakWithDelay(delay: int)
    | Term
    | NotifyRetryExceeded
    | SignalFatal
    | CancelInstance
    | HandleError
    | CompleteTask

  predicate Settles(e: Effect) {
    e.Ack? || e.Nak? || e.NakWithDelay? || e.Term?
  }

  /** Something done to the workflow, by way of a call to the server. */
  predicate Acts(e: Effect) {
    e.SignalFatal? || e.CancelInstance? || e.HandleError? || e.CompleteTask?
  }

  function Count(p: Effect -> bool, effects: seq<Effect>): (n: nat) {
    if effects == [] then 0 else Count(p, effects[..|effects| - 1]) + if p(effects[|effects| - 1]) then 1 else 0
  }

  lemma CountAppend(p: Effect -> bool, effects: seq<Effect>, e: Effect)
    ensures Count(p, effects + [e]) == Count(p, effects) + if p(e) then 1 else 0
  {
    assert (effects + [e])[..|effects|] == effects;
  }

  lemma CountFew(p: Effect -> bool, e: Effect)
    ensures Count(p, []) == 0
    ensures Count(p, [e]) == if p(e) then 1 else 0
  {
    CountAppend(p, [], e);
    assert [] + [e] == [e];
  }

  datatype WorkflowLookup = Found | NotFound | LookupFailed

  /** What retrying has to go by: whether the state and the delivery data can be read, the workflow, how often the
      message has been delivered, and the retry behaviour of the task. `parses` says whether the value to be set in
      the end is of its declared type, `succeeds` whether the one call made succeeds and, for a workflow error, the
      error is handled. */
  datatype Attempt = Attempt(
    readable: bool,
    workflow: WorkflowLookup,
    numDelivered: nat,
    number: nat,
    settings: Settings,
    age: int,
    action: Action,
    parses: bool,
    succeeds: bool)

  datatype Embargo = NoEmbargo | BadEmbargo | Until(offset: int)

  datatype HandlerError = NoError | Fatal(hasState: bool) | WorkflowError | Ordinary

  /** One message as the loop gets it. `backoff` is None when no backoff function is set. */
  datatype Delivery = Delivery(
    namespace: bool,
    headerReadable: bool,
    embargo: Embargo,
    ack: bool,
    error: HandlerError,
    backoff: Option<Attempt>)

  /** The call that carries an action out. */
  function Call(action: Action): (e: Effect)
    ensures Acts(e)
  {
    match action
    case FailWorkflow => CancelInstance
    case ThrowWorkflowError => HandleError
    case PauseWorkflow => SignalFatal
    case SetVariableValue => CompleteTask
  }

  /** A value that cannot be parsed is not sent. */
  predicate Attempted(action: Action, parses: bool) {
    action.SetVariableValue? ==> parses
  }

  /** What was done once retries are exceeded: at most the call for the action, then Term, and last the notification. */
  predicate GaveUp(action: Action, parses: bool, es: seq<Effect>) {
    es == Final(action, parses)
  }

  function Final(action: Action, parses: bool): seq<Effect> {
    (if Attempted(action, parses) then [Call(action)] else []) + [Term, NotifyRetryExceeded]
  }

  /** The call that each action leads to. */
  lemma FinalIs(action: Action, parses: bool)
    ensures var after := [Term, NotifyRetryExceeded];
            match action
            case FailWorkflow => Final(action, parses) == [CancelInstance] + after
            case ThrowWorkflowError => Final(action, parses) == [HandleError] + after
            case PauseWorkflow => Final(action, parses) == [SignalFatal] + after
            case SetVariableValue => Final(action, parses) == (if parses then [CompleteTask] else []) + after
  {
  }

  predicate Unresolved(a: Attempt) {
    !a.readable || a.workflow.LookupFailed?
  }

  predicate Exceeded(a: Attempt) {
    a.readable && a.workflow.Found? && a.numDelivered >= a.number
  }

  /** What retrying does to a message. */
  predicate Retried(a: Attempt, outOfRange: int, es: seq<Effect>) {
    && (Unresolved(a) ==> es == [])
    && (a.readable && a.workflow.NotFound? ==> es == [Term])
    && (Exceeded(a) ==> GaveUp(a.action, a.parses, es))
    && (a.readable && a.workflow.Found? && a.numDelivered < a.number ==>
          es == [NakWithDelay(GetOffset(a.settings, a.numDelivered, a.age, outOfRange))])
  }

  /** ... and what holds of it in any case: one settlement unless nothing could be found out, at most one call, and a
      notification only after the message is terminated. */
  ghost predicate RetriedRight(a: Attempt, outOfRange: int, es: seq<Effect>) {
    && Retried(a, outOfRange, es)
    && Count(Settles, es) == (if Unresolved(a) then 0 else 1)
    && Count(Acts, es) <= 1 && NotifiedAfterTerm(es)
  }

  /** The handler is called. */
  predicate Executed(d: Delivery) {
    d.namespace && d.headerReadable && !d.embargo.BadEmbargo? && !(d.embargo.Until? && d.embargo.offset > 0)
  }

  predicate BacksOff(d: Delivery) {
    Executed(d) && d.error.Ordinary? && d.backoff.Some?
  }

  /** A delivery that leaves its message unsettled: an embargo that is not a number, or a retry that cannot find out
      what to do. */
  predicate LeftUnsettled(d: Delivery) {
    && d.namespace && d.headerReadable
    && (d.embargo.BadEmbargo? || (BacksOff(d) && Unresolved(d.backoff.value)))
  }

  /** A notification comes last and right after the message is terminated. */
  predicate NotifiedAfterTerm(es: seq<Effect>) {
    forall i | 0 <= i < |es| && es[i].NotifyRetryExceeded? :: i == |es| - 1 && i > 0 && es[i - 1].Term?
  }

  /** What holds of every delivery: one settlement unless it is left unsettled, at most one call, and a notification
      only after the message is terminated. */
  ghost predicate Settled(d: Delivery, es: seq<Effect>) {
    && Count(Settles, es) == (if LeftUnsettled(d) then 0 else 1)
    && Count(Acts, es) <= 1
    && NotifiedAfterTerm(es)
  }

  function Reversed(es: seq<Effect>): seq<Effect> {
    if es == [] then [] else [es[|es| - 1]] + Reversed(es[..|es| - 1])
  }

  lemma ReversedPair(e: Effect, f: Effect)
    ensures Reversed([e] + [f]) == [f, e]
  {
    assert ([e] + [f])[..1] == [e] && [e][..0] == [];
    assert Reversed([e]) == [e];
  }

  class Client {
    const outOfRange: int
    var effects: seq<Effect>

    constructor (outOfRange: int)
      ensures this.outOfRange == outOfRange && effects == []
    {
      this.outOfRange := outOfRange;
      effects := [];
    }

    method Perform(e: Effect)
      modifies this
      ensures effects == old(effects) + [e]
    {
      effects := effects + [e];
    }

    /** The deferred calls of a function that returns: the last one deferred comes first. */
    method RunDeferred(deferred: seq<Effect>)
      modifies this
      ensures effects == old(effects) + Reversed(deferred)
    {
      var n := |deferred|;
      assert deferred[..n] == deferred;
      while n > 0
        invariant 0 <= n <= |deferred|
        invariant effects + Reversed(deferred[..n]) == old(effects) + Reversed(deferred)
      {
        n := n - 1;
        assert deferred[..n + 1][..n] == deferred[..n];
        Perform(deferred[n]);
      }
    }

    /** The action when retries are exceeded. It returns early with an error when the value cannot be parsed or the
        call fails; pausing never fails. */
    method Act(a: Attempt) returns (failed: bool)
      modifies this
      ensures effects == old(effects) + if Attempted(a.action, a.parses) then [Call(a.action)] else []
      ensures failed <==> !a.action.PauseWorkflow? && !(Attempted(a.action, a.parses) && a.succeeds)
    {
      match a.action {
        case FailWorkflow =>
          Perform(CancelInstance);
          if !a.succeeds {
            return true;
          }
        case ThrowWorkflowError =>
          Perform(HandleError);
          if !a.succeeds {
            return true;
          }
        case PauseWorkflow =>
          Perform(SignalFatal);
        case SetVariableValue =>
          if !a.parses {
            return true;
          }
          Perform(CompleteTask);
          if !a.succeeds {
            return true;
          }
      }
      return false;
    }

    /** Retries, or gives up for good. Whatever comes of the action then, the message is terminated and after that the
        notification sent; and there is one settlement unless nothing could be found out. */
    method Backoff(a: Attempt) returns (failed: bool)
      modifies this
      ensures old(effects) <= effects
      ensures RetriedRight(a, outOfRange, effects[|old(effects)|..])
      ensures !a.readable || !a.workflow.Found? ==> failed
      ensures Exceeded(a) ==>
                (failed <==> !a.action.PauseWorkflow? && !(Attempted(a.action, a.parses) && a.succeeds))
      ensures a.readable && a.workflow.Found? && !Exceeded(a) ==> (failed <==> !a.succeeds)
      ensures Exceeded(a) ==>
                var es := effects[|old(effects)|..];
                match a.action
                case FailWorkflow => es == [CancelInstance, Term, NotifyRetryExceeded]
                case ThrowWorkflowError => es == [HandleError, Term, NotifyRetryExceeded]
                case PauseWorkflow => es == [SignalFatal, Term, NotifyRetryExceeded]
                case SetVariableValue =>
                  es == (if a.parses then [CompleteTask] else []) + [Term, NotifyRetryExceeded]
    {
      hide GetOffset, Count, Retried, NotifiedAfterTerm, Call, Attempted;
      ghost var before := effects;
      if !a.readable {
        RetriedNot(a, outOfRange);
        assert effects[|before|..] == [];
        return true;
      }
      if a.workflow != Found {
        if a.workflow == NotFound {
          Perform(Term);
          RetriedTerm(a, outOfRange);
          assert effects[|before|..] == [Term];
        } else {
          RetriedNot(a, outOfRange);
          assert effects[|before|..] == [];
        }
        return true;
      }
      if a.numDelivered >= a.number {
        var deferred := [NotifyRetryExceeded];
        deferred := deferred + [Term];
        failed := Act(a);
        RunDeferred(deferred);
        ReversedPair(NotifyRetryExceeded, Term);
        RetriedOver(a, outOfRange);
        assert effects[|before|..] == Final(a.action, a.parses);
        FinalIs(a.action, a.parses);
        return;
      }
      Perform(NakWithDelay(GetOffset(a.settings, a.numDelivered, a.age, outOfRange)));
      RetriedLater(a, outOfRange);
      assert effects[|before|..] == [NakWithDelay(GetOffset(a.settings, a.numDelivered, a.age, outOfRange))];
      return !a.succeeds;
    }

    /** One round of the message loop. */
    method Process(d: Delivery)
      modifies this
      ensures old(effects) <= effects && Settled(d, effects[|old(effects)|..])
      ensures var es := effects[|old(effects)|..];
              && (BacksOff(d) ==> Retried(d.backoff.value, outOfRange, es))
              && (!d.namespace || !d.headerReadable ==> es == [Ack])
              && (d.namespace && d.headerReadable && d.embargo.Until? && d.embargo.offset > 0 ==>
                    es == [NakWithDelay(d.embargo.offset)])
              && (Executed(d) && !BacksOff(d) ==>
                    es == (if d.error.Fatal? && d.error.hasState then [SignalFatal] else [])
                          + [if d.ack || d.error.Fatal? then Ack else Nak])
              && (d.namespace && d.headerReadable && d.embargo.BadEmbargo? ==> es == [])
    {
      hide Count, Retried;
      ghost var before := effects;
      if !d.namespace || !d.headerReadable {
        Perform(Ack);
        SettledByOne(d, Ack);
        assert effects[|before|..] == [Ack];
        return;
      }
      if d.embargo == BadEmbargo {
        NotSettled(d);
        assert effects[|before|..] == [];
        return;
      }
      if d.embargo.Until? && d.embargo.offset > 0 {
        Perform(NakWithDelay(d.embargo.offset));
        SettledByOne(d, NakWithDelay(d.embargo.offset));
        assert effects[|before|..] == [NakWithDelay(d.embargo.offset)];
        return;
      }
      var ack := d.ack;
      if d.error.Fatal? {
        if d.error.hasState {
          Perform(SignalFatal);
        }
        ack := true;
      } else if d.error == Ordinary && d.backoff.Some? {
        var _ := Backoff(d.backoff.value);
        return;
      }
      if ack {
        Perform(Ack);
      } else {
        Perform(Nak);
      }
      SettledByOne(d, if ack then Ack else Nak);
      assert effects[|before|..] == (if d.error.Fatal? && d.error.hasState then [SignalFatal] else [])
                                    + [if ack then Ack else Nak];
    }
  }

  lemma RetriedNot(a: Attempt, outOfRange: int)
    requires Unresolved(a)
    ensures RetriedRight(a, outOfRange, [])
  {
    hide GetOffset, Count;
    CountFew(Settles, Ack);
    CountFew(Acts, Ack);
  }

  lemma RetriedTerm(a: Attempt, outOfRange: int)
    requires a.readable && a.workflow.NotFound?
    ensures RetriedRight(a, outOfRange, [Term])
  {
    hide GetOffset, Count;
    CountFew(Settles, Term);
    CountFew(Acts, Term);
  }

  lemma RetriedOver(a: Attempt, outOfRange: int)
    requires Exceeded(a)
    ensures RetriedRight(a, outOfRange, Final(a.action, a.parses))
  {
    hide GetOffset, Count;
    GaveUpSettles(a.action, a.parses, Final(a.action, a.parses));
  }

  lemma RetriedLater(a: Attempt, outOfRange: int)
    requires a.readable && a.workflow.Found? && a.numDelivered < a.number
    ensures RetriedRight(a, outOfRange, [NakWithDelay(GetOffset(a.settings, a.numDelivered, a.age, outOfRange))])
  {
    hide GetOffset, Count;
    var e := NakWithDelay(GetOffset(a.settings, a.numDelivered, a.age, outOfRange));
    CountFew(Settles, e);
    CountFew(Acts, e);
  }

  lemma GaveUpSettles(action: Action, parses: bool, es: seq<Effect>)
    requires GaveUp(action, parses, es)
    ensures Count(Settles, es) == 1 && Count(Acts, es) <= 1 && NotifiedAfterTerm(es)
  {
    hide Count;
    var act := if Attempted(action, parses) then [Call(action)] else [];
    GivingUpCount(Settles, act, Call(action));
    GivingUpCount(Acts, act, Call(action));
  }

  lemma GivingUpCount(p: Effect -> bool, act: seq<Effect>, c: Effect)
    requires act == [] || act == [c]
    ensures Count(p, act + [Term, NotifyRetryExceeded])
            == (if act == [c] && p(c) then 1 else 0) + (if p(Term) then 1 else 0)
              + (if p(NotifyRetryExceeded) then 1 else 0)
  {
    hide Count;
    CountFew(p, c);
    CountAppend(p, act, Term);
    CountAppend(p, act + [Term], NotifyRetryExceeded);
    assert act + [Term] + [NotifyRetryExceeded] == act + [Term, NotifyRetryExceeded];
  }

  lemma SettledByOne(d: Delivery, e: Effect)
    requires Settles(e) && !LeftUnsettled(d)
    ensures Settled(d, [e]) && Settled(d, [] + [e]) && Settled(d, [SignalFatal] + [e])
  {
    hide Count, LeftUnsettled;
    CountFew(Settles, e);
    CountFew(Acts, e);
    CountFew(Settles, SignalFatal);
    CountFew(Acts, SignalFatal);
    CountAppend(Settles, [SignalFatal], e);
    CountAppend(Acts, [SignalFatal], e);
    assert [] + [e] == [e];
  }

  lemma NotSettled(d: Delivery)
    requires LeftUnsettled(d)
    ensures Settled(d, [])
  {
    CountFew(Settles, Ack);
    CountFew(Acts, Ack);
  }

  // ---- The life of a job whose handler always fails ----

  datatype Job = Job(number: nat, settings: Settings, action: Action, parses: bool)

  /** How often the job has been delivered, whether it will be delivered again, and all that was done. */
  datatype JobState = JobState(delivered: nat, live: bool, effects: seq<Effect>)

  function JobDelivery(job: Job, n: nat, age: int, succeeds: bool): Delivery {
    Delivery(true, true, NoEmbargo, false, Ordinary,
             Some(Attempt(true, Found, n, job.number, job.settings, age, job.action, job.parses, succeeds)))
  }

  /** A message comes back unless it has been acknowledged or terminated. */
  predicate Redelivered(effects: seq<Effect>) {
    Ack !in effects && Term !in effects
  }

  /** One delivery, which does what `Client.Process` promises, for a job of some age and calls that may fail. */
  ghost predicate JobNext(job: Job, outOfRange: int, s: JobState, t: JobState, age: int, succeeds: bool,
                          es: seq<Effect>) {
    && s.live
    && Retried(JobDelivery(job, s.delivered + 1, age, succeeds).backoff.value, outOfRange, es)
    && t == JobState(s.delivered + 1, Redelivered(es), s.effects + es)
  }

  ghost predicate JobStep(job: Job, outOfRange: int, s: JobState, t: JobState) {
    exists age, succeeds, es :: JobNext(job, outOfRange, s, t, age, succeeds, es)
  }

  ghost predicate JobRun(job: Job, outOfRange: int, run: seq<JobState>) {
    && run != [] && run[0] == JobState(0, true, [])
    && forall i | 0 <= i < |run| - 1 :: JobStep(job, outOfRange, run[i], run[i + 1])
  }

  function Deliveries(job: Job): nat {
    if job.number > 1 then job.number else 1
  }

  /** The delays of the deliveries listed, each as the settings say or cut to zero. */
  predicate Delayed(job: Job, naks: seq<Effect>) {
    forall i | 0 <= i < |naks| :: naks[i].NakWithDelay? && naks[i].delay in {0, Delay(job.settings, i + 1)}
  }

  predicate AllNaks(naks: seq<Effect>) {
    forall i | 0 <= i < |naks| :: naks[i].NakWithDelay?
  }

  /** The 64-bit delay comes out right for every delivery that is sent back. */
  predicate JobSound(job: Job) {
    SettingsFit(job.settings) && forall n | 1 <= n < Deliveries(job) :: Sound(job.settings, n)
  }

  ghost predicate JobLife(job: Job, s: JobState) {
    && s.delivered <= Deliveries(job) && (s.live <==> s.delivered < Deliveries(job))
    && var n := if s.live then s.delivered else Deliveries(job) - 1;
       && n <= |s.effects| && AllNaks(s.effects[..n])
       && (if s.live then s.effects[n..] == [] else GaveUp(job.action, job.parses, s.effects[n..]))
       && (JobSound(job) ==> Delayed(job, s.effects[..n]))
  }

  lemma JobLifeStep(job: Job, outOfRange: int, s: JobState, t: JobState, age: int, succeeds: bool, es: seq<Effect>)
    requires JobLife(job, s) && JobNext(job, outOfRange, s, t, age, succeeds, es)
    ensures JobLife(job, t)
  {
    hide GetOffset, Delay, Sound, SettingsFit;
    var n := s.delivered;
    assert s.effects[..n] == s.effects;
    if n + 1 >= job.number {
      assert t.effects[n..] == es && t.effects[..n] == s.effects;
      assert es[|es| - 2] == Term;
    } else {
      var e := NakWithDelay(GetOffset(job.settings, n + 1, age, outOfRange));
      assert t.effects == s.effects + [e] && t.effects[..n + 1] == t.effects && t.effects[n + 1..] == [];
      if JobSound(job) {
        RightWhenSound(job.settings, n + 1, age, outOfRange);
      }
    }
  }

  lemma {:induction false} JobRunLife(job: Job, outOfRange: int, run: seq<JobState>, i: nat)
    requires JobRun(job, outOfRange, run) && i < |run|
    ensures JobLife(job, run[i])
  {
    hide JobNext, JobSound, Delay;
    if i > 0 {
      JobRunLife(job, outOfRange, run, i - 1);
      hide JobLife;
      assert JobStep(job, outOfRange, run[i - 1], run[i - 1 + 1]);
      var age, succeeds, es :| JobNext(job, outOfRange, run[i - 1], run[i], age, succeeds, es);
      JobLifeStep(job, outOfRange, run[i - 1], run[i], age, succeeds, es);
    }
  }

  /** In every run: while the job lives it has been sent back once per delivery; it is over after exactly max(1, number)
      deliveries, and then the action was attempted, the message terminated, and last the notification sent. */
  lemma JobIsDeliveredNumberTimes(job: Job, outOfRange: int, run: seq<JobState>, i: nat)
    requires JobRun(job, outOfRange, run) && i < |run|
    ensures var s := run[i];
            && (s.live ==> s.delivered < Deliveries(job) && |s.effects| == s.delivered && AllNaks(s.effects))
            && (!s.live ==> && s.delivered == Deliveries(job)
                            && exists naks, es :: && |naks| == Deliveries(job) - 1 && AllNaks(naks)
                                                  && s.effects == naks + es && GaveUp(job.action, job.parses, es))
  {
    hide JobRun, JobSound, Delayed, GaveUp;
    JobRunLife(job, outOfRange, run, i);
    var s := run[i];
    if s.live {
      assert s.effects == s.effects[..s.delivered] + s.effects[s.delivered..];
    } else {
      var n := Deliveries(job) - 1;
      var naks := s.effects[..n];
      assert s.effects == naks + s.effects[n..];
    }
  }

  /** A job that lives is delivered again, whatever its age and whether or not calls succeed. */
  lemma JobGoesOn(job: Job, outOfRange: int, run: seq<JobState>, age: int, succeeds: bool) returns (t: JobState)
    requires JobRun(job, outOfRange, run) && run[|run| - 1].live
    ensures JobRun(job, outOfRange, run + [t]) && t.delivered == run[|run| - 1].delivered + 1
  {
    hide GetOffset, Final;
    var s := run[|run| - 1];
    var a := JobDelivery(job, s.delivered + 1, age, succeeds).backoff.value;
    var es := if Exceeded(a) then Final(job.action, job.parses)
              else [NakWithDelay(GetOffset(job.settings, s.delivered + 1, age, outOfRange))];
    t := JobState(s.delivered + 1, Redelivered(es), s.effects + es);
    assert JobNext(job, outOfRange, s, t, age, succeeds, es);
    hide JobNext;
    var longer := run + [t];
    forall i | 0 <= i < |longer| - 1
      ensures JobStep(job, outOfRange, longer[i], longer[i + 1])
    {
      assert i < |run| - 1 ==> JobStep(job, outOfRange, run[i], run[i + 1]);
    }
  }

  function TotalDelay(naks: seq<Effect>): int
    requires AllNaks(naks)
  {
    if naks == [] then 0 else TotalDelay(naks[..|naks| - 1]) + naks[|naks| - 1].delay
  }

  lemma {:induction false} TotalDelayBound(job: Job, naks: seq<Effect>)
    requires NonNegative(job.settings) && AllNaks(naks) && Delayed(job, naks)
    ensures 0 <= TotalDelay(naks) <= (if naks == [] then 0 else (|naks| - 1) * Cap(job.settings))
  {
    hide Delay, Cap;
    if naks != [] {
      var n := |naks| - 1;
      TotalDelayBound(job, naks[..n]);
      DelaysGrow(job.settings, n + 1, n + 1);
      if n == 0 {
        FirstDelayIsZero(job.settings);
      } else {
        assert n * Cap(job.settings) == (n - 1) * Cap(job.settings) + Cap(job.settings);
      }
    }
  }

  lemma FirstDelayIsZero(s: Settings)
    ensures Delay(s, 1) == 0
  {
  }

  /** All the delays of a job together: the first is zero and the others at most the cap each. */
  lemma JobWaitsAtMost(job: Job, outOfRange: int, run: seq<JobState>, i: nat)
    requires JobRun(job, outOfRange, run) && i < |run| && JobSound(job)
    ensures var n := if run[i].live then run[i].delivered else Deliveries(job) - 1;
            && n <= |run[i].effects| && AllNaks(run[i].effects[..n]) && Delayed(job, run[i].effects[..n])
            && 0 <= TotalDelay(run[i].effects[..n]) <= (if n == 0 then 0 else (n - 1) * Cap(job.settings))
  {
    hide JobRun, Delay, Cap, GaveUp;
    JobRunLife(job, outOfRange, run, i);
    var n := if run[i].live then run[i].delivered else Deliveries(job) - 1;
    TotalDelayBound(job, run[i].effects[..n]);
  }
}
