/** A streaming reply: the handler emits items over a channel, the server publishes them to the client's inbox, the
    client's subscription passes them on to its main loop (StreamingReplyClient and StreamingReplyServer in
    common/natsutil.go). The client does not cancel and nothing fails to be published. */
module Streaming {
  import opened Model

  const STR_EOF := "STR_EOF"

  /** A message: the text of its error header, empty when it has none, and its contents. */
  datatype Message = Message(header: string, body: string)

  /** An error of the handler: its text, and whether it is or wraps the error that stands for a cancelled stream. */
  datatype Failure = Failure(text: string, cancel: bool)

  /** What the handler does: it emits the items one by one, then reports an error if there is one, and returns. */
  datatype Script = Script(items: seq<string>, error: Option<Failure>)
  {
    /** What the client should be told. */
    function Outcome(): Option<string> {
      if error.Some? then Some(error.value.text) else None
    }
  }

  datatype Channel<T> = Channel(buffer: Option<T>, closed: bool)

  /** `emitted` counts the items the server has taken from the handler. `toPublish` is in flight at the server.
      `toPass` is held by the subscription until the main loop takes it, `inHand` is with the client's callback. */
  datatype State = State(
    emitted: nat,
    reported: bool,
    errors: Channel<Failure>,
    toPublish: Option<string>,
    serverDone: bool,
    inbox: seq<Message>,
    toPass: Option<string>,
    clientErrors: Channel<string>,
    inHand: Option<string>,
    consumed: seq<string>,
    result: Option<Option<string>>)

  const INIT := State(0, false, Channel(None, false), None, false, [], None, Channel(None, false), None, [], None)

  datatype Step =
    | Emit
    | Report
    | Return
    | Publish
    | PublishError
    | EndSilently
    | PublishEof
    | Deliver
    | TakeItem
    | Consume
    | TakeError
    | TakeEnd

  predicate Enabled(p: Script, s: State, step: Step) {
    match step
    // the handler: an item is handed over when the server waits at its select
    case Emit => s.emitted < |p.items| && s.toPublish.None? && !s.serverDone
    case Report => s.emitted == |p.items| && p.error.Some? && !s.reported && s.errors.buffer.None?
    case Return => s.emitted == |p.items| && (p.error.Some? ==> s.reported) && !s.errors.closed
    // the server
    case Publish => s.toPublish.Some?
    case PublishError => s.toPublish.None? && !s.serverDone && s.errors.buffer.Some? && !s.errors.buffer.value.cancel
    case EndSilently => s.toPublish.None? && !s.serverDone && s.errors.buffer.Some? && s.errors.buffer.value.cancel
    case PublishEof => s.toPublish.None? && !s.serverDone && s.errors.buffer.None? && s.errors.closed
    // the client's subscription, one message at a time; a second end message would find its channel closed
    case Deliver => s.inbox != [] && s.toPass.None? && (s.inbox[0].header != "" ==> !s.clientErrors.closed)
    // the client's main loop
    case TakeItem => s.toPass.Some? && s.inHand.None? && s.result.None?
    case Consume => s.inHand.Some?
    case TakeError => s.clientErrors.buffer.Some? && s.inHand.None? && s.result.None?
    case TakeEnd => s.clientErrors.buffer.None? && s.clientErrors.closed && s.inHand.None? && s.result.None?
  }

  function Do(p: Script, s: State, step: Step): (t: State)
    requires Enabled(p, s, step)
  {
    match step
    case Emit => s.(emitted := s.emitted + 1, toPublish := Some(p.items[s.emitted]))
    case Report => s.(reported := true, errors := s.errors.(buffer := p.error))
    case Return => s.(errors := s.errors.(closed := true))
    case Publish => s.(toPublish := None, inbox := s.inbox + [Message("", s.toPublish.value)])
    case PublishError =>
      s.(errors := s.errors.(buffer := None), serverDone := true,
         inbox := s.inbox + [Message(s.errors.buffer.value.text, "")])
    case EndSilently => s.(errors := s.errors.(buffer := None), serverDone := true)
    case PublishEof => s.(serverDone := true, inbox := s.inbox + [Message(STR_EOF, "")])
    case Deliver =>
      var m := s.inbox[0];
      if m.header == "" then s.(inbox := s.inbox[1..], toPass := Some(m.body))
      else s.(inbox := s.inbox[1..],
              clientErrors := Channel(if m.header == STR_EOF then None else Some(m.header), true))
    case TakeItem => s.(toPass := None, inHand := s.toPass)
    case Consume => s.(inHand := None, consumed := s.consumed + [s.inHand.value])
    case TakeError => s.(clientErrors := s.clientErrors.(buffer := None), result := Some(s.clientErrors.buffer))
    case TakeEnd => s.(result := Some(None))
  }

  ghost predicate Next(p: Script, s: State, t: State) {
    exists step :: Enabled(p, s, step) && t == Do(p, s, step)
  }

  ghost predicate Run(p: Script, run: seq<State>) {
    run != [] && run[0] == INIT && forall i | 0 <= i < |run| - 1 :: Next(p, run[i], run[i + 1])
  }

  /** An error that is not taken for a cancelled stream, and whose text the client can tell from an item and from the
      end of the stream. */
  predicate Proper(p: Script) {
    p.error.Some? ==> !p.error.value.cancel && p.error.value.text != "" && p.error.value.text != STR_EOF
  }

  /** No end message passes for an item. */
  predicate EndTold(p: Script) {
    p.error.Some? ==> p.error.value.cancel || p.error.value.text != ""
  }

  // ---- Where the items are ----

  function Optional(o: Option<string>): seq<string> {
    if o.Some? then [o.value] else []
  }

  /** The items in the inbox: the messages without an error header. */
  function Items(inbox: seq<Message>): (items: seq<string>) {
    if inbox == [] then []
    else Items(inbox[..|inbox| - 1]) + (if inbox[|inbox| - 1].header == "" then [inbox[|inbox| - 1].body] else [])
  }

  /** Consumed, with the callback, held by the subscription, in the inbox, in flight at the server. */
  function InTransit(s: State): seq<string> {
    s.consumed + Optional(s.inHand) + Optional(s.toPass) + Items(s.inbox) + Optional(s.toPublish)
  }

  lemma ItemsAppend(inbox: seq<Message>, m: Message)
    ensures Items(inbox + [m]) == Items(inbox) + if m.header == "" then [m.body] else []
  {
    assert (inbox + [m])[..|inbox|] == inbox;
  }

  lemma {:induction false} ItemsFirst(inbox: seq<Message>)
    requires inbox != []
    ensures Items(inbox) == (if inbox[0].header == "" then [inbox[0].body] else []) + Items(inbox[1..])
  {
    var n := |inbox| - 1;
    if n > 0 {
      ItemsFirst(inbox[..n]);
      assert inbox[..n][1..] == inbox[1..][..n - 1] && inbox[1..][n - 1] == inbox[n];
    } else {
      assert inbox[..0] == [] && inbox[1..] == [];
    }
  }

  // ---- What every step keeps ----

  /** The handler and the server: the error, if any, comes after all items, and the server ends after both. */
  predicate HandlerOrder(p: Script, s: State) {
    && s.emitted <= |p.items|
    && (s.reported ==> s.emitted == |p.items| && p.error.Some?)
    && (s.errors.closed || s.serverDone ==> s.emitted == |p.items| && (p.error.Some? ==> s.reported))
    && s.errors.buffer == (if s.reported && !s.serverDone then p.error else None)
    && (s.serverDone ==> s.toPublish.None?)
  }

  lemma HandlerOrderStep(p: Script, s: State, step: Step)
    requires HandlerOrder(p, s) && Enabled(p, s, step)
    ensures HandlerOrder(p, Do(p, s, step))
  {
  }

  /** The message that ends the stream. */
  function EndMessage(p: Script): Message {
    Message(if p.error.Some? then p.error.value.text else STR_EOF, "")
  }

  /** The stream ends once: the end message follows all others, and when the client's subscription has seen it nothing
      is left behind it. */
  ghost predicate EndsOnce(p: Script, s: State) {
    && (forall i | 0 <= i < |s.inbox| - 1 :: s.inbox[i].header == "")
    && (s.inbox != [] && s.inbox[|s.inbox| - 1].header != "" ==> s.inbox[|s.inbox| - 1] == EndMessage(p))
    && (s.serverDone && !s.clientErrors.closed <==> s.inbox != [] && s.inbox[|s.inbox| - 1].header != "")
    && (s.clientErrors.closed ==> s.serverDone && s.inbox == [] && s.toPass.None?)
    && s.clientErrors.buffer == (if s.clientErrors.closed && s.result.None? then p.Outcome() else None)
    && (s.result.Some? ==> s.clientErrors.closed && s.inHand.None? && s.result.value == p.Outcome())
  }

  lemma EndsOnceStep(p: Script, s: State, step: Step)
    requires Proper(p) && HandlerOrder(p, s) && EndsOnce(p, s) && Enabled(p, s, step)
    ensures EndsOnce(p, Do(p, s, step))
  {
    var t := Do(p, s, step);
    if step.Deliver? {
      assert forall i | 0 <= i < |t.inbox| :: t.inbox[i] == s.inbox[i + 1];
    }
  }

  /** Nothing is lost, duplicated or reordered on the way, as long as the end message is told from an item. */
  ghost predicate Conserved(p: Script, s: State) {
    s.emitted <= |p.items| && InTransit(s) == p.items[..s.emitted]
  }

  lemma ConservedStep(p: Script, s: State, step: Step)
    requires EndTold(p) && HandlerOrder(p, s) && Conserved(p, s) && Enabled(p, s, step)
    ensures Conserved(p, Do(p, s, step))
  {
    TransitStep(p, s, step);
    hide InTransit;
    if step.Emit? {
      assert p.items[..s.emitted + 1] == p.items[..s.emitted] + [p.items[s.emitted]];
    }
  }

  /** Items move along in order; only emitting adds one. */
  lemma TransitStep(p: Script, s: State, step: Step)
    requires EndTold(p) && HandlerOrder(p, s) && Enabled(p, s, step)
    ensures InTransit(Do(p, s, step)) == InTransit(s) + if step.Emit? then [p.items[s.emitted]] else []
  {
    hide Items;
    var t := Do(p, s, step);
    var client := s.consumed + Optional(s.inHand) + Optional(s.toPass);
    match step {
      case Publish =>
        ItemsAppend(s.inbox, t.inbox[|s.inbox|]);
        assert client + (Items(s.inbox) + [s.toPublish.value]) + [] == client + Items(s.inbox) + [s.toPublish.value];
      case PublishError =>
        ItemsAppend(s.inbox, t.inbox[|s.inbox|]);
      case PublishEof =>
        ItemsAppend(s.inbox, t.inbox[|s.inbox|]);
      case Deliver =>
        ItemsFirst(s.inbox);
      case _ =>
    }
  }

  lemma {:induction false} RunKeeps(p: Script, run: seq<State>, i: nat)
    requires Proper(p) && Run(p, run) && i < |run|
    ensures HandlerOrder(p, run[i]) && EndsOnce(p, run[i]) && Conserved(p, run[i])
  {
    hide Enabled, Do, Conserved, EndsOnce;
    if i == 0 {
      InitKeeps(p);
    } else {
      RunKeeps(p, run, i - 1);
      assert Next(p, run[i - 1], run[i - 1 + 1]);
      var step :| Enabled(p, run[i - 1], step) && run[i] == Do(p, run[i - 1], step);
      HandlerOrderStep(p, run[i - 1], step);
      EndsOnceStep(p, run[i - 1], step);
      ConservedStep(p, run[i - 1], step);
    }
  }

  lemma InitKeeps(p: Script)
    ensures HandlerOrder(p, INIT) && EndsOnce(p, INIT) && Conserved(p, INIT)
  {
    assert p.items[..0] == [];
  }

  /** In every run: the items consumed, at the client, in the inbox and at the server are those emitted, in order.
      When the client returns it has consumed them all and returns the handler's outcome: success, or its error. */
  lemma StreamIsFaithful(p: Script, run: seq<State>, i: nat)
    requires Proper(p) && Run(p, run) && i < |run|
    ensures run[i].emitted <= |p.items| && InTransit(run[i]) == p.items[..run[i].emitted]
    ensures run[i].result.Some? ==> run[i].result.value == p.Outcome() && run[i].consumed == p.items
  {
    hide Run;
    RunKeeps(p, run, i);
    assert p.items[..|p.items|] == p.items;
  }

  // ---- Every run comes to rest ----

  /** How much there is still to do. */
  function Remaining(p: Script, s: State): nat
    requires s.emitted <= |p.items|
  {
    5 * (|p.items| - s.emitted) + 4 * |Optional(s.toPublish)| + 3 * |Items(s.inbox)| + 2 * |Optional(s.toPass)|
    + |Optional(s.inHand)| + (if p.error.Some? && !s.reported then 1 else 0) + (if s.errors.closed then 0 else 1)
    + (if !s.serverDone then 6 else if !s.clientErrors.closed then 2 else 0) + (if s.result.None? then 1 else 0)
  }

  /** Only a server that has ended has sent an end message. */
  ghost predicate Sane(p: Script, s: State) {
    && HandlerOrder(p, s)
    && (s.clientErrors.closed ==> s.serverDone)
    && forall i | 0 <= i < |s.inbox| :: s.inbox[i].header != "" ==> s.serverDone
  }

  lemma SaneStep(p: Script, s: State, step: Step)
    requires Sane(p, s) && Enabled(p, s, step)
    ensures Sane(p, Do(p, s, step))
  {
    HandlerOrderStep(p, s, step);
    hide HandlerOrder;
    var t := Do(p, s, step);
    if step.Deliver? {
      assert forall i | 0 <= i < |t.inbox| :: t.inbox[i] == s.inbox[i + 1];
    }
  }

  lemma StepsGetThere(p: Script, s: State, step: Step)
    requires Sane(p, s) && Enabled(p, s, step)
    ensures Do(p, s, step).emitted <= |p.items| && Remaining(p, Do(p, s, step)) < Remaining(p, s)
  {
    hide Items;
    var t := Do(p, s, step);
    if step.Publish? || step.PublishError? || step.PublishEof? {
      ItemsAppend(s.inbox, t.inbox[|s.inbox|]);
    } else if step.Deliver? {
      ItemsFirst(s.inbox);
    }
  }

  lemma {:induction false} RunGetsThere(p: Script, run: seq<State>, i: nat)
    requires Run(p, run) && i < |run|
    ensures Sane(p, run[i]) && Remaining(p, run[i]) + i <= Remaining(p, INIT)
  {
    hide Enabled, Do, Remaining, Sane;
    if i == 0 {
      InitSane(p);
    } else {
      RunGetsThere(p, run, i - 1);
      assert Next(p, run[i - 1], run[i - 1 + 1]);
      var step :| Enabled(p, run[i - 1], step) && run[i] == Do(p, run[i - 1], step);
      SaneStep(p, run[i - 1], step);
      StepsGetThere(p, run[i - 1], step);
    }
  }

  lemma InitSane(p: Script)
    ensures Sane(p, INIT)
  {
  }

  /** Whatever the interleaving, a stream of n items is over after at most 5n + 9 steps. */
  lemma RunsAreShort(p: Script, run: seq<State>)
    requires Run(p, run)
    ensures |run| <= 5 * |p.items| + 10
  {
    hide Next;
    RunGetsThere(p, run, |run| - 1);
  }

  ghost predicate AtRest(p: Script, s: State) {
    forall step :: !Enabled(p, s, step)
  }

  /** Nothing but the client's return brings a run to rest: there is no deadlock. */
  lemma RestMeansReturned(p: Script, s: State)
    requires HandlerOrder(p, s) && EndsOnce(p, s) && AtRest(p, s)
    ensures s.result.Some?
  {
    assert !Enabled(p, s, Emit) && !Enabled(p, s, Report) && !Enabled(p, s, Return) && !Enabled(p, s, Publish);
    assert !Enabled(p, s, PublishError) && !Enabled(p, s, EndSilently) && !Enabled(p, s, PublishEof);
    assert !Enabled(p, s, Deliver);
    assert !Enabled(p, s, TakeItem) && !Enabled(p, s, Consume) && !Enabled(p, s, TakeError) && !Enabled(p, s, TakeEnd);
  }

  lemma {:induction false} ToRest(p: Script, run: seq<State>) returns (full: seq<State>)
    requires Run(p, run)
    ensures Run(p, full) && AtRest(p, full[|full| - 1])
    decreases 5 * |p.items| + 10 - |run|
  {
    RunsAreShort(p, run);
    hide Do, Enabled;
    var s := run[|run| - 1];
    if AtRest(p, s) {
      return run;
    }
    var step :| Enabled(p, s, step);
    var longer := run + [Do(p, s, step)];
    forall i | 0 <= i < |longer| - 1
      ensures Next(p, longer[i], longer[i + 1])
    {
      if i < |run| - 1 {
        assert Next(p, run[i], run[i + 1]);
      }
    }
    RunsAreShort(p, longer);
    full := ToRest(p, longer);
  }

  // ---- Errors the client cannot tell ----

  /** An error without text passes for an item, one that counts as a cancelled stream is not passed on at all; in
      either case the client waits for ever. */
  predicate Untold(p: Script) {
    p.error.Some? && (p.error.value.cancel || p.error.value.text == "")
  }

  ghost predicate NeverTold(p: Script, s: State) {
    && HandlerOrder(p, s) && s.clientErrors == Channel(None, false) && s.result.None?
    && forall i | 0 <= i < |s.inbox| :: s.inbox[i].header == ""
  }

  lemma NeverToldStep(p: Script, s: State, step: Step)
    requires Untold(p) && NeverTold(p, s) && Enabled(p, s, step)
    ensures NeverTold(p, Do(p, s, step))
  {
    var t := Do(p, s, step);
    if step.Deliver? {
      assert forall i | 0 <= i < |t.inbox| :: t.inbox[i] == s.inbox[i + 1];
    }
  }

  /** An error whose text is the end marker passes for the end of the stream. */
  predicate TakenForEnd(p: Script) {
    p.error.Some? && !p.error.value.cancel && p.error.value.text == STR_EOF
  }

  ghost predicate ToldEnd(s: State) {
    && s.clientErrors.buffer.None? && s.result in {None, Some(None)}
    && forall i | 0 <= i < |s.inbox| :: s.inbox[i].header in {"", STR_EOF}
  }

  lemma ToldEndStep(p: Script, s: State, step: Step)
    requires TakenForEnd(p) && HandlerOrder(p, s) && ToldEnd(s) && Enabled(p, s, step)
    ensures ToldEnd(Do(p, s, step))
  {
    var t := Do(p, s, step);
    if step.Deliver? {
      assert forall i | 0 <= i < |t.inbox| :: t.inbox[i] == s.inbox[i + 1];
    }
  }

  lemma {:induction false} ImproperNeverTold(p: Script, run: seq<State>, i: nat)
    requires !Proper(p) && Run(p, run) && i < |run|
    ensures HandlerOrder(p, run[i])
    ensures Untold(p) ==> NeverTold(p, run[i])
    ensures TakenForEnd(p) ==> ToldEnd(run[i])
  {
    hide Enabled, Do, NeverTold, ToldEnd, HandlerOrder;
    if i == 0 {
      InitImproper(p);
    } else {
      ImproperNeverTold(p, run, i - 1);
      assert Next(p, run[i - 1], run[i - 1 + 1]);
      var step :| Enabled(p, run[i - 1], step) && run[i] == Do(p, run[i - 1], step);
      HandlerOrderStep(p, run[i - 1], step);
      if Untold(p) {
        NeverToldStep(p, run[i - 1], step);
      } else {
        ToldEndStep(p, run[i - 1], step);
      }
    }
  }

  lemma InitImproper(p: Script)
    ensures HandlerOrder(p, INIT) && NeverTold(p, INIT) && ToldEnd(INIT)
  {
  }

  /** Every run that has come to rest has ended with all items consumed and the handler's outcome returned. */
  ghost predicate AlwaysFaithful(p: Script) {
    forall run: seq<State> | Run(p, run) && AtRest(p, run[|run| - 1]) ::
      run[|run| - 1].result == Some(p.Outcome()) && run[|run| - 1].consumed == p.items
  }

  /** ... if and only if the handler's error, if there is one, is not taken for a cancelled stream and has a text, and
      one other than the end marker. */
  lemma AlwaysFaithfulIffProper(p: Script)
    ensures AlwaysFaithful(p) <==> Proper(p)
  {
    hide Next, AtRest, HandlerOrder;
    if Proper(p) {
      forall run: seq<State> | Run(p, run) && AtRest(p, run[|run| - 1])
        ensures run[|run| - 1].result == Some(p.Outcome()) && run[|run| - 1].consumed == p.items
      {
        FaithfulAtRest(p, run);
      }
    } else {
      var run := UnfaithfulRun(p);
    }
  }

  lemma FaithfulAtRest(p: Script, run: seq<State>)
    requires Proper(p) && Run(p, run) && AtRest(p, run[|run| - 1])
    ensures run[|run| - 1].result == Some(p.Outcome()) && run[|run| - 1].consumed == p.items
  {
    hide Next, AtRest, EndsOnce, HandlerOrder, Conserved;
    RunKeeps(p, run, |run| - 1);
    RestMeansReturned(p, run[|run| - 1]);
    StreamIsFaithful(p, run, |run| - 1);
  }

  lemma UnfaithfulRun(p: Script) returns (run: seq<State>)
    requires !Proper(p)
    ensures Run(p, run) && AtRest(p, run[|run| - 1]) && run[|run| - 1].result != Some(p.Outcome())
  {
    hide AtRest, HandlerOrder;
    run := ToRest(p, [INIT]);
    ImproperNeverTold(p, run, |run| - 1);
  }
}
