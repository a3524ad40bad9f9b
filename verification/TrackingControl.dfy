/**
 The control state machine of the tracking profile: the event mailbox and the
 dispatch of common/control.c, the three state handlers of the profile, and the
 enable flag of the accelerometer thread. `Next` is one step of the system; a
 handler changes the state, switches the accelerometer and attempts its message in
 separate steps, between which the other threads run. The methods of `Controller`
 are the code.
 */
module TrackingControl {

  datatype Option<T> = None | Some(value: T)

  // track_sm_state_t
  const IDLE := 0
  const ACTIVE := 1
  const ALARM := 2
  const TEST := 3
  // track_sm_event_t; any other number is an unsupported event
  const START_EVENT := 0
  const STOP_EVENT := 1
  const STATE_EVENT := 2
  const ALARM_EVENT := 3
  const BALANCE_EVENT := 4

  /** ALERT_MSG_QUEUE_SIZE and CTRL_STATE_NUMBER */
  const QUEUE_SIZE: nat := 5
  const STATES: nat := 15

  datatype Handler = DoStateIdle | DoStateActive | DoStateAlarm | DoStateTest

  /** The SMS texts a handler tries to send on a transition. */
  datatype Sms = ArmSms | AlarmSms | DisarmSms

  /** What the running handler has still to do. */
  datatype Todo = Nothing | SwitchImu(on: bool, sms: Sms) | Attempt(sms: Sms)

  /** A state request was handled, or a balance event was: either a state report
      was attempted, or the event was dropped because no request was pending. */
  datatype Note = Asked | Reported | Dropped

  /** `sent`, `notes` (by state), `accepted` and `handled` are history. `waiting`
      holds the static ctrlWaitForBalance flag of each state's handler. */
  datatype Control = Control(
    state: int, slots: seq<Option<Handler>>, waiting: seq<bool>, queue: seq<int>,
    todo: Todo, inited: bool, enabled: bool, sampling: bool,
    sent: seq<Sms>, notes: seq<seq<Note>>, accepted: seq<int>, handled: seq<int>)

  datatype Event =
    | Post(event: int)
    | Handle
    | Switch
    | Send
    | InitImu(success: bool)
    | SampleStart
    | SampleEnd(outOfRange: bool)

  ghost predicate Registered(slots: seq<Option<Handler>>) {
    && |slots| == STATES
    && slots[IDLE] == Some(DoStateIdle) && slots[ACTIVE] == Some(DoStateActive)
    && slots[ALARM] == Some(DoStateAlarm)
  }

  ghost predicate Shaped(c: Control) {
    Registered(c.slots) && |c.waiting| == |c.notes| == 3 && IDLE <= c.state <= ALARM
  }

  // ----- the handlers, up to their first step seen by another thread -----

  /** imuEnable and imuDisable do nothing before accelGyroInit has succeeded. */
  function SetImu(c: Control, on: bool): Control {
    if c.inited then c.(enabled := on) else c
  }

  function Ask(c: Control, s: nat): Control
    requires s < 3 && |c.waiting| == |c.notes| == 3
  {
    c.(waiting := c.waiting[s := true], notes := c.notes[s := c.notes[s] + [Asked]])
  }

  function Report(c: Control, s: nat): Control
    requires s < 3 && |c.waiting| == |c.notes| == 3
  {
    if c.waiting[s]
    then c.(waiting := c.waiting[s := false], notes := c.notes[s := c.notes[s] + [Reported]])
    else c.(notes := c.notes[s := c.notes[s] + [Dropped]])
  }

  /** The events every handler treats alike. */
  function Common(c: Control, s: nat, event: int): (r: Control)
    requires s < 3 && |c.waiting| == |c.notes| == 3
    ensures |r.waiting| == |r.notes| == 3 && r == c.(waiting := r.waiting, notes := r.notes)
  {
    if event == STATE_EVENT then Ask(c, s)
    else if event == BALANCE_EVENT then Report(c, s)
    else c
  }

  function Stopped(c: Control): Control {
    c.(state := IDLE, todo := SwitchImu(false, DisarmSms))
  }

  function OnIdle(c: Control, event: int): Control
    requires |c.waiting| == |c.notes| == 3
  {
    if event == START_EVENT then c.(state := ACTIVE, todo := SwitchImu(true, ArmSms))
    else Common(c, IDLE, event)
  }

  function OnActive(c: Control, event: int): Control
    requires |c.waiting| == |c.notes| == 3
  {
    if event == STOP_EVENT then Stopped(c)
    else if event == ALARM_EVENT then c.(state := ALARM, todo := Attempt(AlarmSms))
    else Common(c, ACTIVE, event)
  }

  function OnAlarm(c: Control, event: int): Control
    requires |c.waiting| == |c.notes| == 3
  {
    if event == STOP_EVENT then Stopped(c) else Common(c, ALARM, event)
  }

  function RunHandler(h: Handler, c: Control, event: int): (r: Control)
    requires |c.waiting| == |c.notes| == 3
    ensures Shaped(c) ==> Shaped(r)
  {
    match h
    case DoStateIdle => OnIdle(c, event)
    case DoStateActive => OnActive(c, event)
    case DoStateAlarm => OnAlarm(c, event)
    case DoStateTest => c
  }

  /** Fetch the oldest event and start the handler registered for the state. */
  function Handled(c: Control): (r: Control)
    requires Shaped(c) && c.queue != []
    ensures Shaped(r)
  {
    RunHandler(c.slots[c.state].value,
               c.(queue := c.queue[1..], handled := c.handled + [c.queue[0]]), c.queue[0])
  }

  /** ctrlEventPost: refused when the mailbox is full. */
  function Posted(c: Control, event: int): Control {
    if |c.queue| < QUEUE_SIZE then c.(queue := c.queue + [event], accepted := c.accepted + [event]) else c
  }

  /** The step of an event; an event that cannot happen changes nothing. */
  function Next(c: Control, e: Event): (r: Control)
    requires Shaped(c)
    ensures Shaped(r)
  {
    match e
    case Post(event) => Posted(c, event)
    case Handle =>
      if c.queue == [] || c.todo != Nothing then c else Handled(c)
    case Switch =>
      if c.todo.SwitchImu? then SetImu(c, c.todo.on).(todo := Attempt(c.todo.sms)) else c
    case Send =>
      if c.todo.Attempt? then c.(todo := Nothing, sent := c.sent + [c.todo.sms]) else c
    case InitImu(success) => if success then c.(inited := true) else c
    case SampleStart => if c.enabled && !c.sampling then c.(sampling := true) else c
    case SampleEnd(outOfRange) =>
      if !c.sampling then c
      else if outOfRange then Posted(c.(sampling := false), ALARM_EVENT)
      else c.(sampling := false)
  }

  function Exec(c: Control, es: seq<Event>): (r: Control)
    requires Shaped(c)
    ensures Shaped(r)
    decreases es
  {
    if es == [] then c else Exec(Next(c, es[0]), es[1..])
  }

  /** The slots profileInit leaves behind. */
  function ProfileSlots(): (r: seq<Option<Handler>>)
    ensures |r| == STATES
  {
    [Some(DoStateIdle), Some(DoStateActive), Some(DoStateAlarm), Some(DoStateTest)] + seq(STATES - 4, _ => None)
  }

  function Initial(): (r: Control)
    ensures Shaped(r)
  {
    Control(IDLE, ProfileSlots(), [false, false, false], [], Nothing, false, false, false, [], [[], [], []], [], [])
  }

  // ----- the trace of arm, alarm and disarm -----

  /** One finished arming cycle. */
  datatype Cycle = Quiet | Alarmed

  function CycleTrace(k: Cycle): seq<Sms> {
    match k
    case Quiet => [ArmSms, DisarmSms]
    case Alarmed => [ArmSms, AlarmSms, DisarmSms]
  }

  /** (ARM ALARM? DISARM)* */
  function Cycles(ks: seq<Cycle>): seq<Sms> {
    if ks == [] then [] else Cycles(ks[..|ks| - 1]) + CycleTrace(ks[|ks| - 1])
  }

  /** The unfinished cycle, which determines the state. */
  function Tail(state: int): seq<Sms> {
    if state == IDLE then [] else if state == ACTIVE then [ArmSms] else [ArmSms, AlarmSms]
  }

  lemma CyclesAppend(ks: seq<Cycle>, k: Cycle)
    ensures Cycles(ks + [k]) == Cycles(ks) + CycleTrace(k)
  {
    assert (ks + [k])[..|ks|] == ks;
  }

  /** The message the running handler owes. */
  function Owed(todo: Todo): seq<Sms> {
    if todo == Nothing then [] else [todo.sms]
  }

  /** The messages attempted and owed are the trace, if c's finished cycles are ks. */
  ghost predicate Traced(c: Control, ks: seq<Cycle>) {
    c.sent + Owed(c.todo) == Cycles(ks) + Tail(c.state)
  }

  lemma StopClosesCycle(c: Control, ks: seq<Cycle>) returns (ks': seq<Cycle>)
    requires Traced(c, ks) && c.todo == Nothing && (c.state == ACTIVE || c.state == ALARM)
    ensures Traced(Stopped(c), ks')
  {
    var k := if c.state == ACTIVE then Quiet else Alarmed;
    CyclesAppend(ks, k);
    ks' := ks + [k];
    assert c.sent == Cycles(ks) + Tail(c.state);
    assert Tail(c.state) + [DisarmSms] == CycleTrace(k);
    assert c.sent + [DisarmSms] == Cycles(ks) + (Tail(c.state) + [DisarmSms]);
  }

  lemma HandlerExtendsTrace(c: Control, event: int, ks: seq<Cycle>) returns (ks': seq<Cycle>)
    requires Shaped(c) && Traced(c, ks) && c.todo == Nothing
    ensures Traced(RunHandler(c.slots[c.state].value, c, event), ks')
  {
    ks' := ks;
    assert c.sent == Cycles(ks) + Tail(c.state);
    if event == STOP_EVENT && c.state != IDLE {
      ks' := StopClosesCycle(c, ks);
    } else if event == START_EVENT && c.state == IDLE {
      assert c.sent + [ArmSms] == Cycles(ks) + [ArmSms];
    } else if event == ALARM_EVENT && c.state == ACTIVE {
      assert c.sent + [AlarmSms] == Cycles(ks) + [ArmSms, AlarmSms];
    }
  }

  lemma StepExtendsTrace(c: Control, e: Event, ks: seq<Cycle>) returns (ks': seq<Cycle>)
    requires Shaped(c) && Traced(c, ks)
    ensures Traced(Next(c, e), ks')
  {
    ks' := ks;
    if e.Handle? && c.queue != [] && c.todo == Nothing {
      ks' := HandlerExtendsTrace(c.(queue := c.queue[1..], handled := c.handled + [c.queue[0]]), c.queue[0], ks);
    }
  }

  lemma {:induction false} RunExtendsTrace(c: Control, es: seq<Event>, ks: seq<Cycle>) returns (ks': seq<Cycle>)
    requires Shaped(c) && Traced(c, ks)
    ensures Traced(Exec(c, es), ks')
    decreases es
  {
    ks' := ks;
    if es != [] {
      ks' := StepExtendsTrace(c, es[0], ks);
      ks' := RunExtendsTrace(Next(c, es[0]), es[1..], ks');
    }
  }

  /** Trace safety: over every event sequence the messages attempted, with the one
      the running handler owes, are finished cycles and one unfinished cycle, and
      the state is the one that tail determines. */
  lemma TraceSafety(es: seq<Event>)
    ensures var c := Exec(Initial(), es);
            exists ks :: c.sent + Owed(c.todo) == Cycles(ks) + Tail(c.state)
  {
    var ks := RunExtendsTrace(Initial(), es, []);
    assert Traced(Exec(Initial(), es), ks);
  }

  /** No trace is lost: every list of cycles and every tail is attempted by some run. */
  lemma {:induction false} TraceComplete(ks: seq<Cycle>, state: int) returns (es: seq<Event>)
    requires IDLE <= state <= ALARM
    ensures Attempts(Exec(Initial(), es), ks, state)
    decreases |ks|, state
  {
    if state == IDLE {
      if ks == [] {
        es := [];
      } else {
        var k := ks[|ks| - 1];
        var last := if k == Quiet then ACTIVE else ALARM;
        es := TraceComplete(ks[..|ks| - 1], last);
        assert Cycles(ks[..|ks| - 1]) + Tail(last) + [DisarmSms] == Cycles(ks);
        es := Extend(es, STOP_EVENT);
      }
    } else {
      es := TraceComplete(ks, state - 1);
      assert Cycles(ks) + Tail(state - 1) + (if state == ACTIVE then [ArmSms] else [AlarmSms])
             == Cycles(ks) + Tail(state);
      es := Extend(es, if state == ACTIVE then START_EVENT else ALARM_EVENT);
    }
  }

  ghost predicate Attempts(c: Control, ks: seq<Cycle>, state: int) {
    Traced(c, ks) && c.state == state && Quiescent(c)
  }

  /** Between two events, with no event waiting. */
  ghost predicate Quiescent(c: Control) {
    c.queue == [] && c.todo == Nothing
  }

  /** A handler run to its end without interference. */
  ghost function Completed(c: Control): (r: Control)
    requires Shaped(c)
    ensures Shaped(r)
  {
    Next(Next(c, Switch), Send)
  }

  /** An event handled without interference. */
  ghost function Round(c: Control): (r: Control)
    requires Shaped(c)
    ensures Shaped(r)
  {
    Completed(Next(c, Handle))
  }

  /** What the handlers do about a start, an alarm and a stop, up to the switch. */
  lemma HandlerStarts(c: Control, event: int)
    requires Shaped(c) && c.todo == Nothing && c.queue == [event]
    ensures var r := Next(c, Handle);
            && r.queue == [] && r.sent == c.sent
            && (c.state == IDLE && event == START_EVENT ==> r.state == ACTIVE && Owed(r.todo) == [ArmSms])
            && (c.state == ACTIVE && event == ALARM_EVENT ==> r.state == ALARM && Owed(r.todo) == [AlarmSms])
            && (c.state != IDLE && event == STOP_EVENT ==> r.state == IDLE && Owed(r.todo) == [DisarmSms])
  {
  }

  lemma HandlerEnds(c: Control)
    requires Shaped(c)
    ensures var r := Completed(c);
            r.todo == Nothing && r.queue == c.queue && r.state == c.state && r.sent == c.sent + Owed(c.todo)
  {
  }

  /** One event posted to an empty mailbox and handled to its end. */
  lemma PostAndHandle(c: Control, event: int)
    requires Shaped(c) && Quiescent(c)
    ensures var r := Round(Next(c, Post(event)));
            && Quiescent(r)
            && (c.state == IDLE && event == START_EVENT ==> r.state == ACTIVE && r.sent == c.sent + [ArmSms])
            && (c.state == ACTIVE && event == ALARM_EVENT ==> r.state == ALARM && r.sent == c.sent + [AlarmSms])
            && (c.state != IDLE && event == STOP_EVENT ==> r.state == IDLE && r.sent == c.sent + [DisarmSms])
  {
    var posted := Next(c, Post(event));
    assert posted.queue == [event];
    HandlerStarts(posted, event);
    HandlerEnds(Next(posted, Handle));
  }

  lemma Extend(es: seq<Event>, event: int) returns (es': seq<Event>)
    requires Quiescent(Exec(Initial(), es))
    ensures var c, r := Exec(Initial(), es), Exec(Initial(), es');
            && Quiescent(r)
            && (c.state == IDLE && event == START_EVENT ==> r.state == ACTIVE && r.sent == c.sent + [ArmSms])
            && (c.state == ACTIVE && event == ALARM_EVENT ==> r.state == ALARM && r.sent == c.sent + [AlarmSms])
            && (c.state != IDLE && event == STOP_EVENT ==> r.state == IDLE && r.sent == c.sent + [DisarmSms])
  {
    ExecOne(Initial(), es, Post(event));
    es' := es + [Post(event)];
    ExecOne(Initial(), es', Handle);
    es' := es' + [Handle];
    ExecOne(Initial(), es', Switch);
    es' := es' + [Switch];
    ExecOne(Initial(), es', Send);
    es' := es' + [Send];
    PostAndHandle(Exec(Initial(), es), event);
  }

  lemma ExecOne(c: Control, es: seq<Event>, e: Event)
    requires Shaped(c)
    ensures Exec(c, es + [e]) == Next(Exec(c, es), e)
  {
    ExecConcat(c, es, [e]);
    assert Exec(Exec(c, es), [e]) == Exec(Next(Exec(c, es), e), []);
  }

  lemma {:induction false} ExecConcat(c: Control, a: seq<Event>, b: seq<Event>)
    requires Shaped(c)
    ensures Exec(c, a + b) == Exec(Exec(c, a), b)
    decreases a
  {
    if a == [] {
      assert a + b == b;
    } else {
      assert (a + b)[0] == a[0] && (a + b)[1..] == a[1..] + b;
      ExecConcat(Next(c, a[0]), a[1..], b);
    }
  }

  // ----- which cycle an alarm answers -----

  /** The state after some events, handled in order. */
  function WalkState(state: int, events: seq<int>): int
    decreases events
  {
    if events == [] then state else WalkState(After(state, events[0]), events[1..])
  }

  function After(state: int, event: int): int {
    if state == IDLE && event == START_EVENT then ACTIVE
    else if state == ACTIVE && event == ALARM_EVENT then ALARM
    else if state != IDLE && event == STOP_EVENT then IDLE
    else state
  }

  /** The arming cycles these events begin. */
  function WalkArms(state: int, events: seq<int>): nat
    decreases events
  {
    if events == [] then 0
    else (if state == IDLE && events[0] == START_EVENT then 1 else 0)
         + WalkArms(After(state, events[0]), events[1..])
  }

  function CountArms(sent: seq<Sms>): nat {
    if sent == [] then 0
    else CountArms(sent[..|sent| - 1]) + (if sent[|sent| - 1] == ArmSms then 1 else 0)
  }

  /** The arming cycles begun so far: the number of the current one. */
  function Arms(c: Control): nat {
    CountArms(c.sent + Owed(c.todo))
  }

  lemma OneMoreSms(sent: seq<Sms>, sms: Sms)
    ensures CountArms(sent + [sms]) == CountArms(sent) + (if sms == ArmSms then 1 else 0)
  {
    assert (sent + [sms])[..|sent|] == sent;
  }

  lemma HandlerMoves(c: Control, event: int)
    requires Shaped(c) && c.todo == Nothing
    ensures var r := RunHandler(c.slots[c.state].value, c, event);
            && r.state == After(c.state, event)
            && r.sent == c.sent && r.queue == c.queue && r.handled == c.handled
            && (r.todo != Nothing && r.todo.sms == ArmSms <==> c.state == IDLE && event == START_EVENT)
  {
  }

  lemma ArmsOwed(c: Control)
    ensures Arms(c) == CountArms(c.sent) + (if c.todo != Nothing && c.todo.sms == ArmSms then 1 else 0)
  {
    if c.todo == Nothing {
      assert c.sent + [] == c.sent;
    } else {
      OneMoreSms(c.sent, c.todo.sms);
    }
  }

  /** A handled event moves the state and the number of cycles as the walk says. */
  lemma HandledWalks(c: Control)
    requires Shaped(c) && c.queue != [] && c.todo == Nothing
    ensures var r, event := Handled(c), c.queue[0];
            && r.state == After(c.state, event)
            && Arms(r) == Arms(c) + (if c.state == IDLE && event == START_EVENT then 1 else 0)
            && r.queue == c.queue[1..] && |r.handled| == |c.handled| + 1
  {
    HandlerMoves(c.(queue := c.queue[1..], handled := c.handled + [c.queue[0]]), c.queue[0]);
    ArmsOwed(c);
    ArmsOwed(Handled(c));
  }

  /** A step that starts no handler does not change what is attempted or owed. */
  lemma OwesTheSame(c: Control, e: Event)
    requires Shaped(c) && !(e.Handle? && c.queue != [] && c.todo == Nothing)
    ensures Next(c, e).sent + Owed(Next(c, e).todo) == c.sent + Owed(c.todo)
  {
    match e
    case Post(event) =>
    case Handle =>
    case Switch =>
      if c.todo.SwitchImu? {
        assert Owed(Next(c, e).todo) == Owed(c.todo);
      }
    case Send =>
      if c.todo.Attempt? {
        assert c.sent + [c.todo.sms] + [] == c.sent + [c.todo.sms];
      }
    case InitImu(success) =>
    case SampleStart =>
    case SampleEnd(outOfRange) =>
  }

  lemma SameArms(c: Control, r: Control)
    requires r.sent + Owed(r.todo) == c.sent + Owed(c.todo)
    ensures Arms(r) == Arms(c)
  {
  }

  /** Any other step moves neither, and takes nothing from the queue. */
  lemma OthersWalkNot(c: Control, e: Event)
    requires Shaped(c) && !(e.Handle? && c.queue != [] && c.todo == Nothing)
    ensures var r := Next(c, e);
            r.state == c.state && Arms(r) == Arms(c) && r.handled == c.handled && c.queue <= r.queue
  {
    hide Arms, RunHandler;
    OwesTheSame(c, e);
    SameArms(c, Next(c, e));
  }

  lemma {:induction false} HandledGrows(c: Control, es: seq<Event>)
    requires Shaped(c)
    ensures |Exec(c, es).handled| >= |c.handled| && Arms(Exec(c, es)) >= Arms(c)
    decreases es
  {
    if es != [] {
      if es[0].Handle? && c.queue != [] && c.todo == Nothing {
        HandledWalks(c);
      } else {
        OthersWalkNot(c, es[0]);
      }
      HandledGrows(Next(c, es[0]), es[1..]);
    }
  }

  /** In every run, once exactly the events ahead of e have been handled, the state and
      the number of cycles are what the walk over them says, and e is next. */
  lemma {:induction false} WalkAhead(c: Control, ahead: seq<int>, e: int, es: seq<Event>)
    requires Shaped(c) && ahead + [e] <= c.queue
    requires |Exec(c, es).handled| == |c.handled| + |ahead|
    ensures var r := Exec(c, es);
            && r.state == WalkState(c.state, ahead) && Arms(r) == Arms(c) + WalkArms(c.state, ahead)
            && r.queue != [] && r.queue[0] == e
    decreases es
  {
    hide Handled, RunHandler, Arms, After;
    assert (ahead + [e])[|ahead|] == e;
    if es == [] {
      assert ahead == [];
    } else if es[0].Handle? && c.queue != [] && c.todo == Nothing {
      HandledWalks(c);
      HandledGrows(Next(c, es[0]), es[1..]);
      assert ahead != [] && ahead[0] == (ahead + [e])[0] == c.queue[0];
      assert ahead[1..] + [e] == (ahead + [e])[1..];
      WalkAhead(Next(c, es[0]), ahead[1..], e, es[1..]);
    } else {
      OthersWalkNot(c, es[0]);
      WalkAhead(Next(c, es[0]), ahead, e, es[1..]);
    }
  }

  /** Active in the same cycle: no stop and no alarm on the way. */
  lemma {:induction false} SameCycleActive(state: int, events: seq<int>)
    requires IDLE <= state <= ALARM
    ensures WalkState(state, events) == ACTIVE && WalkArms(state, events) == 0
            <==> state == ACTIVE && STOP_EVENT !in events && ALARM_EVENT !in events
    decreases events
  {
    if events != [] {
      assert events == [events[0]] + events[1..];
      SameCycleActive(After(state, events[0]), events[1..]);
    }
  }

  /** Which cycle an alarm answers. A sampling round under way at b ends out of range
      at c, and its event is accepted behind the events already queued. In every run, at
      the point where it is handled, it makes the handler owe ALARM exactly when the walk
      over those events ends in ACTIVE; and that is in the cycle the round was in at b if
      and only if no cycle was begun in between, the state is ACTIVE as the round ends,
      and neither a stop nor an alarm is queued ahead. */
  lemma AlarmAnswersItsCycle(b: Control, during: seq<Event>, es: seq<Event>)
    requires Shaped(b)
    requires var c := Exec(b, during); c.sampling && |c.queue| < QUEUE_SIZE
    requires var c := Exec(b, during);
             var d := Exec(Next(c, SampleEnd(true)), es);
             d.todo == Nothing && |d.handled| == |c.handled| + |c.queue|
    ensures var c := Exec(b, during);
            var r := Next(Exec(Next(c, SampleEnd(true)), es), Handle);
            && (r.todo == Attempt(AlarmSms) <==> WalkState(c.state, c.queue) == ACTIVE)
            && (r.todo == Attempt(AlarmSms) && Arms(r) == Arms(b)
                <==> Arms(c) == Arms(b) && c.state == ACTIVE
                     && STOP_EVENT !in c.queue && ALARM_EVENT !in c.queue)
  {
    var c := Exec(b, during);
    HandledGrows(b, during);
    WhenAlarmIsNext(c, es);
    SameCycleActive(c.state, c.queue);
    AlarmHandled(Exec(Next(c, SampleEnd(true)), es));
  }

  lemma WhenAlarmIsNext(c: Control, es: seq<Event>)
    requires Shaped(c) && c.sampling && |c.queue| < QUEUE_SIZE
    requires |Exec(Next(c, SampleEnd(true)), es).handled| == |c.handled| + |c.queue|
    ensures var d := Exec(Next(c, SampleEnd(true)), es);
            && d.state == WalkState(c.state, c.queue) && Arms(d) == Arms(c) + WalkArms(c.state, c.queue)
            && d.queue != [] && d.queue[0] == ALARM_EVENT
  {
    var ended := Next(c, SampleEnd(true));
    assert ended.queue == c.queue + [ALARM_EVENT] && ended.state == c.state && ended.handled == c.handled;
    OthersWalkNot(c, SampleEnd(true));
    WalkAhead(ended, c.queue, ALARM_EVENT, es);
  }

  lemma AlarmHandled(d: Control)
    requires Shaped(d) && d.todo == Nothing && d.queue != [] && d.queue[0] == ALARM_EVENT
    ensures var r := Next(d, Handle);
            (r.todo == Attempt(AlarmSms) <==> d.state == ACTIVE) && Arms(r) == Arms(d)
  {
    HandledWalks(d);
  }

  // ----- where alarms come from -----

  /** A post is queued and accepted exactly when fewer than 5 events wait. */
  lemma PostAppendsExactly(c: Control, event: int)
    requires Shaped(c)
    ensures Next(c, Post(event))
            == if |c.queue| < 5 then c.(queue := c.queue + [event], accepted := c.accepted + [event]) else c
  {
  }

  /** The end of a round adds the alarm event exactly when a round was under way, it was
      out of range and a slot was free; and no round is under way then. */
  lemma RoundEndPostsExactly(c: Control, outOfRange: bool)
    requires Shaped(c)
    ensures var r := Next(c, SampleEnd(outOfRange));
            && !r.sampling
            && r.queue == c.queue + (if c.sampling && outOfRange && |c.queue| < 5 then [ALARM_EVENT] else [])
            && r.accepted == c.accepted + (if c.sampling && outOfRange && |c.queue| < 5 then [ALARM_EVENT] else [])
  {
  }

  /** No alarm is waiting to be handled or owed, and none was attempted. */
  ghost predicate NoAlarm(c: Control) {
    ALARM_EVENT !in c.queue && AlarmSms !in c.sent && AlarmSms !in Owed(c.todo)
  }

  lemma NoAlarmStep(c: Control, e: Event)
    requires Shaped(c) && NoAlarm(c) && e != SampleEnd(true) && e != Post(ALARM_EVENT)
    ensures NoAlarm(Next(c, e))
  {
    match e
    case Post(event) =>
    case Handle =>
      if c.queue != [] && c.todo == Nothing {
        assert c.queue[0] in c.queue;
      }
    case Switch =>
    case Send =>
    case InitImu(success) =>
    case SampleStart =>
    case SampleEnd(outOfRange) =>
  }

  /** An alarm is attempted only if some round ended out of range or the alarm event
      was posted: rounds that end in range alone never raise one. */
  lemma {:induction false} NoAlarmWithoutCause(c: Control, es: seq<Event>)
    requires Shaped(c) && NoAlarm(c) && SampleEnd(true) !in es && Post(ALARM_EVENT) !in es
    ensures NoAlarm(Exec(c, es))
    decreases es
  {
    if es != [] {
      hide NoAlarm;
      assert es[0] in es;
      NoAlarmStep(c, es[0]);
      NoAlarmWithoutCause(Next(c, es[0]), es[1..]);
    }
  }

  // ----- every event is handled -----

  /** The rounds of the control thread that handle n events. */
  function Rounds(n: nat): seq<Event> {
    if n == 0 then [] else [Handle, Switch, Send] + Rounds(n - 1)
  }

  lemma RoundExec(c: Control)
    requires Shaped(c)
    ensures Exec(c, [Handle, Switch, Send]) == Round(c)
  {
    ExecOne(c, [], Handle);
    ExecOne(c, [] + [Handle], Switch);
    ExecOne(c, [] + [Handle] + [Switch], Send);
    assert [Handle, Switch, Send] == [] + [Handle] + [Switch] + [Send];
  }

  lemma RoundHandlesOldest(c: Control)
    requires Shaped(c) && c.todo == Nothing && c.queue != []
    ensures var r := Round(c);
            && r.todo == Nothing && r.queue == c.queue[1..] && r.handled == c.handled + [c.queue[0]]
            && r.state == After(c.state, c.queue[0])
  {
    hide Completed, RunHandler;
    HandlerMoves(c.(queue := c.queue[1..], handled := c.handled + [c.queue[0]]), c.queue[0]);
    HandlerEndsKeepsHandled(Next(c, Handle));
  }

  lemma HandlerEndsKeepsHandled(c: Control)
    requires Shaped(c)
    ensures var r := Completed(c);
            r.todo == Nothing && r.queue == c.queue && r.state == c.state && r.handled == c.handled
  {
  }

  lemma FirstRoundThenRest(c: Control, n: nat)
    requires Shaped(c) && n > 0
    ensures Exec(c, Rounds(n)) == Exec(Round(c), Rounds(n - 1))
  {
    hide Next, Round;
    RoundExec(c);
    ExecConcat(c, [Handle, Switch, Send], Rounds(n - 1));
  }

  lemma NoRounds(c: Control)
    requires Shaped(c)
    ensures Exec(c, Rounds(0)) == c
  {
  }

  /** Between two events, as many rounds as events wait handle them all, in order, and
      lead to the state the walk over them says. */
  lemma {:induction false} EveryEventHandled(c: Control)
    requires Shaped(c) && c.todo == Nothing
    ensures var r := Exec(c, Rounds(|c.queue|));
            Quiescent(r) && r.handled == c.handled + c.queue && r.state == WalkState(c.state, c.queue)
    decreases |c.queue|
  {
    hide Next, Round, Exec, After, Rounds;
    if c.queue == [] {
      NoRounds(c);
      assert c.handled + c.queue == c.handled;
    } else {
      FirstRoundThenRest(c, |c.queue|);
      RoundHandlesOldest(c);
      EveryEventHandled(Round(c));
      assert c.queue == [c.queue[0]] + c.queue[1..];
      assert c.handled + [c.queue[0]] + c.queue[1..] == c.handled + c.queue;
    }
  }

  // ----- the enable flag, the mailbox and the reports -----

  /** A balance event leads to a report exactly when it directly follows a request. */
  ghost predicate Alternating(notes: seq<Note>) {
    notes != [] ==>
      var before, last := notes[..|notes| - 1], notes[|notes| - 1];
      Alternating(before) && (last != Asked ==> (last == Reported <==> Pending(before)))
  }

  ghost predicate Pending(notes: seq<Note>) {
    notes != [] && notes[|notes| - 1] == Asked
  }

  /** The flag of a state against the notes of that state. */
  ghost predicate NotesAt(waiting: bool, notes: seq<Note>) {
    Alternating(notes) && (waiting <==> Pending(notes))
  }

  ghost predicate NotesInv(c: Control) {
    && |c.waiting| == |c.notes| == 3
    && forall s :: 0 <= s < 3 ==> NotesAt(c.waiting[s], c.notes[s])
  }

  /** A handler switches the accelerometer on only as it enters ACTIVE, and off
      only as it enters IDLE. */
  ghost predicate TodoFits(c: Control) {
    && (c.todo.SwitchImu? && c.todo.on ==> c.state == ACTIVE && c.todo.sms == ArmSms)
    && (c.todo.SwitchImu? && !c.todo.on ==> c.state == IDLE && c.todo.sms == DisarmSms)
  }

  /** A stop handler has set the state and not yet switched the accelerometer off. */
  ghost predicate Stopping(c: Control) {
    c.todo == SwitchImu(false, DisarmSms)
  }

  ghost predicate Inv(c: Control) {
    && Shaped(c) && TodoFits(c)
    && (c.enabled ==> c.inited && (c.state != IDLE || Stopping(c)))
    && |c.queue| <= QUEUE_SIZE
    && c.handled + c.queue == c.accepted
    && NotesInv(c)
  }

  lemma NoteAdded(waiting: bool, notes: seq<Note>, n: Note)
    requires NotesAt(waiting, notes) && (n != Asked ==> (n == Reported <==> waiting))
    ensures NotesAt(n == Asked, notes + [n])
  {
    assert (notes + [n])[..|notes|] == notes;
  }

  lemma CommonKeepsNotes(c: Control, s: nat, event: int)
    requires s < 3 && NotesInv(c)
    ensures NotesInv(Common(c, s, event))
  {
    var r := Common(c, s, event);
    if event == STATE_EVENT {
      NoteAdded(c.waiting[s], c.notes[s], Asked);
      assert NotesAt(r.waiting[s], r.notes[s]);
    } else if event == BALANCE_EVENT {
      NoteAdded(c.waiting[s], c.notes[s], if c.waiting[s] then Reported else Dropped);
      assert NotesAt(r.waiting[s], r.notes[s]);
    }
  }

  lemma HandlerKeepsNotes(h: Handler, c: Control, event: int)
    requires NotesInv(c)
    ensures NotesInv(RunHandler(h, c, event))
  {
    CommonKeepsNotes(c, IDLE, event);
    CommonKeepsNotes(c, ACTIVE, event);
    CommonKeepsNotes(c, ALARM, event);
  }

  lemma HandledKeepsInv(c: Control)
    requires Inv(c) && c.queue != [] && c.todo == Nothing
    ensures Inv(Handled(c))
  {
    var c1 := c.(queue := c.queue[1..], handled := c.handled + [c.queue[0]]);
    assert c.queue == [c.queue[0]] + c.queue[1..];
    assert c1.handled + c1.queue == c1.accepted;
    HandlerKeepsNotes(c.slots[c.state].value, c1, c.queue[0]);
  }

  lemma StepKeepsInv(c: Control, e: Event)
    requires Inv(c)
    ensures Inv(Next(c, e))
  {
    if e.Handle? && c.queue != [] && c.todo == Nothing {
      HandledKeepsInv(c);
    } else if e.Post? {
      assert c.handled + (c.queue + [e.event]) == c.handled + c.queue + [e.event];
    } else if e.SampleEnd? {
      assert c.handled + (c.queue + [ALARM_EVENT]) == c.handled + c.queue + [ALARM_EVENT];
    }
  }

  lemma {:induction false} RunKeepsInv(c: Control, es: seq<Event>)
    requires Inv(c)
    ensures Inv(Exec(c, es))
    decreases es
  {
    if es != [] {
      StepKeepsInv(c, es[0]);
      RunKeepsInv(Next(c, es[0]), es[1..]);
    }
  }

  /** In every reachable state the control state is IDLE, ACTIVE or ALARM with a
      registered handler, an enabled accelerometer means not IDLE except between the
      two writes of a stop handler, so at event boundaries it means not IDLE, and the
      events are handled in the order they were accepted, at most 5 waiting. */
  lemma ReachableStates(es: seq<Event>)
    ensures var c := Exec(Initial(), es);
            && IDLE <= c.state <= ALARM && c.slots[c.state].Some?
            && (c.enabled ==> c.inited && (c.state != IDLE || Stopping(c)))
            && (c.enabled && c.todo == Nothing ==> c.state != IDLE)
            && c.handled + c.queue == c.accepted && |c.queue| <= 5
  {
    RunKeepsInv(Initial(), es);
  }

  // ----- sampling rounds -----

  /** Step k of the run raises the flag, or lowers it. */
  ghost predicate Switches(es: seq<Event>, k: nat, on: bool)
    requires k < |es|
  {
    var c := Exec(Initial(), es[..k]);
    es[k] == Switch && c.inited && c.todo.SwitchImu? && c.todo.on == on
  }

  /** The flag was raised by step k of the run and not lowered since. */
  ghost predicate UpSince(es: seq<Event>, k: nat) {
    && k < |es| && Switches(es, k, true)
    && forall m :: k < m < |es| ==> !Switches(es, m, false)
  }

  lemma SwitchesEarlier(es: seq<Event>, e: Event, k: nat, on: bool)
    requires k < |es|
    ensures Switches(es + [e], k, on) <==> Switches(es, k, on)
  {
    assert (es + [e])[..k] == es[..k];
  }

  lemma {:induction false} FlagUpSince(es: seq<Event>) returns (k: nat)
    requires Exec(Initial(), es).enabled
    ensures UpSince(es, k)
    decreases |es|
  {
    if es == [] {
      assert false;
    } else {
      var n := |es| - 1;
      var before, e := es[..n], es[n];
      assert es == before + [e];
      ExecOne(Initial(), before, e);
      var c := Exec(Initial(), before);
      if Switches(es, n, true) {
        k := n;
      } else {
        k := FlagUpSince(before);
        SwitchesEarlier(before, e, k, true);
        forall m | k < m < |es| ensures !Switches(es, m, false) {
          if m < n {
            SwitchesEarlier(before, e, m, false);
          }
        }
      }
    }
  }

  /** In every run a sampling round starts only in a period that an arming switch
      opened and no disarming switch has closed. It starts in IDLE exactly when a stop
      handler has set the state and not yet switched the flag off. */
  lemma RoundsStartEnabled(es: seq<Event>)
    ensures var c := Exec(Initial(), es);
            !c.sampling && Next(c, SampleStart).sampling ==>
              (exists k: nat :: UpSince(es, k)) && (c.state == IDLE <==> Stopping(c))
  {
    var c := Exec(Initial(), es);
    RunKeepsInv(Initial(), es);
    if c.enabled {
      var k := FlagUpSince(es);
    }
  }

  /** A wait always returns with the flag up, whatever else is going on, and nothing but
      the start and the end of a round changes whether one is under way. */
  lemma WaitReturnsExactly(c: Control, e: Event)
    requires Shaped(c)
    ensures Next(c, SampleStart).sampling <==> c.sampling || c.enabled
    ensures !e.SampleStart? && !e.SampleEnd? ==> Next(c, e).sampling == c.sampling
  {
  }

  /** That window is open in some run: the round starts after the state is IDLE. */
  lemma RoundStartsInIdle()
    ensures exists es :: var c := Exec(Initial(), es);
              c.state == IDLE && !c.sampling && Next(c, SampleStart).sampling
  {
    var up := Armed();
    var c := Exec(Initial(), up);
    ExecOne(Initial(), up, Post(STOP_EVENT));
    ExecOne(Initial(), up + [Post(STOP_EVENT)], Handle);
    assert Next(c, Post(STOP_EVENT)).queue == [STOP_EVENT];
    assert Exec(Initial(), up + [Post(STOP_EVENT)] + [Handle]).state == IDLE;
  }

  /** A run that arms with the accelerometer up. */
  lemma Armed() returns (es: seq<Event>)
    ensures var c := Exec(Initial(), es);
            c.state == ACTIVE && c.enabled && !c.sampling && Quiescent(c)
  {
    es := [InitImu(true)];
    ExecOne(Initial(), [], InitImu(true));
    assert [] + [InitImu(true)] == es;
    var c := Exec(Initial(), es);
    ExecOne(Initial(), es, Post(START_EVENT));
    es := es + [Post(START_EVENT)];
    assert Exec(Initial(), es).queue == [START_EVENT];
    ExecOne(Initial(), es, Handle);
    es := es + [Handle];
    ExecOne(Initial(), es, Switch);
    es := es + [Switch];
    ExecOne(Initial(), es, Send);
    es := es + [Send];
  }

  // ----- when the flag follows the state -----

  /** The flag follows the state, but for a switch that is still to come. */
  ghost predicate Follows(c: Control) {
    && Shaped(c) && TodoFits(c) && c.inited
    && (!c.todo.SwitchImu? ==> (c.enabled <==> c.state != IDLE))
  }

  lemma {:induction false} KeepsFollowing(c: Control, es: seq<Event>)
    requires Follows(c)
    ensures Follows(Exec(c, es))
    decreases es
  {
    if es != [] {
      KeepsFollowing(Next(c, es[0]), es[1..]);
    }
  }

  lemma {:induction false} StaysDown(c: Control, es: seq<Event>)
    requires Inv(c) && !c.inited && InitImu(true) !in es
    ensures !Exec(c, es).inited
    decreases es
  {
    if es != [] {
      assert es[0] in es;
      StepKeepsInv(c, es[0]);
      StaysDown(Next(c, es[0]), es[1..]);
    }
  }

  /** At every event boundary of every run from c the flag says whether the state is
      IDLE. */
  ghost predicate AlwaysExact(c: Control)
    requires Shaped(c)
  {
    forall es :: var r := Exec(c, es); r.todo == Nothing ==> (r.enabled <==> r.state != IDLE)
  }

  /** Whatever happened before the accelerometer came up, from then on it is enabled
      exactly out of IDLE if and only if it came up in IDLE, or while a start handler
      had still to switch it on. */
  lemma EnabledExactly(before: seq<Event>)
    requires InitImu(true) !in before
    ensures var c := Exec(Initial(), before);
            AlwaysExact(Next(c, InitImu(true))) <==> c.state == IDLE || (c.todo.SwitchImu? && c.todo.on)
  {
    RunKeepsInv(Initial(), before);
    StaysDown(Initial(), before);
    var c := Exec(Initial(), before);
    var up := Next(c, InitImu(true));
    if c.state == IDLE || (c.todo.SwitchImu? && c.todo.on) {
      forall es ensures var r := Exec(up, es); r.todo == Nothing ==> (r.enabled <==> r.state != IDLE) {
        KeepsFollowing(up, es);
      }
    } else {
      var es := if c.todo == Nothing then [] else [Send];
      ExecOne(up, [], Send);
      assert [] + [Send] == [Send];
      var r := Exec(up, es);
      assert r.todo == Nothing && !r.enabled && r.state != IDLE;
    }
  }

  lemma PrefixLater(c: Control, es: seq<Event>, k: nat)
    requires Shaped(c) && es != [] && k < |es|
    ensures Exec(c, es[..k + 1]) == Exec(Next(c, es[0]), es[1..][..k])
  {
    assert es[..k + 1][0] == es[0] && es[..k + 1][1..] == es[1..][..k];
  }

  /** An arming cycle whose switch found the accelerometer down is not watched to its
      end: whatever happens, the flag is raised only after the state was IDLE again. */
  lemma {:induction false} ArmedWithoutSensor(c: Control, es: seq<Event>)
    requires Shaped(c) && !c.enabled && c.state != IDLE && !(c.todo.SwitchImu? && c.todo.on)
    requires Exec(c, es).enabled
    ensures exists k: nat :: k <= |es| && Exec(c, es[..k]).state == IDLE
    decreases es
  {
    if es == [] {
      assert false;
    } else {
      var d, rest := Next(c, es[0]), es[1..];
      if d.state == IDLE {
        ExecOne(c, [], es[0]);
        assert es[..1] == [] + [es[0]];
        assert Exec(c, es[..1]).state == IDLE;
      } else {
        ArmedWithoutSensor(d, rest);
        var k: nat :| k <= |rest| && Exec(d, rest[..k]).state == IDLE;
        PrefixLater(c, es, k);
      }
    }
  }

  function Count(notes: seq<Note>, n: Note): nat {
    if notes == [] then 0
    else Count(notes[..|notes| - 1], n) + (if notes[|notes| - 1] == n then 1 else 0)
  }

  lemma {:induction false} AlternatingCounts(notes: seq<Note>)
    requires Alternating(notes)
    ensures Count(notes, Reported) + (if Pending(notes) then 1 else 0) <= Count(notes, Asked)
    decreases notes
  {
    if notes != [] {
      AlternatingCounts(notes[..|notes| - 1]);
    }
  }

  lemma CountAdded(notes: seq<Note>, x: Note, n: Note)
    ensures Count(notes + [x], n) == Count(notes, n) + (if x == n then 1 else 0)
  {
    assert (notes + [x])[..|notes|] == notes;
  }

  function Occurs(events: seq<int>, event: int): nat {
    if events == [] then 0
    else Occurs(events[..|events| - 1], event) + (if events[|events| - 1] == event then 1 else 0)
  }

  lemma OccursAdded(events: seq<int>, x: int, event: int)
    ensures Occurs(events + [x], event) == Occurs(events, event) + (if x == event then 1 else 0)
  {
    assert (events + [x])[..|events|] == events;
  }

  function Total(notes: seq<seq<Note>>, n: Note): nat
    requires |notes| == 3
  {
    Count(notes[IDLE], n) + Count(notes[ACTIVE], n) + Count(notes[ALARM], n)
  }

  /** Every state request handled and every balance event handled is noted once. */
  ghost predicate NotesCount(c: Control) {
    && |c.notes| == 3
    && Total(c.notes, Asked) == Occurs(c.handled, STATE_EVENT)
    && Total(c.notes, Reported) + Total(c.notes, Dropped) == Occurs(c.handled, BALANCE_EVENT)
  }

  /** A handler notes an event with the current state, or not at all. */
  lemma HandlerNotes(c: Control, event: int)
    requires Shaped(c)
    ensures var r := RunHandler(c.slots[c.state].value, c, event);
            && r.handled == c.handled
            && r.notes == (if event == STATE_EVENT then Noted(c.notes, c.state, Asked)
                           else if event == BALANCE_EVENT
                           then Noted(c.notes, c.state, if c.waiting[c.state] then Reported else Dropped)
                           else c.notes)
  {
  }

  function Noted(notes: seq<seq<Note>>, s: nat, x: Note): (r: seq<seq<Note>>)
    requires s < |notes|
    ensures |r| == |notes|
  {
    notes[s := notes[s] + [x]]
  }

  lemma TotalAdded(notes: seq<seq<Note>>, s: nat, x: Note, n: Note)
    requires |notes| == 3 && s < 3
    ensures Total(Noted(notes, s, x), n) == Total(notes, n) + (if x == n then 1 else 0)
  {
    CountAdded(notes[s], x, n);
  }

  lemma HandledKeepsCount(c: Control)
    requires Shaped(c) && c.queue != [] && NotesCount(c)
    ensures NotesCount(Handled(c))
  {
    var event := c.queue[0];
    var c1 := c.(queue := c.queue[1..], handled := c.handled + [event]);
    HandlerNotes(c1, event);
    OccursAdded(c.handled, event, STATE_EVENT);
    OccursAdded(c.handled, event, BALANCE_EVENT);
    forall x, n ensures Total(Noted(c.notes, c.state, x), n) == Total(c.notes, n) + (if x == n then 1 else 0) {
      TotalAdded(c.notes, c.state, x, n);
    }
  }

  lemma {:induction false} RunKeepsCount(c: Control, es: seq<Event>)
    requires Shaped(c) && NotesCount(c)
    ensures NotesCount(Exec(c, es))
    decreases es
  {
    hide RunHandler, Handled, Total, Occurs;
    if es != [] {
      if es[0].Handle? && c.queue != [] && c.todo == Nothing {
        HandledKeepsCount(c);
      }
      RunKeepsCount(Next(c, es[0]), es[1..]);
    }
  }

  /** Report conservation: every state request and every balance event handled is
      noted once, with the state that handled it. For each state separately a balance
      event leads to a report exactly when it directly follows a request, so the
      reports attempted there plus the pending flag never exceed the requests. */
  lemma ReportConservation(es: seq<Event>, s: nat)
    requires s < 3
    ensures var c := Exec(Initial(), es);
            && NotesCount(c)
            && Alternating(c.notes[s])
            && (c.waiting[s] <==> Pending(c.notes[s]))
            && Count(c.notes[s], Reported) + (if c.waiting[s] then 1 else 0) <= Count(c.notes[s], Asked)
  {
    RunKeepsInv(Initial(), es);
    RunKeepsCount(Initial(), es);
    var c := Exec(Initial(), es);
    assert NotesAt(c.waiting[s], c.notes[s]);
    AlternatingCounts(c.notes[s]);
  }

  // ----- the code -----

  class Controller {
    var state: int
    const slots: array<Option<Handler>>
    var waitIdle: bool
    var waitActive: bool
    var waitAlarm: bool
    var queue: seq<int>
    var inited: bool
    var enabled: bool
    var sampling: bool
    ghost var todo: Todo
    ghost var sent: seq<Sms>
    ghost var notes: seq<seq<Note>>
    ghost var accepted: seq<int>
    ghost var handled: seq<int>

    ghost function View(): Control
      reads this, slots
    {
      Control(state, slots[..], [waitIdle, waitActive, waitAlarm], queue, todo, inited, enabled, sampling,
              sent, notes, accepted, handled)
    }

    ghost predicate Valid()
      reads this, slots
    {
      Inv(View())
    }

    /** profileInit */
    constructor ()
      ensures Valid() && fresh(slots) && View() == Initial()
    {
      slots := new Option<Handler>[STATES](_ => None);
      waitIdle, waitActive, waitAlarm := false, false, false;
      queue, todo, inited, enabled, sampling := [], Nothing, false, false, false;
      sent, notes, accepted, handled := [], [[], [], []], [], [];
      state := IDLE;
      new;
      var a := StateAdd(IDLE, DoStateIdle);
      var b := StateAdd(ACTIVE, DoStateActive);
      var c := StateAdd(ALARM, DoStateAlarm);
      var d := StateAdd(TEST, DoStateTest);
      assert slots[..] == ProfileSlots();
    }

    /** ctrlStateAdd */
    method StateAdd(state: int, cb: Handler) returns (ok: bool)
      requires slots.Length == STATES
      modifies slots
      ensures ok <==> 0 <= state < STATES
      ensures slots[..] == if ok then old(slots[..])[state := Some(cb)] else old(slots[..])
    {
      if state < 0 || state >= STATES {
        return false;
      }
      slots[state] := Some(cb);
      return true;
    }

    /** ctrlEventPost */
    method EventPost(event: int) returns (ok: bool)
      requires Valid()
      modifies this
      ensures Valid()
      ensures View() == Next(old(View()), Post(event))
      ensures ok <==> |old(queue)| < 5
      ensures queue == if ok then old(queue) + [event] else old(queue)
    {
      StepKeepsInv(View(), Post(event));
      if |queue| == QUEUE_SIZE {
        return false;
      }
      queue := queue + [event];
      accepted := accepted + [event];
      return true;
    }

    /** One round of ctrlAppTask once the mailbox is not empty, without interference. */
    method TaskRound()
      requires Valid() && queue != [] && todo == Nothing
      modifies this
      ensures Valid() && todo == Nothing
      ensures View() == Round(old(View()))
    {
      StepKeepsInv(View(), Handle);
      StepKeepsInv(Next(View(), Handle), Switch);
      StepKeepsInv(Next(Next(View(), Handle), Switch), Send);
      var event := queue[0];
      queue := queue[1..];
      handled := handled + [event];
      ChangeState(event);
    }

    /** changeState: dispatch through the slot of the current state. */
    method ChangeState(event: int)
      requires Shaped(View()) && todo == Nothing
      modifies this
      ensures View() == Completed(RunHandler(old(View()).slots[old(state)].value, old(View()), event))
      ensures todo == Nothing
    {
      var cb := slots[state].value;
      match cb
      case DoStateIdle => RunIdle(event);
      case DoStateActive => RunActive(event);
      case DoStateAlarm => RunAlarm(event);
      case DoStateTest =>
    }

    /** doStateIdle */
    method RunIdle(event: int)
      requires Shaped(View()) && todo == Nothing
      modifies this
      ensures View() == Completed(OnIdle(old(View()), event)) && todo == Nothing
    {
      if event == START_EVENT {
        state := ACTIVE;
        todo := SwitchImu(true, ArmSms);
        SwitchAndSend(true, ArmSms);
      } else if event == STATE_EVENT {
        notes := notes[IDLE := notes[IDLE] + [Asked]];
        waitIdle := true;
      } else if event == BALANCE_EVENT {
        if waitIdle {
          notes := notes[IDLE := notes[IDLE] + [Reported]];
          waitIdle := false;
        } else {
          notes := notes[IDLE := notes[IDLE] + [Dropped]];
        }
      }
    }

    /** doStateActive */
    method RunActive(event: int)
      requires Shaped(View()) && todo == Nothing
      modifies this
      ensures View() == Completed(OnActive(old(View()), event)) && todo == Nothing
    {
      if event == STOP_EVENT {
        state := IDLE;
        todo := SwitchImu(false, DisarmSms);
        SwitchAndSend(false, DisarmSms);
      } else if event == ALARM_EVENT {
        state := ALARM;
        todo := Attempt(AlarmSms);
        SmsSend(AlarmSms);
      } else if event == STATE_EVENT {
        notes := notes[ACTIVE := notes[ACTIVE] + [Asked]];
        waitActive := true;
      } else if event == BALANCE_EVENT {
        if waitActive {
          notes := notes[ACTIVE := notes[ACTIVE] + [Reported]];
          waitActive := false;
        } else {
          notes := notes[ACTIVE := notes[ACTIVE] + [Dropped]];
        }
      }
    }

    /** doStateAlarm */
    method RunAlarm(event: int)
      requires Shaped(View()) && todo == Nothing
      modifies this
      ensures View() == Completed(OnAlarm(old(View()), event)) && todo == Nothing
    {
      if event == STOP_EVENT {
        state := IDLE;
        todo := SwitchImu(false, DisarmSms);
        SwitchAndSend(false, DisarmSms);
      } else if event == STATE_EVENT {
        notes := notes[ALARM := notes[ALARM] + [Asked]];
        waitAlarm := true;
      } else if event == BALANCE_EVENT {
        if waitAlarm {
          notes := notes[ALARM := notes[ALARM] + [Reported]];
          waitAlarm := false;
        } else {
          notes := notes[ALARM := notes[ALARM] + [Dropped]];
        }
      }
    }

    /** The two calls that end a start or stop handler. */
    method SwitchAndSend(on: bool, sms: Sms)
      requires Shaped(View()) && todo == SwitchImu(on, sms)
      modifies this`enabled, this`todo, this`sent
      ensures View() == Completed(old(View())) && todo == Nothing
    {
      var ready := ImuSwitch(on);
      SmsSend(sms);
    }

    /** The attempt to send a message; its failure is only logged. */
    method SmsSend(sms: Sms)
      requires Shaped(View()) && todo == Attempt(sms)
      modifies this`todo, this`sent
      ensures View() == Next(old(View()), Send)
    {
      sent := sent + [sms];
      todo := Nothing;
    }

    /** accelGyroInit, with the outcome of its register traffic. */
    method GyroInit(success: bool)
      requires Valid()
      modifies this`inited
      ensures Valid()
      ensures View() == Next(old(View()), InitImu(success))
    {
      if success {
        inited := true;
      }
    }

    /** The accelerometer thread leaves imuWait, which it can only with the flag up. */
    method ImuWaitReturns()
      requires Valid() && !sampling && enabled
      modifies this`sampling
      ensures Valid() && sampling && (state == IDLE <==> Stopping(View()))
      ensures View() == Next(old(View()), SampleStart)
    {
      sampling := true;
    }

    /** The end of a sampling round: an angle out of range posts the alarm event. */
    method RoundDone(outOfRange: bool)
      requires Valid() && sampling
      modifies this
      ensures Valid()
      ensures View() == Next(old(View()), SampleEnd(outOfRange))
      ensures !sampling
      ensures queue == old(queue) + (if outOfRange && |old(queue)| < 5 then [ALARM_EVENT] else [])
    {
      sampling := false;
      if outOfRange {
        var ok := EventPost(ALARM_EVENT);
      }
    }

    /** imuEnable and imuDisable, called by a handler. */
    method ImuSwitch(on: bool) returns (ready: bool)
      requires Shaped(View()) && todo.SwitchImu? && todo.on == on
      modifies this`enabled, this`todo
      ensures View() == Next(old(View()), Switch) && ready == inited
    {
      todo := Attempt(todo.sms);
      if !inited {
        return false;
      }
      enabled := on;
      return true;
    }
  }
}
