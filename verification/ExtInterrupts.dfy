/**
 The external-interrupt handshake: the interrupt handler disables its channel and
 posts it to a mailbox without looking at the result, and a task fetches the
 channel, runs its callback and enables it again.
 */
module ExtInterrupts {

  /** Where the thread is: waiting, about to run the callback, or about to enable. */
  datatype Task = Waiting | Fetched(channel: nat) | Ran(channel: nat)

  /** `taken` and `called` are history: the interrupts taken and the callbacks run.
      The mailbox has one slot for each of the |enabled| channels. */
  datatype Ext = Ext(enabled: seq<bool>, mailbox: seq<nat>, task: Task, taken: seq<nat>, called: seq<nat>)

  datatype Event = Interrupt(channel: nat) | Fetch | RunCallback | Enable

  /** chMBPostI, whose result the handler ignores. */
  function Posted(mailbox: seq<nat>, slots: nat, channel: nat): seq<nat> {
    if |mailbox| < slots then mailbox + [channel] else mailbox
  }

  /** The step of an event; an event that cannot happen changes nothing. */
  function Next(x: Ext, e: Event): Ext {
    match e
    case Interrupt(channel) =>
      if channel < |x.enabled| && x.enabled[channel]
      then x.(enabled := x.enabled[channel := false],
              mailbox := Posted(x.mailbox, |x.enabled|, channel),
              taken := x.taken + [channel])
      else x
    case Fetch =>
      if x.task.Waiting? && x.mailbox != []
      then x.(task := Fetched(x.mailbox[0]), mailbox := x.mailbox[1..])
      else x
    case RunCallback =>
      if x.task.Fetched? then x.(task := Ran(x.task.channel), called := x.called + [x.task.channel]) else x
    case Enable =>
      if x.task.Ran? && x.task.channel < |x.enabled|
      then x.(task := Waiting, enabled := x.enabled[x.task.channel := true])
      else x
  }

  function Exec(x: Ext, es: seq<Event>): Ext
    decreases es
  {
    if es == [] then x else Exec(Next(x, es[0]), es[1..])
  }

  /** The driver just started, with the auto-started channels enabled. */
  ghost predicate Started(x: Ext) {
    x.mailbox == [] && x.task.Waiting? && x.taken == [] && x.called == []
  }

  // ----- the token of a channel -----

  ghost function Held(task: Task, channel: nat): nat {
    if !task.Waiting? && task.channel == channel then 1 else 0
  }

  /** Enabled, waiting in the mailbox, or in the hands of the thread. */
  ghost function Tokens(x: Ext, channel: nat): nat {
    (if channel < |x.enabled| && x.enabled[channel] then 1 else 0)
    + multiset(x.mailbox)[channel]
    + Held(x.task, channel)
  }

  ghost predicate OneTokenEach(x: Ext) {
    && (forall channel :: Tokens(x, channel) <= 1)
    && (forall channel :: channel >= |x.enabled| ==> Tokens(x, channel) == 0)
  }

  /** Pigeonhole: distinct numbers from a set are at most as many as the set. */
  lemma {:induction false} DistinctFit(s: seq<nat>, room: set<nat>)
    requires forall x :: x in s ==> x in room
    requires forall c: nat :: multiset(s)[c] <= 1
    ensures |s| <= |room|
    decreases s
  {
    if s != [] {
      var last := s[|s| - 1];
      var rest: seq<nat> := s[..|s| - 1];
      assert s == rest + [last];
      assert multiset(s)[last] <= 1;
      forall c: nat ensures multiset(rest)[c] <= 1 {
        assert multiset(s)[c] <= 1;
      }
      forall x | x in rest ensures x in room - {last} {
        assert x in multiset(rest);
      }
      DistinctFit(rest, room - {last});
    }
  }

  lemma {:induction false} Below(n: nat) returns (room: set<nat>)
    ensures |room| == n && forall i: nat :: i in room <==> i < n
  {
    if n == 0 {
      room := {};
    } else {
      room := Below(n - 1);
      room := room + {n - 1};
    }
  }

  lemma MailboxInRange(x: Ext)
    requires OneTokenEach(x)
    ensures forall c :: c in x.mailbox ==> c < |x.enabled|
  {
    forall c | c in x.mailbox ensures c < |x.enabled| {
      assert c in multiset(x.mailbox);
      assert Tokens(x, c) > 0;
    }
  }

  /** An enabled channel always finds a free slot. */
  lemma PostSucceeds(x: Ext, channel: nat)
    requires OneTokenEach(x) && channel < |x.enabled| && x.enabled[channel]
    ensures |x.mailbox| < |x.enabled|
  {
    var s: seq<nat> := x.mailbox + [channel];
    forall c: nat ensures multiset(s)[c] <= 1 {
      assert Tokens(x, c) <= 1;
    }
    MailboxInRange(x);
    var room := Below(|x.enabled|);
    DistinctFit(s, room);
  }

  lemma StepConservesTokens(x: Ext, e: Event, channel: nat)
    requires OneTokenEach(x)
    ensures Tokens(Next(x, e), channel) == Tokens(x, channel)
  {
    match e
    case Interrupt(c) =>
      if c < |x.enabled| && x.enabled[c] {
        PostSucceeds(x, c);
      }
    case Fetch =>
      if x.task.Waiting? && x.mailbox != [] {
        assert x.mailbox == [x.mailbox[0]] + x.mailbox[1..];
      }
    case RunCallback =>
    case Enable =>
      if x.task.Ran? {
        assert Tokens(x, x.task.channel) <= 1;
      }
  }

  /** Every interrupt taken is called, being called or waiting, in order. */
  ghost predicate Fifo(x: Ext) {
    x.taken == x.called + (if x.task.Fetched? then [x.task.channel] else []) + x.mailbox
  }

  lemma StepKeepsFifo(x: Ext, e: Event)
    requires OneTokenEach(x) && Fifo(x)
    ensures Fifo(Next(x, e))
  {
    match e
    case Interrupt(c) =>
      if c < |x.enabled| && x.enabled[c] {
        PostSucceeds(x, c);
      }
    case Fetch =>
      if x.task.Waiting? && x.mailbox != [] {
        assert x.mailbox == [x.mailbox[0]] + x.mailbox[1..];
      }
    case RunCallback =>
    case Enable =>
  }

  lemma {:induction false} RunKeeps(x: Ext, es: seq<Event>)
    requires OneTokenEach(x) && Fifo(x)
    ensures var r := Exec(x, es);
            OneTokenEach(r) && Fifo(r) && |r.enabled| == |x.enabled| && forall c: nat :: Tokens(r, c) == Tokens(x, c)
    decreases es
  {
    if es != [] {
      var y := Next(x, es[0]);
      forall c: nat ensures Tokens(y, c) == Tokens(x, c) {
        StepConservesTokens(x, es[0], c);
      }
      StepKeepsFifo(x, es[0]);
      RunKeeps(y, es[1..]);
    }
  }

  /** Token conservation: in every interleaving each channel keeps exactly the token
      it started with, so it is never in two of the three places, and a channel
      not enabled at the start is never posted or called. */
  lemma TokenConservation(x: Ext, es: seq<Event>, channel: nat)
    requires Started(x)
    ensures Tokens(Exec(x, es), channel) == (if channel < |x.enabled| && x.enabled[channel] then 1 else 0)
  {
    RunKeeps(x, es);
  }

  /** The unchecked post never fails, and every interrupt taken is pending or has
      had exactly one callback, in the order they were taken. */
  lemma PostsNeverFail(x: Ext, es: seq<Event>)
    requires Started(x)
    ensures var r := Exec(x, es);
            && |r.mailbox| <= |x.enabled|
            && (forall c :: 0 <= c < |r.enabled| && r.enabled[c] ==> |r.mailbox| < |r.enabled|)
            && r.called <= r.taken
            && r.taken[|r.called|..] == (if r.task.Fetched? then [r.task.channel] else []) + r.mailbox
  {
    RunKeeps(x, es);
    var r := Exec(x, es);
    forall c | 0 <= c < |r.enabled| && r.enabled[c] ensures |r.mailbox| < |r.enabled| {
      PostSucceeds(r, c);
    }
    forall c: nat ensures multiset(r.mailbox)[c] <= 1 {
      assert Tokens(r, c) <= 1;
    }
    MailboxInRange(r);
    var room := Below(|r.enabled|);
    DistinctFit(r.mailbox, room);
  }

  // ----- service -----

  /** An interrupt on an enabled channel is always taken, whatever the thread is doing:
      its channel is disabled and waits last. */
  lemma InterruptTaken(x: Ext, channel: nat)
    requires OneTokenEach(x) && channel < |x.enabled| && x.enabled[channel]
    ensures Next(x, Interrupt(channel))
            == x.(enabled := x.enabled[channel := false], mailbox := x.mailbox + [channel],
                  taken := x.taken + [channel])
  {
    PostSucceeds(x, channel);
  }

  /** One round of the thread serves the oldest channel: its callback has run once
      more, it has left the mailbox, and it is enabled. */
  lemma ServesOldest(x: Ext)
    requires x.task.Waiting? && x.mailbox != [] && x.mailbox[0] < |x.enabled|
    ensures var channel := x.mailbox[0];
            Next(Next(Next(x, Fetch), RunCallback), Enable)
            == x.(called := x.called + [channel], mailbox := x.mailbox[1..],
                  enabled := x.enabled[channel := true])
  {
  }

  /** n rounds of the thread, none interrupted. */
  function Rounds(n: nat): seq<Event> {
    if n == 0 then [] else [Fetch, RunCallback, Enable] + Rounds(n - 1)
  }

  lemma {:induction false} ExecConcat(x: Ext, a: seq<Event>, b: seq<Event>)
    ensures Exec(x, a + b) == Exec(Exec(x, a), b)
    decreases a
  {
    if a == [] {
      assert a + b == b;
    } else {
      assert (a + b)[0] == a[0] && (a + b)[1..] == a[1..] + b;
      ExecConcat(Next(x, a[0]), a[1..], b);
    }
  }

  lemma OneRound(x: Ext)
    ensures Exec(x, [Fetch, RunCallback, Enable]) == Next(Next(Next(x, Fetch), RunCallback), Enable)
  {
    assert [Fetch, RunCallback, Enable][1..] == [RunCallback, Enable] && [RunCallback, Enable][1..] == [Enable];
    assert Exec(Next(Next(x, Fetch), RunCallback), [Enable])
           == Exec(Next(Next(Next(x, Fetch), RunCallback), Enable), [Enable][1..]);
  }

  /** From a waiting thread, as many rounds as channels wait run all their callbacks
      in order and empty the mailbox. */
  lemma {:induction false} RoundsServeAll(x: Ext)
    requires x.task.Waiting? && forall c :: c in x.mailbox ==> c < |x.enabled|
    ensures var r := Exec(x, Rounds(|x.mailbox|));
            && r.called == x.called + x.mailbox && r.mailbox == [] && r.task.Waiting? && r.taken == x.taken
            && |r.enabled| == |x.enabled|
    decreases |x.mailbox|
  {
    if x.mailbox == [] {
      assert x.called + x.mailbox == x.called;
    } else {
      var channel, rest := x.mailbox[0], x.mailbox[1..];
      assert x.mailbox == [channel] + rest;
      assert channel in x.mailbox && forall c :: c in rest ==> c in x.mailbox;
      ServesOldest(x);
      OneRound(x);
      var y := x.(called := x.called + [channel], mailbox := rest, enabled := x.enabled[channel := true]);
      ExecConcat(x, [Fetch, RunCallback, Enable], Rounds(|rest|));
      RoundsServeAll(y);
      assert y.called + rest == x.called + x.mailbox;
    }
  }

  /** What brings the thread back to waiting. */
  function Finish(task: Task): seq<Event> {
    match task
    case Waiting => []
    case Fetched(_) => [RunCallback, Enable]
    case Ran(_) => [Enable]
  }

  lemma Finishes(x: Ext)
    requires OneTokenEach(x)
    ensures var r := Exec(x, Finish(x.task));
            && r.task.Waiting? && r.mailbox == x.mailbox && r.taken == x.taken
            && r.called == x.called + (if x.task.Fetched? then [x.task.channel] else [])
  {
    if !x.task.Waiting? {
      assert Tokens(x, x.task.channel) > 0;
    }
    assert [RunCallback, Enable][1..] == [Enable];
    assert Exec(x, [Enable]) == Exec(Next(x, Enable), [Enable][1..]);
    assert Exec(Next(x, RunCallback), [Enable]) == Exec(Next(Next(x, RunCallback), Enable), [Enable][1..]);
  }

  /** No interrupt is left unserved: whatever ran before, finitely many steps of the
      thread run every outstanding callback, so that the callbacks run are the
      interrupts taken, in order, and leave every starting channel enabled again. */
  lemma EveryInterruptServed(x: Ext, before: seq<Event>) returns (es: seq<Event>)
    requires Started(x)
    ensures forall e :: e in es ==> !e.Interrupt?
    ensures var r := Exec(Exec(x, before), es);
            r.called == r.taken == Exec(x, before).taken && r.mailbox == [] && r.task.Waiting? && r.enabled == x.enabled
  {
    RunKeeps(x, before);
    var y := Exec(x, before);
    Finishes(y);
    RunKeeps(y, Finish(y.task));
    var z := Exec(y, Finish(y.task));
    MailboxInRange(z);
    RoundsServeAll(z);
    es := Finish(y.task) + Rounds(|z.mailbox|);
    ExecConcat(y, Finish(y.task), Rounds(|z.mailbox|));
    RoundsHoldNoInterrupt(|z.mailbox|);
    RunKeeps(z, Rounds(|z.mailbox|));
    var r := Exec(z, Rounds(|z.mailbox|));
    forall c | 0 <= c < |x.enabled| ensures r.enabled[c] == x.enabled[c] {
      assert Tokens(r, c) == Tokens(x, c);
    }
  }

  lemma {:induction false} RoundsHoldNoInterrupt(n: nat)
    ensures forall e :: e in Rounds(n) ==> !e.Interrupt?
  {
    if n > 0 {
      RoundsHoldNoInterrupt(n - 1);
    }
  }

  // ----- the code -----

  class ExtDriver {
    const enabled: array<bool>
    var mailbox: seq<nat>
    var task: Task
    ghost var taken: seq<nat>
    ghost var called: seq<nat>

    ghost function View(): Ext
      reads this, enabled
    {
      Ext(enabled[..], mailbox, task, taken, called)
    }

    ghost predicate Valid()
      reads this, enabled
    {
      OneTokenEach(View())
    }

    /** extStart with the auto-started channels. */
    constructor (enabled: array<bool>)
      ensures Valid() && Started(View()) && this.enabled == enabled
    {
      this.enabled := enabled;
      mailbox, task, taken, called := [], Waiting, [], [];
    }

    /** extApp_cb, the interrupt handler: the post is not checked, and need not be. */
    method InterruptCb(channel: nat)
      requires Valid() && channel < enabled.Length && enabled[channel]
      modifies this, enabled
      ensures Valid()
      ensures View() == Next(old(View()), Interrupt(channel))
      ensures mailbox == old(mailbox) + [channel] && enabled[..] == old(enabled[..])[channel := false]
    {
      ghost var before := View();
      PostSucceeds(before, channel);
      forall c: nat ensures Tokens(Next(before, Interrupt(channel)), c) == Tokens(before, c) {
        StepConservesTokens(before, Interrupt(channel), c);
      }
      enabled[channel] := false;
      if |mailbox| < enabled.Length {
        mailbox := mailbox + [channel];
      }
      taken := taken + [channel];
      assert enabled[..] == before.enabled[channel := false];
      assert View() == Next(before, Interrupt(channel));
    }

    /** One round of extTask once the mailbox is not empty: its three steps. */
    method FetchChannel() returns (channel: nat)
      requires Valid() && task.Waiting? && mailbox != []
      modifies this
      ensures Valid()
      ensures View() == Next(old(View()), Fetch)
      ensures channel == old(mailbox)[0] && mailbox == old(mailbox)[1..] && task == Fetched(channel)
    {
      ghost var before := View();
      forall c: nat ensures Tokens(Next(before, Fetch), c) == Tokens(before, c) {
        StepConservesTokens(before, Fetch, c);
      }
      channel := mailbox[0];
      mailbox := mailbox[1..];
      task := Fetched(channel);
      assert View() == Next(before, Fetch);
    }

    method CallBack()
      requires Valid() && task.Fetched?
      modifies this
      ensures Valid()
      ensures View() == Next(old(View()), RunCallback)
      ensures called == old(called) + [old(task).channel] && task == Ran(old(task).channel)
    {
      ghost var before := View();
      forall c: nat ensures Tokens(Next(before, RunCallback), c) == Tokens(before, c) {
        StepConservesTokens(before, RunCallback, c);
      }
      called := called + [task.channel];
      task := Ran(task.channel);
      assert View() == Next(before, RunCallback);
    }

    method EnableChannel()
      requires Valid() && task.Ran?
      modifies this, enabled
      ensures Valid()
      ensures View() == Next(old(View()), Enable) && task.Waiting?
      ensures enabled[..] == old(enabled[..])[old(task).channel := true]
    {
      ghost var before := View();
      assert Tokens(before, task.channel) > 0;
      forall c: nat ensures Tokens(Next(before, Enable), c) == Tokens(before, c) {
        StepConservesTokens(before, Enable, c);
      }
      enabled[task.channel] := true;
      assert enabled[..] == before.enabled[task.channel := true];
      task := Waiting;
      assert View() == Next(before, Enable);
    }
  }
}
