/**
 The transmit side of the GSM driver: producers post commands into a bounded
 mailbox, the GSM task writes one command and waits for a response, and a
 one-shot timer makes it put the last command back at the head of the mailbox.
 `Next` is one atomic step of the whole system; the methods of `GsmTask` are the
 pieces of code that take these steps.
 */
module GsmTransmit {
  import opened GsmResponse
  import opened GsmParser
  import opened GsmFrames

  /** MAILBOX_QUEUE_TX_SIZE */
  const QUEUE_SIZE: nat := 20
  /** The size of gsmCurrCmd, the copy of the last command. */
  const KEPT: nat := 32
  const MAX_BUF_LEN: nat := 128

  /** A command put on the wire; `original` unless it is a re-sent copy. */
  datatype Write = Write(text: string, original: bool)

  /** Where the GSM thread is in its loop. */
  datatype Phase = Top | Fetch | Read

  /** `copied` tells whether the head of the queue is a re-sent copy. It and the
      fields after it are history: the driver does not keep them. */
  datatype Link = Link(
    queue: seq<string>, ack: bool, id: nat, current: string, resend: bool, armed: bool,
    phase: Phase,
    copied: bool, accepted: seq<string>, writes: seq<Write>, acks: nat, forced: nat)

  /** One step. `granted` tells whether the heap gave a block; `beyond` is what lies
      in memory behind a copy, up to the next NUL, read when the copy itself has no
      terminator: behind the posted block, or behind gsmCurrCmd (and the block it is
      copied to). */
  datatype Event =
    | Post(command: string, granted: bool, beyond: string)
    | Fire
    | Wake(granted: bool, beyond: string)
    | Dispatch
    | Receive(texts: seq<string>)

  /** The C string in the block gsmLlCmdBufAllocate fills: strncpy copies at most
      MAX_BUF_LEN + 1 bytes, the terminator included if it is among them. */
  function Block(command: string, beyond: string): string {
    if |command| <= MAX_BUF_LEN then command else command[..MAX_BUF_LEN + 1] + beyond
  }

  /** strncpy into 32 bytes. */
  function Kept(command: string): string {
    if |command| <= KEPT then command else command[..KEPT]
  }

  /** The C string read back from those 32 bytes. */
  function Resent(current: string, beyond: string): string {
    if |current| < KEPT then current else current + beyond
  }

  predicate CanPost(l: Link, granted: bool) {
    granted && |l.queue| < QUEUE_SIZE
  }

  /** One delivered text: it may open the transmitter and stop the timer. */
  function Hear(l: Link, text: string): Link {
    var response := Classify(CString(text));
    l.(ack := l.ack || SetsAck(response),
       acks := l.acks + (if SetsAck(response) && !l.ack then 1 else 0),
       armed := l.armed && !StopsTimer(response))
  }

  function HearAll(l: Link, texts: seq<string>): Link
    decreases texts
  {
    if texts == [] then l else HearAll(Hear(l, texts[0]), texts[1..])
  }

  /** A copy is put at the head of the queue, if there is memory and room. */
  function PostedAhead(l: Link, command: string, granted: bool): Link {
    if CanPost(l, granted) then l.(queue := [command] + l.queue, copied := true) else l
  }

  /** The head of the queue is written and kept, and the timer starts. */
  function Dispatched(l: Link): Link
    requires l.queue != []
  {
    l.(phase := Read, queue := l.queue[1..], ack := false, id := l.id + 1,
       current := Kept(l.queue[0]), armed := true,
       copied := false, writes := l.writes + [Write(l.queue[0], !l.copied)])
  }

  /** The step of an event; an event that cannot happen changes nothing. */
  function Next(l: Link, e: Event): Link {
    match e
    case Post(command, granted, beyond) =>
      var text := Block(command, beyond);
      if CanPost(l, granted)
      then l.(queue := l.queue + [text], accepted := l.accepted + [text])
      else l
    case Fire =>
      if l.armed then l.(resend := true, armed := false) else l
    case Wake(granted, beyond) =>
      if l.phase != Top then l
      else if !l.resend then l.(phase := Fetch)
      else
        PostedAhead(l, Resent(l.current, beyond), granted)
          .(phase := Fetch, ack := true, forced := l.forced + (if l.ack then 0 else 1))
    case Dispatch =>
      if l.phase != Fetch then l
      else if !l.ack || l.queue == [] then l.(phase := Read)
      else Dispatched(l)
    case Receive(texts) =>
      if l.phase != Read then l else HearAll(l.(phase := Top), texts)
  }

  /** The analysis touches only the acknowledgement, its count and the timer. */
  lemma {:induction false} HearEffect(l: Link, texts: seq<string>)
    ensures var r := HearAll(l, texts);
            r == l.(ack := r.ack, acks := r.acks, armed := r.armed)
    ensures var r := HearAll(l, texts);
            r.acks - l.acks == (if r.ack && !l.ack then 1 else 0) && (l.ack ==> r.ack) && (r.armed ==> l.armed)
    decreases texts
  {
    if texts != [] {
      HearEffect(Hear(l, texts[0]), texts[1..]);
    }
  }

  function Exec(l: Link, es: seq<Event>): Link
    decreases es
  {
    if es == [] then l else Exec(Next(l, es[0]), es[1..])
  }

  const INITIAL := Link([], true, 0, "", false, false, Top, false, [], [], 0, 0)

  // ----- what every interleaving keeps -----

  function Fresh(writes: seq<Write>): seq<string> {
    if writes == [] then []
    else
      var last := writes[|writes| - 1];
      Fresh(writes[..|writes| - 1]) + (if last.original then [last.text] else [])
  }

  /** The accepted commands still waiting. */
  function Waiting(l: Link): seq<string>
    requires l.copied ==> l.queue != []
  {
    if l.copied then l.queue[1..] else l.queue
  }

  /** A re-sent text against the text written just before it. */
  ghost predicate Repeats(previous: string, text: string) {
    if |previous| < KEPT then text == previous else previous[..KEPT] <= text
  }

  ghost predicate RepeatsFollow(writes: seq<Write>) {
    forall i :: 0 <= i < |writes| && !writes[i].original ==> i > 0 && Repeats(writes[i - 1].text, writes[i].text)
  }

  /** The queue, the two histories and the kept copy agree. */
  ghost predicate QueueInv(l: Link) {
    && |l.queue| <= QUEUE_SIZE
    && (l.copied ==> l.queue != [] && l.phase == Fetch && l.ack && l.writes != []
                     && Repeats(l.writes[|l.writes| - 1].text, l.queue[0]))
    && Fresh(l.writes) + Waiting(l) == l.accepted
    && RepeatsFollow(l.writes)
    && (l.writes != [] ==> l.current == Kept(l.writes[|l.writes| - 1].text))
  }

  ghost predicate Inv(l: Link) {
    && QueueInv(l)
    && (l.armed || l.resend ==> l.writes != [])
    && |l.writes| == l.id == l.acks + l.forced + (if l.ack then 0 else 1)
  }

  lemma PostKeepsInv(l: Link, command: string, granted: bool, beyond: string)
    requires Inv(l)
    ensures Inv(Next(l, Post(command, granted, beyond)))
  {
    var r := Next(l, Post(command, granted, beyond));
    if r != l {
      assert Waiting(r) == Waiting(l) + [Block(command, beyond)];
    }
  }

  lemma WakeKeepsInv(l: Link, granted: bool, beyond: string)
    requires Inv(l)
    ensures Inv(Next(l, Wake(granted, beyond)))
  {
    var r := Next(l, Wake(granted, beyond));
    if r.copied && !l.copied {
      assert Waiting(r) == l.queue;
    }
  }

  lemma FreshAppend(writes: seq<Write>, w: Write)
    ensures Fresh(writes + [w]) == Fresh(writes) + (if w.original then [w.text] else [])
    ensures RepeatsFollow(writes) && (w.original || (writes != [] && Repeats(writes[|writes| - 1].text, w.text)))
            ==> RepeatsFollow(writes + [w])
  {
    assert (writes + [w])[..|writes|] == writes;
  }

  lemma DispatchedKeepsQueue(l: Link)
    requires QueueInv(l) && l.queue != []
    ensures QueueInv(Dispatched(l))
  {
    var w := Write(l.queue[0], !l.copied);
    FreshAppend(l.writes, w);
    var writes := l.writes + [w];
    assert writes[|writes| - 1] == w;
    assert Fresh(writes) + l.queue[1..] == Fresh(l.writes) + Waiting(l);
  }

  lemma DispatchKeepsInv(l: Link)
    requires Inv(l)
    ensures Inv(Next(l, Dispatch))
  {
    if l.phase == Fetch && l.ack && l.queue != [] {
      DispatchedKeepsQueue(l);
    }
  }

  lemma StepKeepsInv(l: Link, e: Event)
    requires Inv(l)
    ensures Inv(Next(l, e))
  {
    match e
    case Post(command, granted, beyond) => PostKeepsInv(l, command, granted, beyond);
    case Fire =>
    case Wake(granted, beyond) => WakeKeepsInv(l, granted, beyond);
    case Dispatch => DispatchKeepsInv(l);
    case Receive(texts) =>
      HearEffect(l.(phase := Top), texts);
  }

  lemma {:induction false} RunKeepsInv(l: Link, es: seq<Event>)
    requires Inv(l)
    ensures Inv(Exec(l, es))
    decreases es
  {
    if es != [] {
      StepKeepsInv(l, es[0]);
      RunKeepsInv(Next(l, es[0]), es[1..]);
    }
  }

  /** Queue refinement: in every interleaving of producers, timer and task, the
      fresh writes followed by the waiting commands are the accepted posts in
      order, every other write repeats the one just before it, and the mailbox
      holds at most 20 commands. */
  lemma QueueRefinement(es: seq<Event>)
    ensures var l := Exec(INITIAL, es);
            && (l.copied ==> l.queue != [])
            && Fresh(l.writes) + Waiting(l) == l.accepted
            && RepeatsFollow(l.writes)
            && |l.queue| <= 20
  {
    RunKeepsInv(INITIAL, es);
  }

  /** Each step writes at most one command: the oldest accepted one not yet
      written, or a repeat of the immediately preceding write. */
  lemma WritesOldestOrRepeats(es: seq<Event>, e: Event)
    ensures var l := Exec(INITIAL, es);
            var r := Next(l, e);
            r.writes == l.writes || exists w :: r.writes == l.writes + [w] && Allowed(l, w)
  {
    RunKeepsInv(INITIAL, es);
    var l := Exec(INITIAL, es);
    if e.Receive? {
      HearEffect(l.(phase := Top), e.texts);
    } else if e.Dispatch? && l.phase == Fetch && l.ack && l.queue != [] {
      var w := Write(l.queue[0], !l.copied);
      assert w.original ==> w.text == (Fresh(l.writes) + l.queue)[|Fresh(l.writes)|];
      assert Allowed(l, w);
    }
  }

  /** The oldest accepted command not yet written, or a repeat of the last write. */
  ghost predicate Allowed(l: Link, w: Write) {
    if w.original then |Fresh(l.writes)| < |l.accepted| && w.text == l.accepted[|Fresh(l.writes)|]
    else l.writes != [] && Repeats(l.writes[|l.writes| - 1].text, w.text)
  }

  lemma {:induction false} ShortOriginalsRepeat(writes: seq<Write>, k: nat)
    requires RepeatsFollow(writes) && k < |writes|
    requires forall i :: 0 <= i < |writes| && writes[i].original ==> |writes[i].text| < KEPT
    ensures |writes[k].text| < KEPT
    ensures !writes[k].original ==> k > 0 && writes[k].text == writes[k - 1].text
    decreases k
  {
    if !writes[k].original {
      ShortOriginalsRepeat(writes, k - 1);
    }
  }

  lemma {:induction false} OriginalIsFresh(writes: seq<Write>, k: nat)
    requires k < |writes| && writes[k].original
    ensures writes[k].text in Fresh(writes)
    decreases |writes|
  {
    if k < |writes| - 1 {
      OriginalIsFresh(writes[..|writes| - 1], k);
    }
  }

  /** Every posted command has at most 31 characters. */
  predicate ShortPosts(es: seq<Event>) {
    forall e :: e in es && e.Post? ==> |e.command| <= 31
  }

  lemma {:induction false} ShortPostsAccepted(l: Link, es: seq<Event>)
    requires ShortPosts(es) && forall text :: text in l.accepted ==> |text| < KEPT
    ensures forall text :: text in Exec(l, es).accepted ==> |text| < KEPT
    decreases es
  {
    if es != [] {
      assert es[0] in es;
      if es[0].Receive? {
        HearEffect(l.(phase := Top), es[0].texts);
      }
      ShortPostsAccepted(Next(l, es[0]), es[1..]);
    }
  }

  /** When every posted command has at most 31 characters, every write of the run
      that is not an original is the write just before it again. */
  lemma ShortCommandsRepeatExactly(es: seq<Event>, k: nat)
    requires ShortPosts(es)
    ensures var writes := Exec(INITIAL, es).writes;
            k < |writes| && !writes[k].original ==> k > 0 && writes[k].text == writes[k - 1].text
  {
    RunKeepsInv(INITIAL, es);
    ShortPostsAccepted(INITIAL, es);
    var l := Exec(INITIAL, es);
    forall i | 0 <= i < |l.writes| && l.writes[i].original
      ensures |l.writes[i].text| < KEPT
    {
      OriginalIsFresh(l.writes, i);
      assert l.writes[i].text in l.accepted;
    }
    if k < |l.writes| {
      ShortOriginalsRepeat(l.writes, k);
    }
  }

  /** A command is re-sent unchanged whatever memory follows its copy exactly
      when it is shorter than the copy. */
  lemma ResentExactly(command: string)
    ensures (forall beyond :: Resent(Kept(command), beyond) == command) <==> |command| <= 31
  {
    if |command| >= KEPT {
      var beyond := if |command| == KEPT then "x" else "";
      assert |Resent(Kept(command), beyond)| != |command|;
      assert Resent(Kept(command), beyond) != command;
    }
  }

  /** Posts with memory granted, one after another. */
  function Posts(commands: seq<string>): seq<Event> {
    if commands == [] then [] else [Post(commands[0], true, "")] + Posts(commands[1..])
  }

  function Blocks(commands: seq<string>): (r: seq<string>)
    ensures |r| == |commands|
  {
    if commands == [] then [] else [Block(commands[0], "")] + Blocks(commands[1..])
  }

  /** l with these texts accepted at the tail of its queue. */
  function Accepting(l: Link, texts: seq<string>): Link {
    l.(queue := l.queue + texts, accepted := l.accepted + texts)
  }

  /** A post appends its text exactly when memory is granted and one of the 20 slots is
      free, and otherwise changes nothing. */
  lemma PostAppendsExactly(l: Link, command: string, granted: bool, beyond: string)
    ensures Next(l, Post(command, granted, beyond))
            == if granted && |l.queue| < 20 then Accepting(l, [Block(command, beyond)]) else l
  {
  }

  lemma AcceptingMore(l: Link, a: seq<string>, b: seq<string>)
    ensures Accepting(Accepting(l, a), b) == Accepting(l, a + b)
  {
    assert l.queue + a + b == l.queue + (a + b) && l.accepted + a + b == l.accepted + (a + b);
  }

  function UpTo(texts: seq<string>, room: nat): seq<string> {
    texts[..if |texts| <= room then |texts| else room]
  }

  /** The mailbox takes 20 commands: of any commands posted in a row the first ones
      that fit wait in order behind those already there, and the rest is refused. */
  lemma {:induction false} PostsFillQueue(l: Link, commands: seq<string>)
    requires |l.queue| <= 20
    ensures Exec(l, Posts(commands)) == Accepting(l, UpTo(Blocks(commands), 20 - |l.queue|))
    decreases commands
  {
    if commands == [] {
      assert l.queue + [] == l.queue && l.accepted + [] == l.accepted;
    } else {
      hide Next, Block;
      var r, block, more := Next(l, Post(commands[0], true, "")), Block(commands[0], ""), Blocks(commands[1..]);
      PostAppendsExactly(l, commands[0], true, "");
      assert Posts(commands)[1..] == Posts(commands[1..]);
      PostsFillQueue(r, commands[1..]);
      if |l.queue| < 20 {
        AcceptingMore(l, [block], UpTo(more, 20 - |r.queue|));
        assert [block] + UpTo(more, 20 - |r.queue|) == UpTo([block] + more, 20 - |l.queue|);
      } else {
        assert UpTo(more, 0) == UpTo([block] + more, 0) == [];
      }
    }
  }

  /** From start-up the first 20 of any commands wait in order. */
  lemma StartUpPosts(commands: seq<string>)
    ensures Exec(INITIAL, Posts(commands)).queue == UpTo(Blocks(commands), 20)
  {
    PostsFillQueue(INITIAL, commands);
  }

  /** A posted command is queued unchanged whatever the heap holds exactly when it
      has at most 128 characters. */
  lemma QueuedExactly(command: string)
    ensures (forall beyond :: Block(command, beyond) == command) <==> |command| <= 128
  {
    if |command| > MAX_BUF_LEN {
      var beyond := if |command| == MAX_BUF_LEN + 1 then "x" else "";
      assert |Block(command, beyond)| != |command|;
      assert Block(command, beyond) != command;
    }
  }

  predicate NoTimeouts(es: seq<Event>) {
    forall e :: e in es ==> !e.Fire?
  }

  lemma {:induction false} NoTimeoutsNoResends(l: Link, es: seq<Event>)
    requires !l.resend && NoTimeouts(es)
    ensures var r := Exec(l, es); !r.resend && r.forced == l.forced
    decreases es
  {
    if es != [] {
      assert !es[0].Fire?;
      if es[0].Receive? {
        HearEffect(l.(phase := Top), es[0].texts);
      }
      NoTimeoutsNoResends(Next(l, es[0]), es[1..]);
    }
  }

  /** Stop-and-wait: the writes are counted by the command number, and every write
      but an outstanding one was followed by a turn of the acknowledgement, caused
      by a response or, once the timer has fired, by the resend. */
  lemma StopAndWait(es: seq<Event>)
    ensures var l := Exec(INITIAL, es);
            && |l.writes| == l.id == l.acks + l.forced + (if l.ack then 0 else 1)
            && (NoTimeouts(es) ==> l.forced == 0 && |l.writes| == l.acks + (if l.ack then 0 else 1))
  {
    RunKeepsInv(INITIAL, es);
    if NoTimeouts(es) {
      NoTimeoutsNoResends(INITIAL, es);
    }
  }

  lemma {:induction false} HeardAck(l: Link, texts: seq<string>)
    ensures HearAll(l, texts).ack <==>
            l.ack || exists i :: 0 <= i < |texts| && SetsAck(Classify(CString(texts[i])))
    decreases texts
  {
    if texts != [] {
      HeardAck(Hear(l, texts[0]), texts[1..]);
      assert forall i :: 0 < i < |texts| ==> texts[i] == texts[1..][i - 1];
    }
  }

  /** The acknowledgement turns true exactly when a text that sets it is received,
      or when the GSM thread wakes with the resend flag up. */
  lemma AckTurnsTrue(l: Link, e: Event)
    requires !l.ack
    ensures Next(l, e).ack <==>
            || (e.Wake? && l.phase == Top && l.resend)
            || (e.Receive? && l.phase == Read &&
                exists i :: 0 <= i < |e.texts| && SetsAck(Classify(CString(e.texts[i]))))
  {
    if e.Receive? {
      HeardAck(l.(phase := Top), e.texts);
    }
  }

  lemma {:induction false} HeardTimer(l: Link, texts: seq<string>)
    ensures HearAll(l, texts).armed <==>
            l.armed && forall i :: 0 <= i < |texts| ==> !StopsTimer(Classify(CString(texts[i])))
    decreases texts
  {
    if texts != [] {
      HeardTimer(Hear(l, texts[0]), texts[1..]);
      assert forall i :: 0 < i < |texts| ==> texts[i] == texts[1..][i - 1];
    }
  }

  /** The timer runs after a step exactly when the step wrote a command, or it ran
      before and the step neither fired it nor received `OK` or `>`. */
  lemma TimerExactly(l: Link, e: Event)
    ensures Next(l, e).armed <==>
            || |Next(l, e).writes| > |l.writes|
            || (l.armed && !e.Fire? &&
                !(e.Receive? && l.phase == Read &&
                  exists i :: 0 <= i < |e.texts| && StopsTimer(Classify(CString(e.texts[i])))))
  {
    if e.Receive? && l.phase == Read {
      HeardTimer(l.(phase := Top), e.texts);
      HearEffect(l.(phase := Top), e.texts);
    }
  }

  lemma {:induction false} ExecOne(l: Link, es: seq<Event>, e: Event)
    ensures Exec(l, es + [e]) == Next(Exec(l, es), e)
    decreases es
  {
    if es == [] {
      assert Exec(l, [e]) == Exec(Next(l, e), [e][1..]);
    } else {
      assert (es + [e])[0] == es[0] && (es + [e])[1..] == es[1..] + [e];
      ExecOne(Next(l, es[0]), es[1..], e);
    }
  }

  /** One round of the thread, driven to its end. */
  lemma OneRound(l: Link, es: seq<Event>, texts: seq<string>) returns (es': seq<Event>)
    requires l == Exec(INITIAL, es)
    ensures Exec(INITIAL, es') == Next(Next(Next(l, Wake(true, "")), Dispatch), Receive(texts))
  {
    ExecOne(INITIAL, es, Wake(true, ""));
    ExecOne(INITIAL, es + [Wake(true, "")], Dispatch);
    ExecOne(INITIAL, es + [Wake(true, "")] + [Dispatch], Receive(texts));
    es' := es + [Wake(true, "")] + [Dispatch] + [Receive(texts)];
  }

  /** An answer that opens the transmitter without stopping the timer, such as
      `ERROR`, leaves it running: the timer then has a command written again that
      was already answered. */
  lemma AnsweredCommandRepeated(command: string, text: string)
    requires |command| < KEPT
    requires SetsAck(Classify(CString(text))) && !StopsTimer(Classify(CString(text)))
    ensures exists es :: var l := Exec(INITIAL, es);
              l.acks == 1 && l.forced == 0 && l.writes == [Write(command, true), Write(command, false)]
  {
    ExecOne(INITIAL, [], Post(command, true, ""));
    var posted := Next(INITIAL, Post(command, true, ""));
    var es := OneRound(posted, [] + [Post(command, true, "")], [text]);
    var answered := Exec(INITIAL, es);
    AnswerLeavesTimer(posted, command, text);
    ExecOne(INITIAL, es, Fire);
    es := OneRound(Next(answered, Fire), es + [Fire], []);
    assert Exec(INITIAL, es).writes == [Write(command, true), Write(command, false)];
  }

  lemma AnswerLeavesTimer(l: Link, command: string, text: string)
    requires l == Next(INITIAL, Post(command, true, "")) && |command| < KEPT
    requires SetsAck(Classify(CString(text))) && !StopsTimer(Classify(CString(text)))
    ensures var r := Next(Next(Next(l, Wake(true, "")), Dispatch), Receive([text]));
            && r.armed && r.ack && r.acks == 1 && r.forced == 0 && r.queue == [] && r.phase == Top
            && r.current == command && !r.copied && r.writes == [Write(command, true)]
  {
    var w := Dispatched(l.(phase := Fetch));
    assert HearAll(w.(phase := Top), [text]) == HearAll(Hear(w.(phase := Top), text), [text][1..]);
  }

  lemma WritesGrow(l: Link, e: Event)
    ensures var r := Next(l, e); r.writes == l.writes || exists w :: r.writes == l.writes + [w]
  {
    if e.Receive? {
      HearEffect(l.(phase := Top), e.texts);
    }
    if e.Dispatch? && l.phase == Fetch && l.ack && l.queue != [] {
      assert Next(l, e).writes == l.writes + [Write(l.queue[0], !l.copied)];
    }
  }

  lemma {:induction false} WritesStay(l: Link, es: seq<Event>)
    ensures l.writes <= Exec(l, es).writes
    decreases es
  {
    if es != [] {
      WritesGrow(l, es[0]);
      WritesStay(Next(l, es[0]), es[1..]);
    }
  }

  /** If the run writes a command at all, the first one is an original. */
  ghost predicate NextWriteOriginal(l: Link, es: seq<Event>) {
    var writes := Exec(l, es).writes;
    |writes| > |l.writes| ==> writes[|l.writes|].original
  }

  /** Nothing can get a copy into the queue before the next write. */
  ghost predicate NoCopyComes(l: Link) {
    !l.copied && ((!l.resend && !l.armed) || |l.queue| == QUEUE_SIZE)
  }

  lemma NoCopyStep(l: Link, e: Event)
    requires NoCopyComes(l) && |l.queue| <= QUEUE_SIZE
    ensures var r := Next(l, e);
            || (r.writes == l.writes && NoCopyComes(r) && |r.queue| <= QUEUE_SIZE)
            || (|r.writes| == |l.writes| + 1 && r.writes[|l.writes|].original)
  {
    if e.Receive? {
      HearEffect(l.(phase := Top), e.texts);
    }
  }

  lemma {:induction false} NoCopyNextWriteOriginal(l: Link, es: seq<Event>)
    requires NoCopyComes(l) && |l.queue| <= QUEUE_SIZE
    ensures NextWriteOriginal(l, es)
    decreases es
  {
    if es != [] {
      var r := Next(l, es[0]);
      NoCopyStep(l, es[0]);
      if r.writes == l.writes {
        NoCopyNextWriteOriginal(r, es[1..]);
      } else {
        WritesStay(r, es[1..]);
      }
    }
  }

  lemma TimerRepeats(l: Link)
    requires l.phase == Top && l.ack && l.armed && |l.queue| < QUEUE_SIZE
    ensures !NextWriteOriginal(l, [Fire, Wake(true, ""), Dispatch])
  {
    ExecOne(l, [], Fire);
    ExecOne(l, [] + [Fire], Wake(true, ""));
    ExecOne(l, [] + [Fire] + [Wake(true, "")], Dispatch);
    assert [Fire, Wake(true, ""), Dispatch] == [] + [Fire] + [Wake(true, "")] + [Dispatch];
  }

  /** The thread waits for the answer to a write, and the timer has not fired. */
  ghost predicate Awaiting(l: Link) {
    Inv(l) && l.phase == Read && l.armed && !l.resend
  }

  /** An answer that opens the transmitter settles the command, so that no run writes
      it again next, if and only if the answer stops the timer or the queue has no
      slot for a copy. */
  lemma AnswerSettlesExactly(l: Link, text: string)
    requires Awaiting(l) && SetsAck(Classify(CString(text)))
    ensures (forall es :: NextWriteOriginal(Next(l, Receive([text])), es))
            <==> CString(text) == "OK" || CString(text) == ">" || |l.queue| == 20
  {
    var r, heard := Next(l, Receive([text])), Hear(l.(phase := Top), text);
    assert HearAll(heard, [text][1..]) == heard;
    assert r == heard;
    StopTexts(CString(text));
    if StopsTimer(Classify(CString(text))) || |l.queue| == QUEUE_SIZE {
      forall es ensures NextWriteOriginal(r, es) {
        NoCopyNextWriteOriginal(r, es);
      }
    } else {
      TimerRepeats(r);
    }
  }

  // ----- service -----

  /** One loop of the thread in which the module answers OK. */
  function AnsweredLoop(): seq<Event> {
    [Wake(true, ""), Dispatch, Receive(["OK"])]
  }

  function AnsweredLoops(n: nat): seq<Event> {
    if n == 0 then [] else AnsweredLoop() + AnsweredLoops(n - 1)
  }

  /** Ready for the next command: the thread is at the top of its loop, the last
      command is settled, and no copy is about. */
  predicate Settled(l: Link) {
    l.phase == Top && l.ack && !l.resend && !l.copied
  }

  function Originals(commands: seq<string>): seq<Write> {
    if commands == [] then [] else [Write(commands[0], true)] + Originals(commands[1..])
  }

  lemma OkSettles(l: Link)
    ensures var r := HearAll(l, ["OK"]); r.ack && !r.armed && r == l.(ack := true, armed := false, acks := r.acks)
  {
    assert CString("OK") == "OK" by {
      assert "OK"[1..] == "K" && "K"[1..] == "";
    }
    StopTexts("OK");
    assert HearAll(Hear(l, "OK"), ["OK"][1..]) == Hear(l, "OK");
  }

  /** An answered loop writes the oldest command and settles it. */
  lemma LoopWritesOldest(l: Link)
    requires Settled(l) && l.queue != []
    ensures var r := Exec(l, AnsweredLoop());
            Settled(r) && !r.armed && r.queue == l.queue[1..] && r.writes == l.writes + [Write(l.queue[0], true)]
  {
    var dispatched := Dispatched(l.(phase := Fetch));
    OkSettles(dispatched.(phase := Top));
    assert AnsweredLoop()[1..] == [Dispatch, Receive(["OK"])];
    assert [Dispatch, Receive(["OK"])][1..] == [Receive(["OK"])];
    assert Exec(dispatched, [Receive(["OK"])]) == Exec(Next(dispatched, Receive(["OK"])), [Receive(["OK"])][1..]);
  }

  lemma {:induction false} ExecConcat(l: Link, a: seq<Event>, b: seq<Event>)
    ensures Exec(l, a + b) == Exec(Exec(l, a), b)
    decreases a
  {
    if a == [] {
      assert a + b == b;
    } else {
      assert (a + b)[0] == a[0] && (a + b)[1..] == a[1..] + b;
      ExecConcat(Next(l, a[0]), a[1..], b);
    }
  }

  /** Every waiting command is written: from a settled state, as many answered loops as
      commands wait write them all, in order, each once, and leave the queue empty. */
  lemma {:induction false} EveryCommandWritten(l: Link)
    requires Settled(l)
    ensures var r := Exec(l, AnsweredLoops(|l.queue|));
            Settled(r) && r.queue == [] && r.writes == l.writes + Originals(l.queue)
    decreases |l.queue|
  {
    if l.queue == [] {
      assert l.writes + Originals(l.queue) == l.writes;
    } else {
      hide Settled, Dispatched, PostedAhead, HearAll;
      LoopWritesOldest(l);
      var r := Exec(l, AnsweredLoop());
      ExecConcat(l, AnsweredLoop(), AnsweredLoops(|l.queue| - 1));
      EveryCommandWritten(r);
      assert l.writes + Originals(l.queue) == l.writes + [Write(l.queue[0], true)] + Originals(r.queue);
    }
  }

  /** Whenever the thread wakes, there is memory and a slot for a copy. */
  ghost predicate RoomAtEveryWake(l: Link, es: seq<Event>)
    decreases es
  {
    es == [] || ((es[0].Wake? && l.phase == Top ==> CanPost(l, es[0].granted))
                 && RoomAtEveryWake(Next(l, es[0]), es[1..]))
  }

  /** The resend flag is never cleared: once it is up, as long as every wake finds
      memory and a slot, the thread writes copies only, and no new command ever. */
  lemma {:induction false} OnlyCopiesAfterTimeout(l: Link, es: seq<Event>)
    requires Inv(l) && l.resend && (l.phase == Fetch ==> l.copied) && RoomAtEveryWake(l, es)
    ensures Fresh(Exec(l, es).writes) == Fresh(l.writes)
    decreases es
  {
    if es != [] {
      var r := Next(l, es[0]);
      StepKeepsInv(l, es[0]);
      ResendStays(l, es[0]);
      OnlyCopiesAfterTimeout(r, es[1..]);
    }
  }

  lemma ResendStays(l: Link, e: Event)
    requires Inv(l) && l.resend && (l.phase == Fetch ==> l.copied)
    requires e.Wake? && l.phase == Top ==> CanPost(l, e.granted)
    ensures var r := Next(l, e);
            r.resend && (r.phase == Fetch ==> r.copied) && Fresh(r.writes) == Fresh(l.writes)
  {
    if e.Receive? {
      HearEffect(l.(phase := Top), e.texts);
    } else if e.Dispatch? && l.phase == Fetch {
      FreshAppend(l.writes, Write(l.queue[0], false));
    }
  }

  /** The texts a chunk completes. */
  function NewTexts(rx: Machine, chunk: seq<char>): seq<string>
    requires rx.Resting()
  {
    Run(rx, chunk).out[|rx.out|..]
  }

  /** The module acknowledges with this frame. */
  predicate Acknowledges(f: Frame) {
    SetsAck(Classify(CString(Truncated(Payload(f)))))
  }

  lemma {:induction false} PayloadCount(items: seq<Item>)
    ensures |Payloads(items)| == |items|
    decreases items
  {
    if items != [] {
      PayloadCount(items[1..]);
    }
  }

  lemma {:induction false} PayloadAt(items: seq<Item>, i: nat)
    requires i < |items| == |Payloads(items)|
    ensures Payloads(items)[i] == Truncated(Payload(items[i].frame))
    decreases items
  {
    if i > 0 {
      PayloadAt(items[1..], i - 1);
    }
  }

  lemma PayloadsMatch(items: seq<Item>)
    ensures |Payloads(items)| == |items|
    ensures forall i :: 0 <= i < |items| ==> Payloads(items)[i] == Truncated(Payload(items[i].frame))
  {
    PayloadCount(items);
    forall i | 0 <= i < |items| ensures Payloads(items)[i] == Truncated(Payload(items[i].frame)) {
      PayloadAt(items, i);
    }
  }

  /** Which texts of a read set the acknowledgement. */
  ghost function AckBits(texts: seq<string>): (bits: seq<bool>)
    ensures |bits| == |texts|
  {
    seq(|texts|, i requires 0 <= i < |texts| => SetsAck(Classify(CString(texts[i]))))
  }

  lemma HeardBits(l: Link, texts: seq<string>)
    ensures HearAll(l, texts).ack <==> l.ack || true in AckBits(texts)
  {
    HeardAck(l, texts);
    var bits := AckBits(texts);
    assert forall i :: 0 <= i < |texts| ==> bits[i] == SetsAck(Classify(CString(texts[i])));
  }

  lemma AckAmongPayloads(items: seq<Item>)
    ensures true in AckBits(Payloads(items)) <==> AnyAcknowledges(items)
  {
    PayloadsMatch(items);
    var bits := AckBits(Payloads(items));
    forall i | 0 <= i < |items| ensures bits[i] == Acknowledges(items[i].frame) {
    }
    if i :| 0 <= i < |items| && Acknowledges(items[i].frame) {
      assert bits[i];
    }
  }

  ghost predicate AnyAcknowledges(items: seq<Item>) {
    exists i :: 0 <= i < |items| && Acknowledges(items[i].frame)
  }

  lemma ReceiveAcknowledges(l: Link, texts: seq<string>, items: seq<Item>)
    requires l.phase == Read && texts == Payloads(items)
    ensures Next(l, Receive(texts)).ack <==> l.ack || AnyAcknowledges(items)
  {
    HeardBits(l.(phase := Top), texts);
    AckAmongPayloads(items);
  }

  /** From the wire to the transmitter: a read that holds any list of good frames
      with junk before each opens the transmitter exactly when one of the frames is
      an acknowledgement. */
  lemma StreamAcknowledges(l: Link, rx: Machine, items: seq<Item>)
    requires l.phase == Read && AtRest(rx)
    requires forall item :: item in items ==> GoodItem(item)
    ensures Next(l, Receive(NewTexts(rx, Stream(items)))).ack <==> l.ack || AnyAcknowledges(items)
  {
    StreamTexts(rx, items);
    ReceiveAcknowledges(l, NewTexts(rx, Stream(items)), items);
  }

  lemma StreamTexts(rx: Machine, items: seq<Item>)
    requires AtRest(rx)
    requires forall item :: item in items ==> GoodItem(item)
    ensures NewTexts(rx, Stream(items)) == Payloads(items)
  {
    StreamRoundTrip(rx, items);
  }

  // ----- the code -----

  datatype SendResult = Sent | Failure | NotReady

  class GsmTask {
    var queue: seq<string>
    var ack: bool
    var id: nat
    var current: string
    var resend: bool
    var armed: bool
    var phase: Phase
    ghost var copied: bool
    ghost var accepted: seq<string>
    ghost var writes: seq<Write>
    ghost var acks: nat
    ghost var forced: nat

    ghost predicate Valid()
      reads this
    {
      Inv(View())
    }

    ghost function View(): Link
      reads this
    {
      Link(queue, ack, id, current, resend, armed, phase, copied, accepted, writes, acks, forced)
    }

    constructor ()
      ensures Valid() && View() == INITIAL
    {
      queue, ack, id, current, resend, armed, phase := [], true, 0, "", false, false, Top;
      copied, accepted, writes, acks, forced := false, [], [], 0, 0;
    }

    /** gsmLlCmdSend */
    method CmdSend(command: string, granted: bool, beyond: string) returns (rv: SendResult)
      requires Valid()
      modifies this
      ensures Valid()
      ensures View() == Next(old(View()), Post(command, granted, beyond))
      ensures rv == Sent <==> granted && |old(queue)| < 20
      ensures rv == Sent ==> queue == old(queue) + [Block(command, beyond)]
                             && accepted == old(accepted) + [Block(command, beyond)]
      ensures rv != Sent ==> queue == old(queue) && accepted == old(accepted)
      ensures rv == NotReady <==> !granted
    {
      StepKeepsInv(View(), Post(command, granted, beyond));
      if !granted {
        return NotReady;
      }
      if |queue| == QUEUE_SIZE {
        return Failure;
      }
      queue := queue + [Block(command, beyond)];
      accepted := accepted + [Block(command, beyond)];
      return Sent;
    }

    /** gsmLlTimeoutCb, which the armed timer calls once. */
    method TimeoutCb()
      requires Valid() && armed
      modifies this
      ensures Valid()
      ensures View() == Next(old(View()), Fire)
    {
      armed := false;
      resend := true;
    }

    /** The top of the thread's loop. */
    method ResendAfterTimeout(granted: bool, beyond: string)
      requires Valid() && phase == Top
      modifies this
      ensures Valid()
      ensures View() == Next(old(View()), Wake(granted, beyond))
    {
      StepKeepsInv(View(), Wake(granted, beyond));
      if resend {
        var sent := CmdSendFirst(Resent(current, beyond), granted);
        forced := forced + (if ack then 0 else 1);
        ack := true;
      }
      phase := Fetch;
    }

    /** gsmLlCmdSendFirst */
    method CmdSendFirst(command: string, granted: bool) returns (rv: SendResult)
      modifies this`queue, this`copied
      ensures View() == PostedAhead(old(View()), command, granted)
      ensures rv == Sent <==> granted && |old(queue)| < 20
      ensures queue == if rv == Sent then [command] + old(queue) else old(queue)
      ensures rv == NotReady <==> !granted
    {
      if !granted {
        return NotReady;
      }
      if |queue| >= QUEUE_SIZE {
        return Failure;
      }
      queue := [command] + queue;
      copied := true;
      return Sent;
    }

    /** Fetch the next command once the previous one was answered, and write it. */
    method DispatchNext() returns (written: seq<string>)
      requires Valid() && phase == Fetch
      modifies this
      ensures Valid()
      ensures View() == Next(old(View()), Dispatch)
      ensures written == if old(ack) && old(queue) != [] then [old(queue)[0]] else []
    {
      StepKeepsInv(View(), Dispatch);
      written := [];
      if ack && queue != [] {
        var command := WriteHead();
        written := [command];
      }
      phase := Read;
    }

    /** Take the head of the mailbox, write it, keep a copy and start the timer. */
    method WriteHead() returns (command: string)
      requires queue != []
      modifies this
      ensures View() == Dispatched(old(View())) && command == old(queue)[0]
    {
      command := queue[0];
      writes := writes + [Write(command, !copied)];
      copied := false;
      queue := queue[1..];
      id := id + 1;
      ack := false;
      current := Kept(command);
      armed := true;
      phase := Read;
    }

    /** Read what the port holds, parse it and act on the texts it completes. */
    method ReadPort(parser: Parser, chunk: seq<char>)
      requires Valid() && phase == Read && parser.Valid()
      modifies this, parser, parser.buf
      ensures Valid() && parser.Valid()
      ensures parser.View() == Run(old(parser.View()), chunk)
      ensures View() == Next(old(View()), Receive(NewTexts(old(parser.View()), chunk)))
    {
      var heard := |parser.delivered|;
      var rv, rounds := parser.CmdParse(chunk);
      Analyze(parser.delivered[heard..]);
    }

    /** The effects of the completed texts, in order. */
    method Analyze(texts: seq<string>)
      requires Valid() && phase == Read
      modifies this
      ensures Valid()
      ensures View() == Next(old(View()), Receive(texts))
    {
      StepKeepsInv(View(), Receive(texts));
      phase := Top;
      ghost var start := View();
      var i := 0;
      while i < |texts|
        invariant i <= |texts|
        invariant HearAll(View(), texts[i..]) == HearAll(start, texts)
        decreases |texts| - i
      {
        assert texts[i..][0] == texts[i] && texts[i..][1..] == texts[i + 1..];
        CmdAnalyze(texts[i]);
        i := i + 1;
      }
    }

    /** The acknowledgement and timer effects of gsmModuleCmdAnalyze. */
    method CmdAnalyze(text: string)
      modifies this`ack, this`armed, this`acks
      ensures View() == Hear(old(View()), text)
    {
      var response := Classify(CString(text));
      if SetsAck(response) {
        acks := acks + (if ack then 0 else 1);
        ack := true;
      }
      if StopsTimer(response) {
        armed := false;
      }
    }
  }
}
