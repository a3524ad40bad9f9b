/**
 Ownership of the heap blocks in the logger: any number of producers allocate a
 block, copy their text into it and post it; one consumer prints and frees it.
 `Next` is one atomic step; an access to a block that is not live raises `fault`.
 */
module LogQueue {

  /** LOG_MSG_QUEUE_SIZE */
  const QUEUE_SIZE: nat := 15

  /** Where a producer is inside logEvent. */
  datatype Producer =
    | Idle
    | Allocated(block: nat, text: string)
    | Copied(block: nat, text: string)
    | Refused(block: nat)

  datatype Consumer = Waiting | Fetched(block: nat) | Printed(block: nat)

  /** Who has a block: one producer, the mailbox, or the consumer. */
  datatype Owner = ByProducer(p: nat) | InMailbox | ByConsumer

  /** `owner`, `accepted`, `printed`, `allocations` and `frees` are history: no
      step reads them. */
  datatype Logger = Logger(
    live: set<nat>, content: map<nat, string>, mailbox: seq<nat>,
    producers: map<nat, Producer>, consumer: Consumer, fault: bool,
    owner: map<nat, Owner>, accepted: seq<string>, printed: seq<string>, allocations: nat, frees: nat)

  /** `block` is the allocator's choice among the blocks that are not live; an
      allocation that fails changes nothing. */
  datatype Event =
    | Allocate(p: nat, text: string, block: nat)
    | Copy(p: nat)
    | Post(p: nat)
    | FreeRefused(p: nat)
    | Fetch
    | Print
    | FreePrinted

  function At(producers: map<nat, Producer>, p: nat): Producer {
    if p in producers then producers[p] else Idle
  }

  function TextOf(content: map<nat, string>, block: nat): string {
    if block in content then content[block] else ""
  }

  /** Any use of a block. */
  function Touch(l: Logger, block: nat): Logger {
    if block in l.live then l else l.(fault := true)
  }

  function Free(l: Logger, block: nat): Logger {
    Touch(l, block).(live := l.live - {block}, owner := l.owner - {block}, frees := l.frees + 1)
  }

  /** The step of an event; an event that cannot happen changes nothing. */
  function Next(l: Logger, e: Event): Logger {
    match e
    case Allocate(p, text, block) =>
      if At(l.producers, p).Idle? && block !in l.live
      then l.(live := l.live + {block}, producers := l.producers[p := Allocated(block, text)],
              owner := l.owner[block := ByProducer(p)], allocations := l.allocations + 1)
      else l
    case Copy(p) =>
      if At(l.producers, p).Allocated?
      then
        var Allocated(block, text) := At(l.producers, p);
        Touch(l, block).(content := l.content[block := text], producers := l.producers[p := Copied(block, text)])
      else l
    case Post(p) =>
      if !At(l.producers, p).Copied? then l
      else
        var Copied(block, text) := At(l.producers, p);
        if |l.mailbox| < QUEUE_SIZE
        then l.(mailbox := l.mailbox + [block], accepted := l.accepted + [text],
                owner := l.owner[block := InMailbox], producers := l.producers[p := Idle])
        else l.(producers := l.producers[p := Refused(block)])
    case FreeRefused(p) =>
      if At(l.producers, p).Refused? then Free(l, At(l.producers, p).block).(producers := l.producers[p := Idle]) else l
    case Fetch =>
      if l.consumer.Waiting? && l.mailbox != []
      then l.(consumer := Fetched(l.mailbox[0]), owner := l.owner[l.mailbox[0] := ByConsumer],
              mailbox := l.mailbox[1..])
      else l
    case Print =>
      if l.consumer.Fetched?
      then Touch(l, l.consumer.block).(printed := l.printed + [TextOf(l.content, l.consumer.block)],
                                       consumer := Printed(l.consumer.block))
      else l
    case FreePrinted =>
      if l.consumer.Printed? then Free(l, l.consumer.block).(consumer := Waiting) else l
  }

  function Exec(l: Logger, es: seq<Event>): Logger
    decreases es
  {
    if es == [] then l else Exec(Next(l, es[0]), es[1..])
  }

  const INITIAL := Logger({}, map[], [], map[], Waiting, false, map[], [], [], 0, 0)

  // ----- ownership -----

  /** Producer p holds the block. */
  ghost predicate Holds(producers: map<nat, Producer>, p: nat, block: nat) {
    !At(producers, p).Idle? && At(producers, p).block == block
  }

  ghost predicate Consumes(consumer: Consumer, block: nat) {
    !consumer.Waiting? && consumer.block == block
  }

  /** A producer's step leaves every other producer where it was. */
  lemma ProducerMoves(before: map<nat, Producer>, after: map<nat, Producer>, p: nat, x: Producer)
    requires after == before[p := x]
    ensures forall q :: At(after, q) == if q == p then x else At(before, q)
  {
  }

  ghost predicate ProducersOwn(l: Logger) {
    && (forall p :: !At(l.producers, p).Idle? ==>
          var b := At(l.producers, p).block; b in l.owner && l.owner[b] == ByProducer(p))
    && (forall b :: b in l.owner && l.owner[b].ByProducer? ==>
          var x := At(l.producers, l.owner[b].p); !x.Idle? && x.block == b)
  }

  ghost predicate Distinct(s: seq<nat>) {
    forall i, j :: 0 <= i < j < |s| ==> s[i] != s[j]
  }

  lemma FirstLeaves(s: seq<nat>)
    requires s != [] && Distinct(s)
    ensures Distinct(s[1..]) && forall b :: b in s[1..] <==> b in s && b != s[0]
  {
    assert s == [s[0]] + s[1..];
  }

  lemma LastJoins(s: seq<nat>, x: nat)
    requires Distinct(s) && x !in s
    ensures Distinct(s + [x]) && forall b :: b in s + [x] <==> b in s || b == x
  {
  }

  ghost predicate MailboxOwns(l: Logger) {
    && (forall b :: b in l.mailbox ==> b in l.owner && l.owner[b] == InMailbox)
    && (forall b :: b in l.owner && l.owner[b].InMailbox? ==> b in l.mailbox)
    && Distinct(l.mailbox)
  }

  ghost predicate ConsumerOwns(l: Logger) {
    && (!l.consumer.Waiting? ==> l.consumer.block in l.owner && l.owner[l.consumer.block] == ByConsumer)
    && (forall b :: b in l.owner && l.owner[b].ByConsumer? ==> !l.consumer.Waiting? && l.consumer.block == b)
  }

  /** The labels say exactly who has which block. */
  ghost predicate OwnerInv(l: Logger) {
    l.owner.Keys == l.live && ProducersOwn(l) && MailboxOwns(l) && ConsumerOwns(l)
  }

  ghost predicate CountInv(l: Logger) {
    && !l.fault
    && |l.mailbox| <= QUEUE_SIZE
    && l.allocations == l.frees + |l.live|
  }

  /** The texts of the queued blocks. */
  ghost function Texts(content: map<nat, string>, blocks: seq<nat>): (r: seq<string>)
    ensures |r| == |blocks| && forall i :: 0 <= i < |r| ==> r[i] == TextOf(content, blocks[i])
  {
    seq(|blocks|, i requires 0 <= i < |blocks| => TextOf(content, blocks[i]))
  }

  /** The texts not yet printed, in order. */
  ghost function PendingTexts(l: Logger): seq<string> {
    var queued := Texts(l.content, l.mailbox);
    if l.consumer.Fetched? then [TextOf(l.content, l.consumer.block)] + queued else queued
  }

  ghost predicate TextInv(l: Logger) {
    && (forall p :: At(l.producers, p).Copied? ==> TextOf(l.content, At(l.producers, p).block) == At(l.producers, p).text)
    && l.printed + PendingTexts(l) == l.accepted
  }

  ghost predicate Inv(l: Logger) {
    OwnerInv(l) && CountInv(l) && TextInv(l)
  }

  lemma AllocateKeepsOwners(l: Logger, p: nat, text: string, block: nat)
    requires OwnerInv(l)
    ensures OwnerInv(Next(l, Allocate(p, text, block)))
  {
    if At(l.producers, p).Idle? && block !in l.live {
      ProducerMoves(l.producers, Next(l, Allocate(p, text, block)).producers, p, Allocated(block, text));
    }
  }

  lemma CopyKeepsOwners(l: Logger, p: nat)
    requires OwnerInv(l)
    ensures OwnerInv(Next(l, Copy(p)))
  {
    var x := At(l.producers, p);
    if x.Allocated? {
      ProducerMoves(l.producers, Next(l, Copy(p)).producers, p, Copied(x.block, x.text));
    }
  }

  lemma PostKeepsOwners(l: Logger, p: nat)
    requires OwnerInv(l)
    ensures OwnerInv(Next(l, Post(p)))
  {
    var x, r := At(l.producers, p), Next(l, Post(p));
    if x.Copied? {
      ProducerMoves(l.producers, r.producers, p, if |l.mailbox| < QUEUE_SIZE then Idle else Refused(x.block));
      if |l.mailbox| < QUEUE_SIZE {
        LastJoins(l.mailbox, x.block);
      }
    }
  }

  lemma FreeRefusedKeepsOwners(l: Logger, p: nat)
    requires OwnerInv(l)
    ensures OwnerInv(Next(l, FreeRefused(p)))
  {
    if At(l.producers, p).Refused? {
      ProducerMoves(l.producers, Next(l, FreeRefused(p)).producers, p, Idle);
    }
  }

  lemma FetchKeepsOwners(l: Logger)
    requires OwnerInv(l)
    ensures OwnerInv(Next(l, Fetch))
  {
    if l.consumer.Waiting? && l.mailbox != [] {
      FirstLeaves(l.mailbox);
    }
  }

  lemma PrintKeepsOwners(l: Logger)
    requires OwnerInv(l)
    ensures OwnerInv(Next(l, Print)) && OwnerInv(Next(l, FreePrinted))
  {
  }

  lemma StepKeepsOwners(l: Logger, e: Event)
    requires OwnerInv(l)
    ensures OwnerInv(Next(l, e))
  {
    match e
    case Allocate(p, text, block) => AllocateKeepsOwners(l, p, text, block);
    case Copy(p) => CopyKeepsOwners(l, p);
    case Post(p) => PostKeepsOwners(l, p);
    case FreeRefused(p) => FreeRefusedKeepsOwners(l, p);
    case Fetch => FetchKeepsOwners(l);
    case Print => PrintKeepsOwners(l);
    case FreePrinted => PrintKeepsOwners(l);
  }

  lemma FreeKeepsCounts(l: Logger, block: nat)
    requires CountInv(l) && block in l.live
    ensures CountInv(Free(l, block))
  {
  }

  lemma HoldersAreLive(l: Logger, p: nat)
    requires OwnerInv(l)
    ensures !At(l.producers, p).Idle? ==> At(l.producers, p).block in l.live
    ensures !l.consumer.Waiting? ==> l.consumer.block in l.live
  {
  }

  lemma FreeRefusedKeepsCounts(l: Logger, p: nat)
    requires OwnerInv(l) && CountInv(l)
    ensures CountInv(Next(l, FreeRefused(p)))
  {
    HoldersAreLive(l, p);
    if At(l.producers, p).Refused? {
      FreeKeepsCounts(l, At(l.producers, p).block);
    }
  }

  lemma FreePrintedKeepsCounts(l: Logger)
    requires OwnerInv(l) && CountInv(l)
    ensures CountInv(Next(l, FreePrinted))
  {
    HoldersAreLive(l, 0);
    if l.consumer.Printed? {
      FreeKeepsCounts(l, l.consumer.block);
    }
  }

  lemma UseKeepsCounts(l: Logger, p: nat)
    requires OwnerInv(l) && CountInv(l)
    ensures CountInv(Next(l, Copy(p))) && CountInv(Next(l, Print))
  {
    HoldersAreLive(l, p);
  }

  lemma AllocateKeepsCounts(l: Logger, p: nat, text: string, block: nat)
    requires CountInv(l)
    ensures CountInv(Next(l, Allocate(p, text, block)))
  {
  }

  lemma QueueKeepsCounts(l: Logger, p: nat)
    requires CountInv(l)
    ensures CountInv(Next(l, Post(p))) && CountInv(Next(l, Fetch))
  {
  }

  /** No step uses a block that is not live, and each free frees one. */
  lemma StepKeepsCounts(l: Logger, e: Event)
    requires OwnerInv(l) && CountInv(l)
    ensures CountInv(Next(l, e))
  {
    match e
    case Allocate(p, text, block) => AllocateKeepsCounts(l, p, text, block);
    case Copy(p) => UseKeepsCounts(l, p);
    case Post(p) => QueueKeepsCounts(l, p);
    case FreeRefused(p) => FreeRefusedKeepsCounts(l, p);
    case Fetch => QueueKeepsCounts(l, 0);
    case Print => UseKeepsCounts(l, 0);
    case FreePrinted => FreePrintedKeepsCounts(l);
  }

  lemma AllocateKeepsTexts(l: Logger, p: nat, text: string, block: nat)
    requires TextInv(l)
    ensures TextInv(Next(l, Allocate(p, text, block)))
  {
    if At(l.producers, p).Idle? && block !in l.live {
      ProducerMoves(l.producers, Next(l, Allocate(p, text, block)).producers, p, Allocated(block, text));
    }
  }

  lemma FreeRefusedKeepsTexts(l: Logger, p: nat)
    requires TextInv(l)
    ensures TextInv(Next(l, FreeRefused(p)))
  {
    if At(l.producers, p).Refused? {
      ProducerMoves(l.producers, Next(l, FreeRefused(p)).producers, p, Idle);
    }
  }

  lemma CopyKeepsTexts(l: Logger, p: nat)
    requires OwnerInv(l) && TextInv(l)
    ensures TextInv(Next(l, Copy(p)))
  {
    var x, r := At(l.producers, p), Next(l, Copy(p));
    if x.Allocated? {
      ProducerMoves(l.producers, r.producers, p, Copied(x.block, x.text));
      assert Texts(r.content, r.mailbox) == Texts(l.content, l.mailbox);
    }
  }

  lemma PostKeepsTexts(l: Logger, p: nat)
    requires TextInv(l)
    ensures TextInv(Next(l, Post(p)))
  {
    var x, r := At(l.producers, p), Next(l, Post(p));
    if x.Copied? {
      ProducerMoves(l.producers, r.producers, p, if |l.mailbox| < QUEUE_SIZE then Idle else Refused(x.block));
      if |l.mailbox| < QUEUE_SIZE {
        assert Texts(r.content, r.mailbox) == Texts(l.content, l.mailbox) + [x.text];
        assert PendingTexts(r) == PendingTexts(l) + [x.text];
      }
    }
  }

  lemma OldestText(content: map<nat, string>, blocks: seq<nat>)
    requires blocks != []
    ensures Texts(content, blocks) == [TextOf(content, blocks[0])] + Texts(content, blocks[1..])
  {
  }

  lemma FetchKeepsTexts(l: Logger)
    requires TextInv(l)
    ensures TextInv(Next(l, Fetch))
  {
    if l.consumer.Waiting? && l.mailbox != [] {
      OldestText(l.content, l.mailbox);
    }
  }

  lemma OneMorePrinted(printed: seq<string>, text: string, rest: seq<string>)
    ensures printed + ([text] + rest) == printed + [text] + rest
  {
  }

  lemma PrintKeepsTexts(l: Logger)
    requires TextInv(l)
    ensures TextInv(Next(l, Print))
  {
    var r := Next(l, Print);
    if l.consumer.Fetched? {
      var text, queued := TextOf(l.content, l.consumer.block), Texts(l.content, l.mailbox);
      assert r.content == l.content && r.producers == l.producers && r.accepted == l.accepted;
      assert PendingTexts(l) == [text] + queued && PendingTexts(r) == queued && r.printed == l.printed + [text];
      OneMorePrinted(l.printed, text, queued);
    }
  }

  lemma FreePrintedKeepsTexts(l: Logger)
    requires TextInv(l)
    ensures TextInv(Next(l, FreePrinted))
  {
    var r := Next(l, FreePrinted);
    assert r.content == l.content && r.producers == l.producers && r.mailbox == l.mailbox;
    assert r.accepted == l.accepted && r.printed == l.printed && PendingTexts(r) == PendingTexts(l);
  }

  lemma StepKeepsTexts(l: Logger, e: Event)
    requires OwnerInv(l) && TextInv(l)
    ensures TextInv(Next(l, e))
  {
    match e
    case Allocate(p, text, block) => AllocateKeepsTexts(l, p, text, block);
    case Copy(p) => CopyKeepsTexts(l, p);
    case Post(p) => PostKeepsTexts(l, p);
    case FreeRefused(p) => FreeRefusedKeepsTexts(l, p);
    case Fetch => FetchKeepsTexts(l);
    case Print => PrintKeepsTexts(l);
    case FreePrinted => FreePrintedKeepsTexts(l);
  }

  lemma StepKeepsInv(l: Logger, e: Event)
    requires Inv(l)
    ensures Inv(Next(l, e))
  {
    StepKeepsOwners(l, e);
    StepKeepsCounts(l, e);
    StepKeepsTexts(l, e);
  }

  lemma {:induction false} RunKeepsInv(l: Logger, es: seq<Event>)
    requires Inv(l)
    ensures Inv(Exec(l, es))
    decreases es
  {
    if es != [] {
      StepKeepsInv(l, es[0]);
      RunKeepsInv(Next(l, es[0]), es[1..]);
    }
  }

  /** No block has two holders. */
  ghost predicate Disjoint(l: Logger) {
    && (forall p, q, b :: Holds(l.producers, p, b) && Holds(l.producers, q, b) ==> p == q)
    && (forall p, b :: Holds(l.producers, p, b) ==> b !in l.mailbox && !Consumes(l.consumer, b))
    && Distinct(l.mailbox)
    && (forall b :: Consumes(l.consumer, b) ==> b !in l.mailbox)
  }

  /** The live blocks are exactly those held by someone. */
  ghost predicate LiveIsHeld(l: Logger) {
    forall b :: b in l.live <==> (exists p :: Holds(l.producers, p, b)) || b in l.mailbox || Consumes(l.consumer, b)
  }

  lemma OwnersAreHolders(l: Logger)
    requires OwnerInv(l)
    ensures Disjoint(l) && LiveIsHeld(l)
  {
    forall b ensures b in l.live
                     <==> (exists p :: Holds(l.producers, p, b)) || b in l.mailbox || Consumes(l.consumer, b)
    {
      if b in l.live && l.owner[b].ByProducer? {
        assert Holds(l.producers, l.owner[b].p, b);
      }
    }
  }

  /** Ownership: in every interleaving the live blocks are exactly those held by a
      producer, in the mailbox or held by the consumer, each by one of them; no
      block is read, written or freed when it is not live; and every allocation
      not freed yet is live. */
  lemma Ownership(es: seq<Event>)
    ensures var l := Exec(INITIAL, es);
            !l.fault && Disjoint(l) && LiveIsHeld(l) && l.allocations == l.frees + |l.live|
  {
    RunKeepsInv(INITIAL, es);
    OwnersAreHolders(Exec(INITIAL, es));
  }

  /** The messages printed are a prefix of the accepted posts, in order, and the
      rest is with the consumer and in the mailbox. */
  lemma PrintedInOrder(es: seq<Event>)
    ensures var l := Exec(INITIAL, es);
            l.printed <= l.accepted && l.accepted[|l.printed|..] == PendingTexts(l) && |l.mailbox| <= QUEUE_SIZE
  {
    RunKeepsInv(INITIAL, es);
  }

  // ----- the code -----

  /** Each method is one step of `Next`. */
  class LogTask {
    var live: set<nat>
    var content: map<nat, string>
    var mailbox: seq<nat>
    ghost var producers: map<nat, Producer>
    var consumer: Consumer
    ghost var fault: bool
    ghost var owner: map<nat, Owner>
    ghost var accepted: seq<string>
    ghost var printed: seq<string>
    ghost var allocations: nat
    ghost var frees: nat

    ghost function View(): Logger
      reads this
    {
      Logger(live, content, mailbox, producers, consumer, fault, owner, accepted, printed, allocations, frees)
    }

    constructor ()
      ensures View() == INITIAL
    {
      live, content, mailbox, producers, consumer, fault := {}, map[], [], map[], Waiting, false;
      owner, accepted, printed, allocations, frees := map[], [], [], 0, 0;
    }

    /** chHeapAlloc for producer p, with the block the allocator chose. */
    method Alloc(ghost p: nat, ghost text: string, block: nat)
      requires At(producers, p).Idle? && block !in live
      modifies this
      ensures View() == Next(old(View()), Allocate(p, text, block)) && live == old(live) + {block}
    {
      live := live + {block};
      producers, owner := producers[p := Allocated(block, text)], owner[block := ByProducer(p)];
      allocations := allocations + 1;
    }

    /** strncpy into the block. */
    method CopyText(ghost p: nat, block: nat, text: string)
      requires At(producers, p) == Allocated(block, text)
      modifies this
      ensures View() == Next(old(View()), Copy(p)) && content == old(content)[block := text]
    {
      fault := fault || block !in live;
      content := content[block := text];
      producers := producers[p := Copied(block, text)];
    }

    /** chMBPost without waiting. */
    method PostBlock(ghost p: nat, block: nat, ghost text: string) returns (ok: bool)
      requires At(producers, p) == Copied(block, text)
      modifies this
      ensures View() == Next(old(View()), Post(p))
      ensures ok <==> |old(mailbox)| < 15
      ensures mailbox == if ok then old(mailbox) + [block] else old(mailbox)
    {
      ok := |mailbox| < QUEUE_SIZE;
      if ok {
        mailbox := mailbox + [block];
        accepted := accepted + [text];
        producers, owner := producers[p := Idle], owner[block := InMailbox];
      } else {
        producers := producers[p := Refused(block)];
      }
    }

    /** chHeapFree of a block. */
    method FreeBlock(block: nat)
      modifies this
      ensures View() == Free(old(View()), block)
    {
      fault := fault || block !in live;
      live := live - {block};
      owner, frees := owner - {block}, frees + 1;
    }

    /** The mailbox is full: the refused block is given back. */
    method GiveBack(ghost p: nat, block: nat)
      requires At(producers, p) == Refused(block)
      modifies this
      ensures View() == Next(old(View()), FreeRefused(p)) && live == old(live) - {block}
    {
      FreeBlock(block);
      producers := producers[p := Idle];
    }

    /** logEvent run without interference: the text is queued in a block of its
        own, or nothing stays allocated. `granted` tells whether the heap gave one. */
    method LogEvent(ghost p: nat, text: string, granted: bool, block: nat) returns (ok: bool)
      requires At(producers, p).Idle? && (granted ==> block !in live)
      modifies this
      ensures At(producers, p).Idle? && fault == old(fault)
      ensures ok <==> granted && |old(mailbox)| < 15
      ensures ok ==> mailbox == old(mailbox) + [block] && live == old(live) + {block}
                     && TextOf(content, block) == text && accepted == old(accepted) + [text]
      ensures !ok ==> mailbox == old(mailbox) && live == old(live) && accepted == old(accepted)
      ensures forall b :: b != block ==> TextOf(content, b) == TextOf(old(content), b)
    {
      if !granted {
        return false;
      }
      Alloc(p, text, block);
      CopyText(p, block, text);
      ok := PostBlock(p, block, text);
      if !ok {
        GiveBack(p, block);
      }
    }

    /** chMBFetch in logAppTask. */
    method FetchBlock()
      requires consumer.Waiting? && mailbox != []
      modifies this
      ensures View() == Next(old(View()), Fetch)
      ensures consumer == Fetched(old(mailbox)[0]) && mailbox == old(mailbox)[1..]
    {
      owner := owner[mailbox[0] := ByConsumer];
      consumer := Fetched(mailbox[0]);
      mailbox := mailbox[1..];
    }

    /** chprintf of the block. */
    method PrintBlock() returns (text: string)
      requires consumer.Fetched?
      modifies this
      ensures View() == Next(old(View()), Print)
      ensures text == TextOf(old(content), old(consumer).block) && printed == old(printed) + [text]
    {
      fault := fault || consumer.block !in live;
      text := TextOf(content, consumer.block);
      printed := printed + [text];
      consumer := Printed(consumer.block);
    }

    /** chHeapFree of the printed block. */
    method FreePrintedBlock()
      requires consumer.Printed?
      modifies this
      ensures View() == Next(old(View()), FreePrinted)
      ensures live == old(live) - {old(consumer).block} && consumer.Waiting?
    {
      FreeBlock(consumer.block);
      consumer := Waiting;
    }

    /** One turn of logAppTask with no interference: the oldest queued text is
        printed and its block is free again. */
    method Turn() returns (text: string)
      requires consumer.Waiting? && mailbox != []
      modifies this
      ensures View() == Turned(old(View()))
      ensures text == TextOf(old(content), old(mailbox)[0]) && printed == old(printed) + [text]
      ensures mailbox == old(mailbox)[1..] && live == old(live) - {old(mailbox)[0]} && consumer.Waiting?
    {
      FetchBlock();
      text := PrintBlock();
      FreePrintedBlock();
    }
  }

  /** n turns of the consumer. */
  function Turns(n: nat): seq<Event> {
    if n == 0 then [] else [Fetch, Print, FreePrinted] + Turns(n - 1)
  }

  lemma {:induction false} ExecConcat(l: Logger, a: seq<Event>, b: seq<Event>)
    ensures Exec(l, a + b) == Exec(Exec(l, a), b)
    decreases a
  {
    if a == [] {
      assert a + b == b;
    } else {
      assert (a + b)[0] == a[0] && (a + b)[1..] == a[1..] + b;
      ExecConcat(Next(l, a[0]), a[1..], b);
    }
  }

  lemma FirstTurnThenRest(l: Logger, n: nat)
    requires n > 0
    ensures Exec(l, Turns(n)) == Exec(Turned(l), Turns(n - 1))
  {
    hide Next;
    ExecConcat(l, [Fetch, Print, FreePrinted], Turns(n - 1));
    assert [Fetch, Print, FreePrinted][1..] == [Print, FreePrinted];
    assert [Print, FreePrinted][1..] == [FreePrinted] && [FreePrinted][1..] == [];
    assert Exec(Next(Next(l, Fetch), Print), [FreePrinted]) == Exec(Turned(l), [FreePrinted][1..]);
  }

  lemma TurnMoves(l: Logger)
    requires l.consumer.Waiting? && l.mailbox != []
    ensures var r := Turned(l);
            && r.consumer.Waiting? && r.mailbox == l.mailbox[1..] && r.live == l.live - {l.mailbox[0]}
            && r.accepted == l.accepted && r.producers == l.producers
            && r.printed == l.printed + [TextOf(l.content, l.mailbox[0])]
  {
  }

  /** Nothing accepted is left unprinted: with the consumer waiting, as many turns as
      blocks wait print every accepted text, in order, and empty the mailbox; with no
      producer at work no block is live then. */
  lemma {:induction false} EveryTextPrinted(l: Logger)
    requires Inv(l) && l.consumer.Waiting?
    ensures var r := Exec(l, Turns(|l.mailbox|));
            && Inv(r) && r.mailbox == [] && r.consumer.Waiting? && r.printed == r.accepted == l.accepted
            && ((forall p :: At(l.producers, p).Idle?) ==> r.live == {} && r.frees == r.allocations)
    decreases |l.mailbox|
  {
    hide Next, Turned, Exec, Turns, Inv;
    if l.mailbox == [] {
      NoTurns(l);
      AllPrinted(l);
    } else {
      FirstTurnThenRest(l, |l.mailbox|);
      TurnPrintsOldest(l);
      TurnMoves(l);
      EveryTextPrinted(Turned(l));
    }
  }

  lemma NoTurns(l: Logger)
    ensures Exec(l, Turns(0)) == l
  {
  }

  lemma AllPrinted(l: Logger)
    requires Inv(l) && l.consumer.Waiting? && l.mailbox == []
    ensures l.printed == l.accepted
    ensures (forall p :: At(l.producers, p).Idle?) ==> l.live == {} && l.frees == l.allocations
  {
    assert l.printed + [] == l.printed;
    assert forall b :: b in l.owner ==>
      l.owner[b].ByProducer? && !At(l.producers, l.owner[b].p).Idle?;
  }

  ghost function Turned(l: Logger): Logger {
    Next(Next(Next(l, Fetch), Print), FreePrinted)
  }

  /** A turn uses live blocks only and prints the oldest accepted text that was
      not printed yet. */
  lemma TurnPrintsOldest(l: Logger)
    requires Inv(l) && l.consumer.Waiting? && l.mailbox != []
    ensures Inv(Turned(l))
    ensures |l.printed| < |l.accepted| && l.accepted[|l.printed|] == TextOf(l.content, l.mailbox[0])
  {
    StepKeepsInv(l, Fetch);
    StepKeepsInv(Next(l, Fetch), Print);
    StepKeepsInv(Next(Next(l, Fetch), Print), FreePrinted);
  }
}
