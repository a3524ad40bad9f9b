/**
 Whole-stream properties of the receive parser: chunk independence, the
 print/parse inverse of the frame formats, truncation, and the bounds of the
 command buffer. Frames follow section 5.7.1 of ITU-T V.250 (responses) and
 sections 3.5.1 and 3.4.1 of 3GPP TS 27.005 (prompt and message notification).
 */
module GsmFrames {
  import opened GsmParser
  import GsmResponse

  // ----- chunks -----

  lemma {:induction false} RunConcat(m: Machine, a: seq<char>, b: seq<char>)
    requires m.Resting()
    ensures Run(m, a + b) == Run(Run(m, a), b)
    decreases a
  {
    if a == [] {
      assert a + b == b;
    } else {
      assert (a + b)[0] == a[0] && (a + b)[1..] == a[1..] + b;
      RunConcat(Step(m, a[0]), a[1..], b);
    }
  }

  function Flatten(chunks: seq<seq<char>>): seq<char> {
    if chunks == [] then [] else chunks[0] + Flatten(chunks[1..])
  }

  /** The parser called once per read. */
  function Feed(m: Machine, chunks: seq<seq<char>>): Machine
    requires m.Resting()
    decreases chunks
  {
    if chunks == [] then m else Feed(Run(m, chunks[0]), chunks[1..])
  }

  /** However a byte stream is cut into reads, the parser ends in the same state
      with the same buffer, write index, flag and delivered texts. */
  lemma {:induction false} ChunkIndependence(m: Machine, chunks: seq<seq<char>>)
    requires m.Resting()
    ensures Feed(m, chunks) == Run(m, Flatten(chunks))
    decreases chunks
  {
    if chunks != [] {
      ChunkIndependence(Run(m, chunks[0]), chunks[1..]);
      RunConcat(m, chunks[0], Flatten(chunks[1..]));
    }
  }

  // ----- frames -----

  datatype Frame = Text(p: string) | Message(h: string, b: string) | SmsPrompt

  function Print(f: Frame): seq<char> {
    match f
    case Text(p) => [CR, LF] + p + [CR, LF]
    case Message(h, b) => [CR, LF] + CMT + h + [CR, LF] + b + [CR, LF]
    case SmsPrompt => [CR, LF, '>', ' ']
  }

  /** The text of a frame. */
  function Payload(f: Frame): string {
    match f
    case Text(p) => p
    case Message(h, b) => CMT + h + b
    case SmsPrompt => ">"
  }

  /** What fits in the command buffer before its terminator. */
  function Truncated(s: string): (r: string)
    ensures r <= s && |r| == if |s| <= 255 then |s| else 255
  {
    if |s| <= SIZE - 1 then s else s[..SIZE - 1]
  }

  predicate Plain(s: string) {
    CR !in s && '>' !in s
  }

  predicate Good(f: Frame) {
    match f
    case Text(p) => Plain(p) && !(CMT <= p) && !(p <= CMT)
    case Message(h, b) => Plain(h) && Plain(b)
    case SmsPrompt => true
  }

  /** Between two frames. */
  ghost predicate AtRest(m: Machine) {
    m.Valid() && m.state == WaitForSosCr && m.idx == 0 && !m.cmt
  }

  /** The buffer after storing t at index i: text beyond SIZE - 1 is dropped,
      cells not written keep their stale bytes. */
  function Overlay(buf: seq<char>, i: nat, t: string): (r: seq<char>)
    requires |buf| == SIZE + 1 && i <= SIZE - 1
    ensures |r| == |buf|
  {
    var n := if i + |t| <= SIZE - 1 then |t| else SIZE - 1 - i;
    buf[..i] + t[..n] + buf[i + n..]
  }

  function Min(a: nat, b: nat): nat {
    if a <= b then a else b
  }

  lemma {:induction false} StoresText(m: Machine, t: string)
    requires m.Valid() && m.state == StoreData && m.idx <= SIZE - 1 && Plain(t)
    ensures Run(m, t) == m.(buf := Overlay(m.buf, m.idx, t), idx := Min(SIZE - 1, m.idx + |t|))
    decreases t
  {
    hide Overlay;
    if t == [] {
      OverlayNothing(m.buf, m.idx);
    } else {
      assert t[0] in t;
      assert Plain(t[1..]);
      StoresText(Step(m, t[0]), t[1..]);
      OverlayStep(m.buf, m.idx, t);
    }
  }

  lemma OverlayNothing(buf: seq<char>, i: nat)
    requires |buf| == SIZE + 1 && i <= SIZE - 1
    ensures Overlay(buf, i, []) == buf
  {
  }

  lemma OverlayStep(buf: seq<char>, i: nat, t: string)
    requires |buf| == SIZE + 1 && i <= SIZE - 1 && t != []
    ensures i < SIZE - 1 ==> Overlay(buf[i := t[0]], i + 1, t[1..]) == Overlay(buf, i, t)
    ensures i == SIZE - 1 ==> Overlay(buf, i, t) == Overlay(buf, i, t[1..]) == buf
  {
    if i < SIZE - 1 {
      var n := if i + |t| <= SIZE - 1 then |t| else SIZE - 1 - i;
      assert buf[i := t[0]][..i + 1] == buf[..i] + [t[0]];
      assert t[..n] == [t[0]] + t[1..][..n - 1];
      assert buf[i := t[0]][i + n..] == buf[i + n..];
    } else {
      assert buf[..i] + [] + buf[i..] == buf;
    }
  }

  lemma RunTwo(m: Machine, c: char, d: char)
    requires m.Resting()
    ensures Run(m, [c, d]) == Step(Step(m, c), d)
  {
    assert [c, d][1..] == [d];
    assert Run(Step(m, c), [d]) == Run(Step(Step(m, c), d), [d][1..]);
  }

  lemma RunThree(m: Machine, a: seq<char>, b: seq<char>, c: seq<char>)
    requires m.Resting()
    ensures Run(m, a + b + c) == Run(Run(Run(m, a), b), c)
  {
    RunConcat(m, a, b);
    RunConcat(m, a + b, c);
  }

  lemma LineOpens(m: Machine)
    requires AtRest(m)
    ensures Run(m, [CR, LF]) == m.(state := StoreData)
  {
    RunTwo(m, CR, LF);
  }

  lemma LineCloses(m: Machine)
    requires m.Valid() && m.state == StoreData
    ensures Run(m, [CR, LF]) == Step(m.(state := WaitForLf), LF)
  {
    assert Step(m, CR) == m.(state := WaitForLf);
    RunTwo(m, CR, LF);
  }

  /** A line of text between rest and its closing CR LF. */
  lemma LineStored(m: Machine, t: string)
    requires AtRest(m) && Plain(t)
    ensures var s := m.(state := WaitForLf, buf := Overlay(m.buf, 0, t), idx := Min(SIZE - 1, |t|));
            Run(m, [CR, LF] + t + [CR, LF]) == Step(s, LF)
  {
    LineOpens(m);
    var open := m.(state := StoreData);
    StoresText(open, t);
    LineCloses(Run(open, t));
    RunThree(m, [CR, LF], t, [CR, LF]);
  }

  /** The text frame, for every text without CR and '>' and every stale buffer:
      it is delivered, cut to 255 bytes, exactly when the buffer it leaves does not
      begin with "+CMT:". Otherwise the parser keeps the text and waits for a body. */
  lemma TextFrameExact(m: Machine, p: string)
    requires AtRest(m) && Plain(p)
    ensures var r := Run(m, Print(Text(p)));
            && (!(CMT <= Overlay(m.buf, 0, p)) ==> AtRest(r) && r.out == m.out + [Truncated(p)])
            && (CMT <= Overlay(m.buf, 0, p) ==> r.state == StoreData && r.cmt && r.out == m.out)
  {
    LineStored(m, p);
    var buf := Overlay(m.buf, 0, p);
    var n := Min(SIZE - 1, |p|);
    assert buf[n := '\0'][..n] == Truncated(p);
  }

  /** Which texts survive whatever the buffer held before: those that neither
      begin with "+CMT:" nor are a prefix of it. */
  lemma TextFrameAlwaysDelivered(p: string)
    requires Plain(p)
    ensures (forall m: Machine :: AtRest(m) ==> Run(m, Print(Text(p))).out == m.out + [Truncated(p)])
            <==> !(CMT <= p) && !(p <= CMT)
  {
    if !(CMT <= p) && !(p <= CMT) {
      forall m: Machine | AtRest(m)
        ensures Run(m, Print(Text(p))).out == m.out + [Truncated(p)]
      {
        ForeignText(m.buf, p);
        TextFrameExact(m, p);
      }
    } else {
      var stale := CMT + seq(SIZE + 1 - |CMT|, _ => '\0');
      var m := Machine(WaitForSosCr, stale, 0, false, []);
      var buf := Overlay(stale, 0, p);
      assert CMT <= buf by {
        forall i | 0 <= i < |CMT| ensures buf[i] == CMT[i] {
          if i < |p| {
            assert p[i] == CMT[i];
          } else {
            assert buf[i] == stale[i];
          }
        }
      }
      TextFrameExact(m, p);
      assert Run(m, Print(Text(p))).out == [];
    }
  }

  lemma ForeignText(buf: seq<char>, p: string)
    requires |buf| == SIZE + 1 && !(CMT <= p) && !(p <= CMT)
    ensures !(CMT <= Overlay(buf, 0, p))
  {
    var r := Overlay(buf, 0, p);
    assert forall i :: 0 <= i < Min(|p|, SIZE - 1) ==> r[i] == p[i];
  }

  /** The header line of a notification leaves the parser storing its body. */
  lemma HeaderStored(m: Machine, h: string)
    requires AtRest(m) && Plain(h)
    ensures var m1 := m.(state := StoreData, buf := Overlay(m.buf, 0, CMT + h),
                         idx := Min(SIZE - 1, |CMT + h|), cmt := true);
            Run(m, [CR, LF] + (CMT + h) + [CR, LF]) == m1
  {
    LineStored(m, CMT + h);
    assert CMT <= Overlay(m.buf, 0, CMT + h);
  }

  /** The body line completes the notification. */
  lemma BodyStored(m: Machine, b: string)
    requires m.Valid() && m.state == StoreData && m.cmt && m.idx <= SIZE - 1 && Plain(b)
    ensures var r := Run(m, b + [CR, LF]);
            AtRest(r) && r.out == m.out + [Truncated(m.buf[..m.idx] + b)]
  {
    StoresText(m, b);
    var m2 := Run(m, b);
    RunTwo(m2, CR, LF);
    RunConcat(m, b, [CR, LF]);
    assert m2.buf[m2.idx := '\0'][..m2.idx] == Truncated(m.buf[..m.idx] + b);
  }

  lemma MessageIsTwoLines(h: string, b: string)
    ensures Print(Message(h, b)) == [CR, LF] + (CMT + h) + [CR, LF] + (b + [CR, LF])
  {
  }

  /** The two-line message notification is delivered as one text. */
  lemma MessageFrame(m: Machine, h: string, b: string)
    requires AtRest(m) && Plain(h) && Plain(b)
    ensures var r := Run(m, Print(Message(h, b)));
            AtRest(r) && r.out == m.out + [Truncated(CMT + h + b)]
  {
    var first := [CR, LF] + (CMT + h) + [CR, LF];
    HeaderStored(m, h);
    var m1 := Run(m, first);
    BodyStored(m1, b);
    RunConcat(m, first, b + [CR, LF]);
    MessageIsTwoLines(h, b);
    TruncatedTwice(m.buf, CMT + h, b);
  }

  lemma TruncatedTwice(buf: seq<char>, line: string, b: string)
    requires |buf| == SIZE + 1
    ensures Truncated(Overlay(buf, 0, line)[..Min(SIZE - 1, |line|)] + b) == Truncated(line + b)
  {
    assert Overlay(buf, 0, line)[..Min(SIZE - 1, |line|)] == Truncated(line);
    if |line| > SIZE - 1 {
      assert Truncated(Truncated(line) + b) == Truncated(line) == Truncated(line + b);
    }
  }

  lemma PromptFrame(m: Machine)
    requires AtRest(m)
    ensures var r := Run(m, Print(SmsPrompt)); AtRest(r) && r.out == m.out + [">"]
  {
    LineOpens(m);
    var open := m.(state := StoreData);
    RunTwo(open, '>', ' ');
    RunConcat(m, [CR, LF], ['>', ' ']);
    assert Print(SmsPrompt) == [CR, LF] + ['>', ' '];
    assert m.buf[0 := '>'][1 := '\0'][..1] == ">";
  }

  lemma FrameDelivered(m: Machine, f: Frame)
    requires AtRest(m) && Good(f)
    ensures var r := Run(m, Print(f)); AtRest(r) && r.out == m.out + [Truncated(Payload(f))]
  {
    match f
    case Text(p) =>
      ForeignText(m.buf, p);
      TextFrameExact(m, p);
    case Message(h, b) => MessageFrame(m, h, b);
    case SmsPrompt => PromptFrame(m);
  }

  /** No CR is directly followed by LF. */
  predicate NoLineEnd(s: seq<char>) {
    forall i :: 0 <= i < |s| - 1 && s[i] == CR ==> s[i + 1] != LF
  }

  /** Waiting for a line to open, with or without the CR. */
  ghost predicate Hunting(m: Machine) {
    m.Valid() && (m.state == WaitForSosCr || m.state == WaitForSosLf)
  }

  /** While a line is waited for, bytes without the pair CR LF change nothing, and the
      LF is awaited exactly when the last of them is CR: a CR that is not followed by
      LF is dropped, and what follows it is looked at afresh. */
  lemma {:induction false} JunkHunted(m: Machine, junk: seq<char>)
    requires Hunting(m) && NoLineEnd(junk) && junk != []
    requires m.state == WaitForSosLf ==> junk[0] != LF
    ensures Run(m, junk) == m.(state := if junk[|junk| - 1] == CR then WaitForSosLf else WaitForSosCr)
    decreases junk
  {
    var rest, r := junk[1..], Step(m, junk[0]);
    assert forall i :: 0 <= i < |rest| ==> rest[i] == junk[i + 1];
    if rest == [] {
      assert Run(r, rest) == r;
    } else {
      assert junk[0] == CR ==> rest[0] != LF;
      JunkHunted(r, rest);
    }
  }

  /** Bytes without the pair CR LF are skipped between frames, and may end in CR. */
  lemma JunkSkipped(m: Machine, junk: seq<char>)
    requires m.Valid() && m.state == WaitForSosCr && NoLineEnd(junk)
    ensures Run(m, junk) == m.(state := if junk != [] && junk[|junk| - 1] == CR then WaitForSosLf else WaitForSosCr)
  {
    if junk != [] {
      JunkHunted(m, junk);
    }
  }

  /** A byte that is not the expected one, in the states that expect one, is looked at
      again as if a line were waited for; the text stored so far is kept. */
  lemma RejectedByte(m: Machine, c: char)
    requires m.Valid()
    requires (m.state == WaitForSosLf && c != LF) || (m.state == WaitForSpace && c != ' ')
             || (m.state == WaitForLf && c != LF)
    ensures Step(m, c) == Step(m.(state := WaitForSosCr), c)
  {
  }

  lemma SameFromRejected(m: Machine, s: seq<char>)
    requires m.Valid() && s != []
    requires (m.state == WaitForSosLf && s[0] != LF) || (m.state == WaitForSpace && s[0] != ' ')
             || (m.state == WaitForLf && s[0] != LF)
    ensures Run(m, s) == Run(m.(state := WaitForSosCr), s)
  {
    RejectedByte(m, s[0]);
  }

  datatype Item = Item(junk: seq<char>, frame: Frame)

  function Stream(items: seq<Item>): seq<char> {
    if items == [] then [] else items[0].junk + Print(items[0].frame) + Stream(items[1..])
  }

  function Payloads(items: seq<Item>): seq<string> {
    if items == [] then [] else [Truncated(Payload(items[0].frame))] + Payloads(items[1..])
  }

  predicate GoodItem(item: Item) {
    NoLineEnd(item.junk) && Good(item.frame)
  }

  lemma FramesOpenWithCr(f: Frame)
    ensures Print(f) != [] && Print(f)[0] == CR
  {
  }

  lemma ItemDelivered(m: Machine, item: Item)
    requires AtRest(m) && GoodItem(item)
    ensures Delivers(m, item.junk + Print(item.frame), [Truncated(Payload(item.frame))])
  {
    var junk, s := item.junk, Print(item.frame);
    JunkSkipped(m, junk);
    FramesOpenWithCr(item.frame);
    var hunting := Run(m, junk);
    if hunting.state == WaitForSosLf {
      SameFromRejected(hunting, s);
      assert hunting.(state := WaitForSosCr) == m;
    }
    FrameDelivered(m, item.frame);
    RunConcat(m, junk, s);
  }

  /** From rest, the stream s is delivered as these texts and leads back to rest. */
  ghost predicate Delivers(m: Machine, s: seq<char>, texts: seq<string>) {
    AtRest(m) && AtRest(Run(m, s)) && Run(m, s).out == m.out + texts
  }

  /** Print/parse inverse: any list of good frames with junk before each that holds no
      CR LF, whatever the buffer held, is delivered in order, each text cut to 255 bytes. */
  lemma {:induction false} StreamRoundTrip(m: Machine, items: seq<Item>)
    requires AtRest(m)
    requires forall item :: item in items ==> GoodItem(item)
    ensures Delivers(m, Stream(items), Payloads(items))
    decreases items
  {
    if items == [] {
      assert m.out + Payloads(items) == m.out;
    } else {
      ItemDelivered(m, items[0]);
      StreamRoundTrip(Run(m, items[0].junk + Print(items[0].frame)), items[1..]);
      DeliversConcat(m, items[0].junk + Print(items[0].frame), Stream(items[1..]),
                     [Truncated(Payload(items[0].frame))], Payloads(items[1..]));
    }
  }

  lemma DeliversConcat(m: Machine, a: seq<char>, b: seq<char>, s: seq<string>, t: seq<string>)
    requires Delivers(m, a, s) && Delivers(Run(m, a), b, t)
    ensures Delivers(m, a + b, s + t)
  {
    RunConcat(m, a, b);
    assert m.out + (s + t) == m.out + s + t;
  }

  /** An echoed command in front of its response, as from a module whose echo is still
      on: the second CR opens the response frame. */
  lemma EchoBeforeResponse(m: Machine, command: string, p: string)
    requires AtRest(m) && NoLineEnd(command + [CR]) && Good(Text(p))
    ensures Run(m, command + [CR] + Print(Text(p))).out == m.out + [Truncated(p)]
  {
    ItemDelivered(m, Item(command + [CR], Text(p)));
  }

  lemma {:induction false} CStringOf(s: seq<char>, p: string)
    requires p + "\0" <= s && '\0' !in p
    ensures GsmResponse.CString(s) == p
    decreases p
  {
    assert (p + "\0")[|p|] == s[|p|];
    if p != [] {
      assert s[0] == p[0] && p[0] in p;
      assert p[1..] + "\0" <= s[1..] by {
        assert (p + "\0")[1..] == p[1..] + "\0";
      }
      CStringOf(s[1..], p[1..]);
    }
  }

  /** A battery or signal report leaves the text in front of its last comma in the
      receive buffer. */
  lemma ReportCutInBuffer(m: Machine, p: string, before: string, last: string)
    requires AtRest(m) && Good(Text(p)) && '\0' !in p && |p| <= SIZE - 1
    requires p == before + "," + last && ',' !in last
    requires GsmResponse.Classify(p) in {GsmResponse.Battery, GsmResponse.Signal}
    ensures GsmResponse.CString(Run(m, Print(Text(p))).buf) == before
  {
    hide Run, Overlay;
    TextLeft(m, p);
    GsmResponse.LastFieldCut(Overlay(m.buf, 0, p)[|p| := '\0'], before, last);
  }

  /** What a text frame leaves in the buffer. */
  lemma TextLeft(m: Machine, p: string)
    requires AtRest(m) && Good(Text(p)) && '\0' !in p && |p| <= SIZE - 1
    ensures var terminated := Overlay(m.buf, 0, p)[|p| := '\0'];
            && Run(m, Print(Text(p))).buf == GsmResponse.AfterAnalysis(terminated)
            && GsmResponse.CString(terminated) == p
  {
    hide Overlay, Run;
    LineStored(m, p);
    ForeignText(m.buf, p);
    OverlayTerminated(m.buf, p);
    CStringOf(Overlay(m.buf, 0, p)[|p| := '\0'], p);
  }

  lemma OverlayTerminated(buf: seq<char>, p: string)
    requires |buf| == SIZE + 1 && |p| <= SIZE - 1
    ensures p + "\0" <= Overlay(buf, 0, p)[|p| := '\0']
  {
    assert Overlay(buf, 0, p)[|p| := '\0'][..|p| + 1] == p + "\0";
  }

  // ----- broken lines -----

  /** A line that breaks off at a CR without LF keeps its text: it is delivered in
      front of the next response, if the two together are no message header. */
  lemma BrokenLinePrefixesNext(m: Machine, t: string, junk: seq<char>, p: string)
    requires AtRest(m) && Plain(t) && Plain(p) && junk != [] && junk[0] != LF && NoLineEnd(junk)
    requires !(CMT <= t + p) && !(t + p <= CMT)
    ensures var r := Run(m, [CR, LF] + t + [CR] + junk + Print(Text(p)));
            AtRest(r) && r.out == m.out + [Truncated(t + p)]
  {
    OpenAndStore(m, t);
    var kept := Run(m, [CR, LF] + t);
    var broken := Run(m, [CR, LF] + t + [CR]);
    RunConcat(m, [CR, LF] + t, [CR]);
    assert Run(kept, [CR]) == Run(Step(kept, CR), [CR][1..]);
    assert broken == kept.(state := WaitForLf);
    KeptPrefixesNext(broken, t, junk, p, m.buf);
    RunThree(m, [CR, LF] + t + [CR], junk, Print(Text(p)));
  }

  /** So does a prompt without its space, with the '>' in the text. */
  lemma BrokenPromptPrefixesNext(m: Machine, t: string, junk: seq<char>, p: string)
    requires AtRest(m) && Plain(t) && |t| < SIZE - 1
    requires Plain(p) && junk != [] && junk[0] != ' ' && NoLineEnd(junk)
    requires !(CMT <= t + ">" + p) && !(t + ">" + p <= CMT)
    ensures var r := Run(m, [CR, LF] + t + ['>'] + junk + Print(Text(p)));
            AtRest(r) && r.out == m.out + [Truncated(t + ">" + p)]
  {
    OpenAndStore(m, t);
    var kept := Run(m, [CR, LF] + t);
    var broken := Run(m, [CR, LF] + t + ['>']);
    RunConcat(m, [CR, LF] + t, ['>']);
    assert Run(kept, ['>']) == Run(Step(kept, '>'), ['>'][1..]);
    assert broken == kept.(state := WaitForSpace, buf := kept.buf[|t| := '>'], idx := |t| + 1);
    assert kept.buf[|t| := '>'] == Overlay(m.buf, 0, t + ">");
    KeptPrefixesNext(broken, t + ">", junk, p, m.buf);
    RunThree(m, [CR, LF] + t + ['>'], junk, Print(Text(p)));
  }

  /** With a text kept from a broken line over the stale buffer. */
  lemma KeptPrefixesNext(m: Machine, t: string, junk: seq<char>, p: string, stale: seq<char>)
    requires |stale| == SIZE + 1 && m.Valid() && !m.cmt
    requires m.buf == Overlay(stale, 0, t) && m.idx == Min(SIZE - 1, |t|)
    requires (m.state == WaitForLf && junk != [] && junk[0] != LF)
             || (m.state == WaitForSpace && junk != [] && junk[0] != ' ')
    requires NoLineEnd(junk) && Plain(p) && !(CMT <= t + p) && !(t + p <= CMT)
    ensures var r := Run(Run(m, junk), Print(Text(p)));
            AtRest(r) && r.out == m.out + [Truncated(t + p)]
  {
    var hunting := m.(state := WaitForSosCr);
    SameFromRejected(m, junk);
    JunkSkipped(hunting, junk);
    var junked := Run(hunting, junk);
    if junked.state == WaitForSosLf {
      SameFromRejected(junked, Print(Text(p)));
      assert junked.(state := WaitForSosCr) == hunting;
    }
    KeptLine(hunting, t, p, stale);
  }

  lemma KeptLine(m: Machine, t: string, p: string, stale: seq<char>)
    requires |stale| == SIZE + 1 && m.Valid() && m.state == WaitForSosCr && !m.cmt
    requires m.buf == Overlay(stale, 0, t) && m.idx == Min(SIZE - 1, |t|)
    requires Plain(p) && !(CMT <= t + p) && !(t + p <= CMT)
    ensures var r := Run(m, Print(Text(p)));
            AtRest(r) && r.out == m.out + [Truncated(t + p)]
  {
    hide Overlay, Run;
    RunTwo(m, CR, LF);
    var open := m.(state := StoreData);
    StoresText(open, p);
    var stored := Run(open, p);
    OverlayTwice(stale, t, p);
    assert stored.buf == Overlay(stale, 0, t + p) && stored.idx == Min(SIZE - 1, |t + p|);
    ForeignText(stale, t + p);
    LineCloses(stored);
    RunThree(m, [CR, LF], p, [CR, LF]);
    OverlayTruncated(stale, t + p);
  }

  lemma OverlayTruncated(buf: seq<char>, p: string)
    requires |buf| == SIZE + 1
    ensures var n := Min(SIZE - 1, |p|); Overlay(buf, 0, p)[n := '\0'][..n] == Truncated(p)
  {
  }

  lemma OverlayTwice(buf: seq<char>, t: string, p: string)
    requires |buf| == SIZE + 1
    ensures Overlay(Overlay(buf, 0, t), Min(SIZE - 1, |t|), p) == Overlay(buf, 0, t + p)
  {
    var a, b := Overlay(Overlay(buf, 0, t), Min(SIZE - 1, |t|), p), Overlay(buf, 0, t + p);
    forall i | 0 <= i < |a| ensures a[i] == b[i] {
    }
  }

  // ----- prompts inside a message -----

  /** A prompt inside a text is delivered with the text in front of it, and does not
      end the message it interrupts: its flag stays as it was. */
  lemma PromptInText(m: Machine, t: string)
    requires m.Valid() && m.state == StoreData && m.idx + |t| < SIZE - 1 && Plain(t)
    ensures var r := Run(m, t + ['>', ' ']);
            && r.Valid() && r.state == WaitForSosCr && r.idx == 0 && r.cmt == m.cmt
            && r.out == m.out + [m.buf[..m.idx] + t + ">"]
  {
    hide Overlay, Run;
    StoresText(m, t);
    var stored := Run(m, t);
    RunConcat(m, t, ['>', ' ']);
    RunTwo(stored, '>', ' ');
    var i := m.idx + |t|;
    OverlayHead(m.buf, m.idx, t);
    assert stored.buf[i := '>'][i + 1 := '\0'][..i + 1] == stored.buf[..i] + ">";
  }

  lemma OverlayHead(buf: seq<char>, i: nat, t: string)
    requires |buf| == SIZE + 1 && i + |t| < SIZE - 1
    ensures Overlay(buf, i, t)[..i + |t|] == buf[..i] + t
  {
  }

  /** So the header of the next notification is delivered alone, without its body. */
  lemma HeaderAloneAfterPrompt(m: Machine, h: string)
    requires m.Valid() && m.state == WaitForSosCr && m.idx == 0 && m.cmt && Plain(h)
    ensures var r := Run(m, [CR, LF] + (CMT + h) + [CR, LF]);
            AtRest(r) && r.out == m.out + [Truncated(CMT + h)]
  {
    var line := CMT + h;
    RunTwo(m, CR, LF);
    var open := m.(state := StoreData);
    StoresText(open, line);
    var stored := Run(open, line);
    LineCloses(stored);
    RunThree(m, [CR, LF], line, [CR, LF]);
    assert stored.buf[stored.idx := '\0'][..stored.idx] == Truncated(line);
  }

  // ----- the result of a read -----

  /** A read reports "not completed" exactly when its last byte was stored as text:
      the parser was inside a text before that byte and still is behind it. */
  lemma {:induction false} NotCompletedExactly(m: Machine, s: seq<char>)
    requires m.Resting()
    ensures ResultOf(m, s) == NotCompleted
            <==> s != [] && Run(m, s[..|s| - 1]).state == StoreData && Run(m, s).state == StoreData
    decreases s
  {
    if s == [] {
    } else if |s| == 1 {
      assert s[..0] == [] && Run(m, s) == Run(Step(m, s[0]), s[1..]);
    } else {
      var rest := s[1..];
      assert s[..|s| - 1][0] == s[0] && s[..|s| - 1][1..] == rest[..|rest| - 1];
      NotCompletedExactly(Step(m, s[0]), rest);
    }
  }

  /** The same stream cut into reads in any way. */
  lemma ReadsRoundTrip(m: Machine, items: seq<Item>, chunks: seq<seq<char>>)
    requires AtRest(m) && Flatten(chunks) == Stream(items)
    requires forall item :: item in items ==> GoodItem(item)
    ensures AtRest(Feed(m, chunks)) && Feed(m, chunks).out == m.out + Payloads(items)
  {
    ChunkIndependence(m, chunks);
    StreamRoundTrip(m, items);
  }

  /** The analysis overwrites a comma, so a leading "+CMT:" survives a delivery. */
  lemma DeliveryKeepsHeader(m: Machine)
    requires m.Valid() && CMT <= m.buf && m.idx >= |CMT|
    ensures CMT <= Deliver(m).buf
  {
    var terminated := m.buf[m.idx := '\0'];
    assert CMT <= terminated;
    assert forall k :: 0 <= k < |CMT| ==> terminated[k] == CMT[k] && CMT[k] != ',';
    var after := Deliver(m).buf;
    assert forall k :: 0 <= k < |after| && terminated[k] != ',' ==> after[k] == terminated[k];
  }

  lemma OverlayKeepsHeader(buf: seq<char>, i: nat, t: string)
    requires |buf| == SIZE + 1 && |CMT| <= i <= SIZE - 1 && CMT <= buf
    ensures CMT <= Overlay(buf, i, t)
  {
    var r := Overlay(buf, i, t);
    assert r[..i] == buf[..i];
    assert forall k :: 0 <= k < |CMT| ==> r[k] == r[..i][k] && buf[k] == buf[..i][k];
  }

  lemma BodyKeepsHeader(m: Machine, b: string)
    requires m.Valid() && m.state == StoreData && m.cmt && |CMT| <= m.idx <= SIZE - 1 && Plain(b) && CMT <= m.buf
    ensures CMT <= Run(m, b + [CR, LF]).buf
  {
    StoresText(m, b);
    OverlayKeepsHeader(m.buf, m.idx, b);
    var stored := Run(m, b);
    RunConcat(m, b, [CR, LF]);
    LineCloses(stored);
    DeliveryKeepsHeader(stored.(state := WaitForLf, cmt := false));
  }

  lemma OverlayHasHeader(buf: seq<char>, h: string)
    requires |buf| == SIZE + 1
    ensures CMT <= Overlay(buf, 0, CMT + h)
  {
    assert forall k :: 0 <= k < |CMT| ==> Overlay(buf, 0, CMT + h)[k] == (CMT + h)[k];
  }

  /** After a notification the buffer still begins with its header. */
  lemma MessageLeavesHeader(m: Machine, h: string, b: string)
    requires AtRest(m) && Plain(h) && Plain(b)
    ensures CMT <= Run(m, Print(Message(h, b))).buf
  {
    hide Run, Overlay;
    var first := [CR, LF] + (CMT + h) + [CR, LF];
    HeaderStored(m, h);
    OverlayHasHeader(m.buf, h);
    BodyKeepsHeader(Run(m, first), b);
    RunConcat(m, first, b + [CR, LF]);
    MessageIsTwoLines(h, b);
  }

  /** The response that follows a notification is delivered exactly when it neither
      begins with "+CMT:" nor is a prefix of it; otherwise it is taken for a header. */
  lemma ResponseAfterMessage(m: Machine, h: string, b: string, p: string)
    requires AtRest(m) && Plain(h) && Plain(b) && Plain(p)
    ensures var r := Run(m, Print(Message(h, b)) + Print(Text(p)));
            var notified := m.out + [Truncated(CMT + h + b)];
            && (!(CMT <= p) && !(p <= CMT) ==> AtRest(r) && r.out == notified + [Truncated(p)])
            && (CMT <= p || p <= CMT ==> r.state == StoreData && r.cmt && r.out == notified)
  {
    MessageFrame(m, h, b);
    MessageLeavesHeader(m, h, b);
    var m1 := Run(m, Print(Message(h, b)));
    RunConcat(m, Print(Message(h, b)), Print(Text(p)));
    HeaderUnderText(m1.buf, p);
    TextFrameExact(m1, p);
  }

  lemma HeaderUnderText(buf: seq<char>, p: string)
    requires |buf| == SIZE + 1 && CMT <= buf
    ensures CMT <= Overlay(buf, 0, p) <==> CMT <= p || p <= CMT
  {
    var r := Overlay(buf, 0, p);
    assert forall i :: 0 <= i < Min(|p|, SIZE - 1) ==> r[i] == p[i];
    if CMT <= p || p <= CMT {
      forall i | 0 <= i < |CMT| ensures r[i] == CMT[i] {
        if i < |p| {
          assert p[i] == CMT[i];
        } else {
          assert r[i] == buf[i];
        }
      }
    } else {
      ForeignText(buf, p);
    }
  }

  /** So an empty response after any notification is swallowed. */
  lemma EmptyResponseSwallowed(m: Machine, h: string, b: string)
    requires AtRest(m) && Plain(h) && Plain(b)
    ensures var r := Run(m, Print(Message(h, b)) + Print(Text("")));
            r.state == StoreData && r.cmt && r.out == m.out + [Truncated(CMT + h + b)]
  {
    ResponseAfterMessage(m, h, b, "");
  }

  // ----- buffer bounds -----

  /** This byte completes a command. */
  ghost predicate Completes(m: Machine, c: char) {
    (m.state == WaitForSpace && c == ' ') || (m.state == WaitForLf && c == LF && !BodyFollows(m))
  }

  /** This byte is a '>' stored in the last cell of the buffer. */
  ghost predicate FillsLastCell(m: Machine, c: char) {
    m.state == StoreData && c == '>' && m.idx == SIZE - 1
  }

  /** Somewhere in s a terminator is written behind the buffer. */
  ghost predicate WritesOutside(m: Machine, s: seq<char>)
    requires m.Resting()
    decreases s
  {
    s != [] && ((Completes(m, s[0]) && m.idx == SIZE) || WritesOutside(Step(m, s[0]), s[1..]))
  }

  ghost predicate CompletesIn(m: Machine, s: seq<char>)
    requires m.Resting()
    decreases s
  {
    s != [] && (Completes(m, s[0]) || CompletesIn(Step(m, s[0]), s[1..]))
  }

  /** Somewhere in s a '>' fills the last cell, and a command completes after it. */
  ghost predicate FillsThenCompletes(m: Machine, s: seq<char>)
    requires m.Resting()
    decreases s
  {
    && s != []
    && (|| (FillsLastCell(m, s[0]) && CompletesIn(Step(m, s[0]), s[1..]))
        || FillsThenCompletes(Step(m, s[0]), s[1..]))
  }

  /** Exactly when a terminator lands outside the 256-byte buffer. */
  lemma {:induction false} BufferBounds(m: Machine, s: seq<char>)
    requires m.Resting()
    ensures m.idx < SIZE ==> (WritesOutside(m, s) <==> FillsThenCompletes(m, s))
    ensures m.idx == SIZE ==> (WritesOutside(m, s) <==> CompletesIn(m, s))
    ensures FillsThenCompletes(m, s) ==> CompletesIn(m, s)
    decreases s
  {
    if s != [] {
      BufferBounds(Step(m, s[0]), s[1..]);
    }
  }

  /** A stream without '>' never stores or terminates outside the buffer. */
  lemma {:induction false} NoPromptStaysInside(m: Machine, s: seq<char>)
    requires m.Resting() && m.idx < SIZE && '>' !in s
    ensures !WritesOutside(m, s) && Run(m, s).idx < SIZE
    decreases s
  {
    if s != [] {
      assert s[0] in s;
      NoPromptStaysInside(Step(m, s[0]), s[1..]);
    }
  }

  lemma OpenAndStore(m: Machine, t: string)
    requires AtRest(m) && Plain(t)
    ensures Run(m, [CR, LF] + t)
            == m.(state := StoreData, buf := Overlay(m.buf, 0, t), idx := Min(SIZE - 1, |t|))
  {
    RunTwo(m, CR, LF);
    StoresText(m.(state := StoreData), t);
    RunConcat(m, [CR, LF], t);
  }

  lemma PromptOutside(m: Machine)
    requires m.Valid() && m.state == StoreData && m.idx <= SIZE - 1
    ensures WritesOutside(m, ['>', ' ']) <==> m.idx == SIZE - 1
  {
    var full := Step(m, '>');
    assert ['>', ' '][1..] == [' '] && [' '][1..] == [];
    assert !Completes(m, '>') && Completes(full, ' ');
    assert WritesOutside(full, [' ']) <==> full.idx == SIZE;
  }

  /** A plain text and a prompt behind it: the terminator is written at index 256
      exactly when the text has at least 255 bytes. */
  lemma LongPromptWritesOutside(m: Machine, t: string)
    requires AtRest(m) && Plain(t)
    ensures WritesOutside(m, [CR, LF] + t + ['>', ' ']) <==> |t| >= 255
  {
    var line := [CR, LF] + t;
    OpenAndStore(m, t);
    NoPromptStaysInside(m, line);
    OutsideConcat(m, line, ['>', ' ']);
    PromptOutside(Run(m, line));
  }

  lemma {:induction false} OutsideConcat(m: Machine, a: seq<char>, b: seq<char>)
    requires m.Resting()
    ensures WritesOutside(m, a + b) <==> WritesOutside(m, a) || WritesOutside(Run(m, a), b)
    decreases a
  {
    if a == [] {
      assert a + b == b;
    } else {
      assert (a + b)[0] == a[0] && (a + b)[1..] == a[1..] + b;
      OutsideConcat(Step(m, a[0]), a[1..], b);
    }
  }
}
