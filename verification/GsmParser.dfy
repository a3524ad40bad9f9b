/**
 The incremental receive parser of the GSM driver. `Step` is the parser seen
 one byte at a time, with no FINISH state and no position in a chunk; the
 class `Parser` is the loop over a chunk, with its non-consuming transitions
 and its deferred length decrement. `CmdParse` is proved to refine `Run`.
 */
module GsmParser {
  import opened GsmResponse

  const CR := '\r'
  const LF := '\n'
  const CMT := "+CMT:"
  /** Size of the command buffer, MAX_GSM_CMD_LEN * 2. */
  const SIZE: nat := 256

  datatype ParseState = WaitForSosCr | WaitForSosLf | StoreData | WaitForSpace | WaitForLf | Finish

  datatype ParseResult = Success | NotCompleted

  /** `buf` has one cell more than the C array: cell SIZE is the byte behind it,
      so a store through the write pointer at SIZE is a store outside the array. */
  datatype Machine = Machine(state: ParseState, buf: seq<char>, idx: nat, cmt: bool, out: seq<string>) {
    ghost predicate Valid() {
      |buf| == SIZE + 1 && idx <= SIZE
    }

    /** Valid between two bytes: FINISH is never a resting state. */
    ghost predicate Resting() {
      Valid() && state != Finish
    }
  }

  /** Waiting for the first CR: junk is skipped. */
  function Hunt(m: Machine, c: char): Machine {
    m.(state := if c == CR then WaitForSosLf else WaitForSosCr)
  }

  /** Append c unless the write pointer has reached the limit. */
  function Store(m: Machine, c: char, limit: nat): Machine
    requires m.Valid() && limit <= SIZE
  {
    if m.idx < limit then m.(buf := m.buf[m.idx := c], idx := m.idx + 1) else m
  }

  /** Terminate the text, hand it to the analysis and rewind the write pointer. */
  function Deliver(m: Machine): Machine
    requires m.Valid()
  {
    var terminated := m.buf[m.idx := '\0'];
    m.(state := WaitForSosCr, buf := AfterAnalysis(terminated), idx := 0, out := m.out + [terminated[..m.idx]])
  }

  /** The first line of a message notification ends here and its body follows. */
  predicate BodyFollows(m: Machine) {
    CMT <= m.buf && !m.cmt
  }

  /** One byte. */
  function Step(m: Machine, c: char): (r: Machine)
    requires m.Resting()
    ensures r.Resting()
    ensures r.out == m.out || (|r.out| == |m.out| + 1 && m.out <= r.out)
  {
    match m.state
    case WaitForSosCr => Hunt(m, c)
    case WaitForSosLf => if c == LF then m.(state := StoreData) else Hunt(m, c)
    case StoreData =>
      if c == '>' then Store(m, c, SIZE).(state := WaitForSpace)
      else if c == CR then m.(state := WaitForLf)
      else Store(m, c, SIZE - 1)
    case WaitForSpace => if c == ' ' then Deliver(m) else Hunt(m, c)
    case WaitForLf =>
      if c != LF then Hunt(m, c)
      else if BodyFollows(m) then m.(state := StoreData, cmt := true)
      else Deliver(m.(cmt := false))
  }

  /** A stream of bytes. */
  function Run(m: Machine, s: seq<char>): (r: Machine)
    requires m.Resting()
    ensures r.Resting()
    ensures m.out <= r.out
    decreases s
  {
    if s == [] then m else Run(Step(m, s[0]), s[1..])
  }

  /** The value a chunk returns: not completed exactly when its last byte was stored as text. */
  function ResultOf(m: Machine, s: seq<char>): ParseResult
    requires m.Resting()
    decreases s
  {
    if s == [] then Success
    else if |s| == 1 then
      if m.state == StoreData && s[0] != '>' && s[0] != CR then NotCompleted else Success
    else ResultOf(Step(m, s[0]), s[1..])
  }

  class Parser {
    var state: ParseState
    const buf: array<char>
    var idx: nat
    var cmtPresence: bool
    /** The texts passed to gsmModuleCmdAnalyze so far. */
    var delivered: seq<string>

    ghost predicate Valid()
      reads this, buf
    {
      View().Resting()
    }

    ghost function View(): Machine
      reads this, buf
    {
      Machine(state, buf[..], idx, cmtPresence, delivered)
    }

    /** The static initial values of the parser. */
    constructor ()
      ensures Valid() && fresh(buf)
      ensures View() == Machine(WaitForSosCr, seq(SIZE + 1, _ => '\0'), 0, false, [])
    {
      buf := new char[SIZE + 1](_ => '\0');
      state, idx, cmtPresence, delivered := WaitForSosCr, 0, false, [];
      new;
      assert buf[..] == seq(SIZE + 1, _ => '\0');
    }

    /** Write one text byte and advance. */
    method Append(c: char)
      requires View().Valid() && idx < SIZE
      modifies this`idx, buf
      ensures View() == Store(old(View()), c, old(idx) + 1)
    {
      buf[idx] := c;
      idx := idx + 1;
      assert buf[..] == old(buf[..])[old(idx) := c];
    }

    /** The FINISH state: terminate, analyze, rewind. */
    method FinishCommand()
      requires View().Valid()
      modifies this, buf
      ensures View() == Deliver(old(View()))
    {
      buf[idx] := '\0';
      ghost var terminated := old(buf[..])[old(idx) := '\0'];
      assert buf[..] == terminated;
      state := WaitForSosCr;
      delivered := delivered + [buf[..idx]];
      AnalyzeInPlace();
      idx := 0;
      assert terminated[..old(idx)] == old(buf[..])[..old(idx)];
    }

    /** The effect of the analysis on the buffer it is given. */
    method AnalyzeInPlace()
      modifies buf
      ensures buf[..] == AfterAnalysis(old(buf[..]))
    {
      var text := CString(buf[..]);
      var kind := Classify(text);
      if kind in {Battery, Signal} && ',' in text {
        var i := LastIndexOf(text, ',');
        buf[i] := '\0';
        assert buf[..] == old(buf[..])[i := '\0'];
      }
    }

    /** The state reached once the pending FINISH, if any, has been carried out. */
    ghost function Settled(): (m: Machine)
      requires View().Valid()
      reads this, buf
      ensures m.Resting()
    {
      if state == Finish then Deliver(View()) else View()
    }

    /** The parser loop. `p` is the read pointer and `len` the bytes not yet
        accounted for; they disagree by one exactly in FINISH, which never reads.
        `rounds` counts the iterations of the outer loop. */
    method CmdParse(chunk: seq<char>) returns (rv: ParseResult, ghost rounds: nat)
      requires Valid()
      modifies this, buf
      ensures Valid()
      ensures View() == Run(old(View()), chunk)
      ensures rv == ResultOf(old(View()), chunk)
      ensures rounds <= 2 * |chunk|
    {
      ghost var end, result := Run(View(), chunk), ResultOf(View(), chunk);
      var p, len := 0, |chunk|;
      rounds := 0;
      while len > 0
        invariant View().Valid()
        invariant 0 <= len <= |chunk| && p + len == |chunk| + (if state == Finish then 1 else 0)
        invariant state == Finish ==> len > 0
        invariant Leads(Settled(), chunk[p..], end, result)
        invariant rounds + RoundsLeft(state, len) <= 2 * |chunk|
        decreases len, Rank(state)
      {
        rounds := rounds + 1;
        if state == Finish {
          FinishCommand();
          len := len - 1;
        } else if state == StoreData {
          p, len := StoreText(chunk, p, len, end, result);
          if len == 0 && state == StoreData {
            return NotCompleted, rounds;
          }
        } else {
          p, len := Frame(chunk, p, len, end, result);
        }
      }
      return Success, rounds;
    }

    /** One iteration outside the text: a framing byte is accepted, or left to be
        looked at again while hunting for CR. */
    method Frame(chunk: seq<char>, from: nat, avail: nat, ghost end: Machine, ghost result: ParseResult)
      returns (p: nat, len: nat)
      requires Valid() && state != StoreData && avail > 0 && from + avail == |chunk|
      requires Leads(View(), chunk[from..], end, result)
      modifies this`state, this`cmtPresence
      ensures p <= |chunk| && p + len == |chunk| + (if state == Finish then 1 else 0)
      ensures View().Valid() && Leads(Settled(), chunk[p..], end, result)
      ensures len == avail - 1 || (len == avail && old(Rank(state)) == 1 && Rank(state) == 0)
    {
      p, len := from, avail;
      LeadsOn(View(), chunk, p, end, result);
      match state
      case WaitForSosCr =>
        if chunk[p] == CR {
          state := WaitForSosLf;
        }
        p, len := p + 1, len - 1;
      case WaitForSosLf =>
        if chunk[p] == LF {
          p, len := p + 1, len - 1;
          state := StoreData;
        } else {
          state := WaitForSosCr;
        }
      case WaitForSpace =>
        if chunk[p] == ' ' {
          p := p + 1;
          state := Finish;
        } else {
          state := WaitForSosCr;
        }
      case WaitForLf =>
        if chunk[p] == LF {
          p := p + 1;
          var follows := EndLine();
          if follows {
            len := len - 1;
          }
        } else {
          state := WaitForSosCr;
        }
    }

    /** The line ends: a message header is followed by its body, any other line
        finishes the command. */
    method EndLine() returns (follows: bool)
      requires Valid() && state == WaitForLf
      modifies this`state, this`cmtPresence
      ensures View().Valid() && Settled() == Step(old(View()), LF)
      ensures state == if follows then StoreData else Finish
    {
      follows := CMT <= buf[..] && !cmtPresence;
      if follows {
        state := StoreData;
        cmtPresence := true;
      } else {
        state := Finish;
        cmtPresence := false;
      }
    }

    /** The inner loop of STORE_DATA_STATE: store text until '>', CR or the end
        of the chunk. It is left in STORE_DATA_STATE only when the chunk is used up. */
    method StoreText(chunk: seq<char>, from: nat, avail: nat, ghost end: Machine, ghost result: ParseResult)
      returns (p: nat, len: nat)
      requires Valid() && state == StoreData && avail > 0 && from + avail == |chunk|
      requires Leads(View(), chunk[from..], end, result)
      modifies this`idx, this`state, buf
      ensures Valid() && p + len == |chunk| && len < avail
      ensures state == StoreData ==> len == 0 && View() == end && result == NotCompleted
      ensures state != StoreData ==> Leads(View(), chunk[p..], end, result)
    {
      p, len := from, avail;
      while len > 0
        invariant Valid() && state == StoreData
        invariant 0 < len <= avail && p + len == |chunk|
        invariant Leads(View(), chunk[p..], end, result)
        decreases len
      {
        var c := chunk[p];
        LeadsOn(View(), chunk, p, end, result);
        if c == '>' {
          if idx <= SIZE - 1 {
            Append(c);
          }
          p, len := p + 1, len - 1;
          state := WaitForSpace;
          break;
        } else if c == CR {
          p, len := p + 1, len - 1;
          state := WaitForLf;
          break;
        }
        if idx < SIZE - 1 {
          Append(c);
        }
        p, len := p + 1, len - 1;
        if len == 0 {
          return;
        }
      }
    }
  }

  /** Parsing `rest` from m ends in `end`, and unless `rest` is used up it yields `result`. */
  ghost predicate Leads(m: Machine, rest: seq<char>, end: Machine, result: ParseResult) {
    && m.Resting()
    && Run(m, rest) == end
    && (if rest == [] then result == Success else ResultOf(m, rest) == result)
  }

  /** A byte may be consumed, and outside the text a rejected byte may be looked
      at again while hunting for CR. */
  lemma LeadsOn(m: Machine, chunk: seq<char>, p: nat, end: Machine, result: ParseResult)
    requires p < |chunk| && Leads(m, chunk[p..], end, result)
    ensures p + 1 < |chunk| || result == Success ==> Leads(Step(m, chunk[p]), chunk[p + 1..], end, result)
    ensures p + 1 == |chunk| ==> Step(m, chunk[p]) == end
    ensures p + 1 == |chunk| ==> (result == NotCompleted <==> m.state == StoreData && chunk[p] != '>' && chunk[p] != CR)
    ensures Step(m, chunk[p]) == Hunt(m, chunk[p]) ==>
            Leads(m.(state := WaitForSosCr), chunk[p..], end, result)
  {
    assert chunk[p..][0] == chunk[p] && chunk[p..][1..] == chunk[p + 1..];
  }

  /** The states with a transition that consumes nothing. */
  function Rank(state: ParseState): nat {
    if state in {WaitForSosLf, WaitForSpace, WaitForLf} then 1 else 0
  }

  /** A bound on the iterations still to come with len bytes not accounted for. */
  ghost function RoundsLeft(state: ParseState, len: nat): nat {
    if len == 0 then 0 else 2 * len - 1 + Rank(state)
  }
}
