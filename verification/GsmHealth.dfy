/**
 The health supervision of the GSM driver: what the balance, battery and signal
 responses count for, when the low-battery notification goes out, and when the
 normal LED activity is requested.
 */
module GsmHealth {
  import opened GsmResponse
  import opened IntegerText

  // ----- reading the response texts -----

  const CUSD: string := "+CUSD: "

  function DigitPrefix(s: string): (n: nat)
    ensures n <= |s| && AllDigits(s[..n]) && (n < |s| ==> !IsDigit(s[n]))
  {
    if s == [] || !IsDigit(s[0]) then 0
    else
      var n := DigitPrefix(s[1..]);
      assert forall i :: 0 < i < n + 1 ==> s[i] == s[1..][i - 1];
      n + 1
  }

  /** The bytes isspace accepts. */
  predicate IsSpace(c: char) {
    c == ' ' || 9 <= c as int <= 13
  }

  /** atoi of a text whose number fits an int. */
  function Atoi(s: string): int
    decreases |s|
  {
    if s != [] && IsSpace(s[0]) then Atoi(s[1..])
    else if s != [] && s[0] == '-' then -(DigitsValue(s[1..][..DigitPrefix(s[1..])]) as int)
    else if s != [] && s[0] == '+' then DigitsValue(s[1..][..DigitPrefix(s[1..])])
    else DigitsValue(s[..DigitPrefix(s)])
  }

  /** The conversion of an int to uint32_t. */
  function Unsigned(v: int): nat {
    v % 0x1_0000_0000
  }

  /** strchr and strstr: the text behind the first occurrence. */
  function Behind(s: string, pattern: string): (r: string)
    requires Contains(s, pattern)
    ensures |r| + |pattern| <= |s|
    decreases |s|
  {
    if pattern <= s then s[|pattern|..] else (Later(s, pattern); Behind(s[1..], pattern))
  }

  lemma Later(s: string, pattern: string)
    requires Contains(s, pattern) && !(pattern <= s)
    ensures s != [] && Contains(s[1..], pattern)
  {
    var i: nat :| i <= |s| && OccursAt(s, pattern, i);
    assert OccursAt(s, pattern, 0) ==> pattern <= s;
    assert s[1..][i - 1..i - 1 + |pattern|] == s[i..i + |pattern|];
    assert OccursAt(s[1..], pattern, i - 1);
  }

  datatype Report =
    | Balance(kind: nat, amount: real)
    | Battery(level: nat)
    | Signal(level: nat)
    | Other

  /** The texts the analysis can read: it takes for granted the separators and, in a
      balance text of type 0 or 1, the word before the amount. */
  predicate Readable(text: string) {
    if Contains(text, "+CUSD")
    then Contains(text, CUSD) && (BalanceType(text) <= 1 ==> Contains(text, "rahunku "))
    else if Contains(text, "+CBC") then Contains(text, ",")
    else if Contains(text, "+CSQ") then Contains(text, " ") && Contains(text, ",")
    else true
  }

  function BalanceType(text: string): nat
    requires Contains(text, CUSD)
  {
    Unsigned(Atoi(Behind(text, CUSD)))
  }

  /** `amount` stands for the number atof finds in a balance text. */
  function ReportOf(text: string, amount: real): Report
    requires Readable(text)
  {
    if Contains(text, "+CUSD") then Report.Balance(BalanceType(text), amount)
    else if Contains(text, "+CBC") then Report.Battery(Unsigned(Atoi(Behind(text, ","))))
    else if Contains(text, "+CSQ") then Report.Signal(Unsigned(Atoi(Behind(text, " "))))
    else Other
  }

  /** The text behind the first separator is what follows it. */
  lemma {:induction false} BehindFirst(before: string, c: char, after: string)
    requires c !in before
    ensures Contains(before + [c] + after, [c]) && Behind(before + [c] + after, [c]) == after
    decreases |before|
  {
    var s := before + [c] + after;
    assert s[|before|..|before| + 1] == [c];
    assert OccursAt(s, [c], |before|);
    if before == [] {
      assert [c] <= s && s[1..] == after;
    } else {
      assert s[0] == before[0];
      assert s[1..] == before[1..] + [c] + after;
      BehindFirst(before[1..], c, after);
    }
  }

  lemma DigitPrefixStops(digits: string, after: string)
    requires AllDigits(digits) && (after != [] ==> !IsDigit(after[0]))
    ensures DigitPrefix(digits + after) == |digits|
  {
    var s := digits + after;
    assert forall i :: 0 <= i < |digits| ==> IsDigit(digits[i]) && s[i] == digits[i];
    assert |s| > |digits| ==> s[|digits|] == after[0];
  }

  lemma DigitsRead(n: nat, digits: string, after: string)
    requires AllDigits(digits) && DigitsValue(digits) == n && (after != [] ==> !IsDigit(after[0]))
    ensures var s := digits + after; DigitsValue(s[..DigitPrefix(s)]) == n
  {
    DigitPrefixStops(digits, after);
    assert (digits + after)[..|digits|] == digits;
  }

  lemma AtoiNegative(n: nat, after: string)
    requires n > 0 && (after != [] ==> !IsDigit(after[0]))
    ensures Atoi("-" + (Digits(n) + after)) == -(n as int)
  {
    hide Atoi, DigitPrefix, DigitsValue, Digits;
    DigitsReadBack(n);
    DigitsRead(n, Digits(n), after);
    AfterMinus(Digits(n) + after);
  }

  lemma AfterMinus(rest: string)
    ensures Atoi("-" + rest) == -(DigitsValue(rest[..DigitPrefix(rest)]) as int)
  {
    assert ("-" + rest)[1..] == rest;
  }

  lemma AtoiPositive(n: nat, digits: string, after: string)
    requires digits != [] && AllDigits(digits) && DigitsValue(digits) == n
    requires after != [] ==> !IsDigit(after[0])
    ensures Atoi(digits + after) == n
  {
    DigitsRead(n, digits, after);
    assert IsDigit(digits[0]) && (digits + after)[0] == digits[0];
  }

  lemma AtoiReads(v: int, after: string)
    requires after != [] ==> !IsDigit(after[0])
    ensures Atoi(Text(v) + after) == v
  {
    hide Atoi;
    if v < 0 {
      AtoiNegative(-v, after);
      Regroup("-", Digits(-v), after);
    } else {
      assert AllDigits(Text(v)) && DigitsValue(Text(v)) == v by {
        DigitsReadBack(v);
        ZeroReadsBack("0");
      }
      AtoiPositive(v, Text(v), after);
    }
  }

  /** The number a module prints after the first separator is the level read, as a
      uint32_t, whatever follows it; so `+CBC: 0,80,3916` reads 80 and `+CSQ: 9,0` reads
      9. A negative number reads as one close to 2^32, and so as a good level. */
  lemma LevelReadsBack(before: string, c: char, v: int, after: string)
    requires c !in before && -0x8000_0000 <= v < 0x8000_0000
    requires after != [] ==> !IsDigit(after[0])
    ensures var text := before + [c] + Text(v) + after;
            && Contains(text, [c])
            && Unsigned(Atoi(Behind(text, [c]))) == if v >= 0 then v else 0x1_0000_0000 + v
  {
    Regroup(before + [c], Text(v), after);
    LevelBehind(before, c, v, after);
  }

  lemma Regroup(a: string, b: string, c: string)
    ensures a + b + c == a + (b + c)
  {
  }

  lemma LevelBehind(before: string, c: char, v: int, after: string)
    requires c !in before && -0x8000_0000 <= v < 0x8000_0000
    requires after != [] ==> !IsDigit(after[0])
    ensures var text := before + [c] + (Text(v) + after);
            && Contains(text, [c])
            && Unsigned(Atoi(Behind(text, [c]))) == if v >= 0 then v else 0x1_0000_0000 + v
  {
    hide Atoi;
    BehindFirst(before, c, Text(v) + after);
    AtoiReads(v, after);
  }

  lemma NotADigit(n: nat, c: char)
    requires !IsDigit(c)
    ensures c !in Text(n)
  {
    if n == 0 {
      assert Text(n) == "0";
    }
  }

  lemma BatteryText(text: string)
    requires "+CBC" <= text && 'U' !in text
    ensures Contains(text, "+CBC") && !Contains(text, "+CUSD")
  {
    assert OccursAt(text, "+CBC", 0);
    MissingLetter(text, "+CUSD", 'U');
  }

  /** The battery report of the module is read for what it says. */
  lemma BatteryReportReads(charging: nat, level: nat, millivolts: nat, amount: real)
    requires level < 0x8000_0000
    ensures var text := "+CBC: " + Text(charging) + "," + Text(level) + "," + Text(millivolts);
            Readable(text) && ReportOf(text, amount) == Report.Battery(level)
  {
    NotADigit(charging, ',');
    NotADigit(charging, 'U');
    NotADigit(level, 'U');
    NotADigit(millivolts, 'U');
    FieldReads("+CBC: " + Text(charging), level, Text(millivolts), amount);
    var (a, b) := (Text(level), Text(millivolts));
    assert "+CBC: " + Text(charging) + "," + a + "," + b == "+CBC: " + Text(charging) + "," + a + ("," + b);
  }

  lemma FieldReads(before: string, level: nat, last: string, amount: real)
    requires "+CBC" <= before && ',' !in before && 'U' !in before && 'U' !in last && 'U' !in Text(level)
    requires level < 0x8000_0000
    ensures var text := before + "," + Text(level) + ("," + last);
            Readable(text) && ReportOf(text, amount) == Report.Battery(level)
  {
    LevelReadsBack(before, ',', level, "," + last);
    BatteryText(before + "," + Text(level) + ("," + last));
  }

  lemma SignalText(text: string)
    requires "+CSQ" <= text && 'U' !in text && 'B' !in text && ' ' in text && ',' in text
    ensures !Contains(text, "+CUSD") && !Contains(text, "+CBC") && Contains(text, "+CSQ")
    ensures Contains(text, " ") && Contains(text, ",")
  {
    assert OccursAt(text, "+CSQ", 0);
    MissingLetter(text, "+CUSD", 'U');
    MissingLetter(text, "+CBC", 'B');
    LetterOccurs(text, ' ');
    LetterOccurs(text, ',');
  }

  lemma LetterOccurs(text: string, c: char)
    requires c in text
    ensures Contains(text, [c])
  {
    var i: nat :| i < |text| && text[i] == c;
    assert text[i..i + 1] == [c];
    assert OccursAt(text, [c], i);
  }

  /** The signal report of the module is read for what it says: the number behind
      the space, not the one behind the comma. */
  lemma SignalReportReads(level: nat, errors: nat, amount: real)
    requires level < 0x8000_0000
    ensures var text := "+CSQ: " + Text(level) + "," + Text(errors);
            Readable(text) && ReportOf(text, amount) == Report.Signal(level)
  {
    NotADigit(level, 'U');
    NotADigit(level, 'B');
    NotADigit(errors, 'U');
    NotADigit(errors, 'B');
    SignalFieldReads("+CSQ:", level, Text(errors), amount);
    var (a, b) := (Text(level), Text(errors));
    assert "+CSQ: " + a + "," + b == "+CSQ:" + " " + a + ("," + b);
  }

  lemma SignalFieldReads(before: string, level: nat, last: string, amount: real)
    requires before == "+CSQ:" && level < 0x8000_0000
    requires 'U' !in last && 'B' !in last && 'U' !in Text(level) && 'B' !in Text(level)
    ensures var text := before + " " + Text(level) + ("," + last);
            Readable(text) && ReportOf(text, amount) == Report.Signal(level)
  {
    hide Atoi, Behind;
    var text := before + " " + Text(level) + ("," + last);
    LevelReadsBack(before, ' ', level, "," + last);
    assert text[|before|] == ' ' && text[|before| + 1 + |Text(level)|] == ',';
    SignalText(text);
  }

  /** The balance report is read for its type, whatever follows it. */
  lemma BalanceReportReads(kind: nat, after: string, amount: real)
    requires kind < 0x8000_0000 && (after != [] ==> !IsDigit(after[0]))
    ensures var text := CUSD + Text(kind) + after;
            && Contains(text, "+CUSD") && Contains(text, CUSD) && BalanceType(text) == kind
            && (Readable(text) <==> kind > 1 || Contains(text, "rahunku "))
            && (Readable(text) ==> ReportOf(text, amount) == Report.Balance(kind, amount))
  {
    hide Atoi, Behind, Contains, Text;
    Regroup(CUSD, Text(kind), after);
    var text := CUSD + (Text(kind) + after);
    BehindPrefix(CUSD, Text(kind) + after);
    BehindPrefix("+CUSD", ": " + (Text(kind) + after));
    assert text == "+CUSD" + (": " + (Text(kind) + after));
    AtoiReads(kind, after);
  }

  lemma BehindPrefix(pattern: string, rest: string)
    ensures Contains(pattern + rest, pattern) && Behind(pattern + rest, pattern) == rest
  {
    assert (pattern + rest)[0..|pattern|] == pattern;
    assert OccursAt(pattern + rest, pattern, 0);
  }

  /** The text uses these letters and digits only. */
  ghost predicate Uses(text: string, letters: string) {
    forall c :: c in text ==> c in letters || IsDigit(c)
  }

  lemma Lacks(text: string, letters: string, pattern: string, c: char)
    requires Uses(text, letters) && c in pattern && c !in letters && !IsDigit(c)
    ensures !Contains(text, pattern)
  {
    MissingLetter(text, pattern, c);
  }

  lemma NoNotice(text: string, letters: string)
    requires Uses(text, letters)
    requires 'l' !in letters && 'M' !in letters && 'R' !in letters && 'N' !in letters
    requires 'P' !in letters && 'F' !in letters
    ensures !Contains(text, "Call Ready") && !Contains(text, "SIMCOM") && !IsNotice(text)
  {
    hide Uses, Contains;
    Lacks(text, letters, "Call Ready", 'l');
    Lacks(text, letters, "SIMCOM", 'M');
    Lacks(text, letters, "+CREG", 'R');
    Lacks(text, letters, "NORMAL POWER DOWN", 'N');
    Lacks(text, letters, "RDY", 'R');
    Lacks(text, letters, "+CPIN: READY", 'P');
    Lacks(text, letters, "+CFUN: 1", 'F');
  }

  /** A text of these letters only can be nothing but a battery report. */
  lemma BatteryClassified(text: string)
    requires "+CBC" <= text && Uses(text, "+CB: ,")
    ensures Classify(text) == GsmResponse.Battery
  {
    assert Contains(text, "+CBC") by {
      assert OccursAt(text, "+CBC", 0);
    }
    hide Uses, Contains, IsNotice;
    NoNotice(text, "+CB: ,");
    Lacks(text, "+CB: ,", "+CUSD", 'U');
  }

  lemma SignalClassified(text: string)
    requires "+CSQ" <= text && Uses(text, "+CSQ: ,")
    ensures Classify(text) == GsmResponse.Signal
  {
    assert Contains(text, "+CSQ") by {
      assert OccursAt(text, "+CSQ", 0);
    }
    hide Uses, Contains, IsNotice;
    NoNotice(text, "+CSQ: ,");
    Lacks(text, "+CSQ: ,", "+CUSD", 'U');
    Lacks(text, "+CSQ: ,", "+CBC", 'B');
  }

  /** What the reports of the module are to the driver, for all numbers. */
  lemma ReportsClassified(a: nat, b: nat, c: nat)
    ensures Classify("+CBC: " + Text(a) + "," + Text(b) + "," + Text(c)) == GsmResponse.Battery
    ensures Classify("+CSQ: " + Text(a) + "," + Text(b)) == GsmResponse.Signal
  {
    TextIsDigits(a);
    TextIsDigits(b);
    TextIsDigits(c);
    var battery, signal := "+CBC: " + Text(a) + "," + Text(b) + "," + Text(c), "+CSQ: " + Text(a) + "," + Text(b);
    assert battery[..4] == "+CBC" && signal[..4] == "+CSQ";
    BatteryClassified(battery);
    SignalClassified(signal);
  }

  lemma TextIsDigits(n: nat)
    ensures forall c :: c in Text(n) ==> IsDigit(c)
  {
    if n == 0 {
      assert Text(n) == "0";
    }
  }

  // ----- the analysis -----

  /** One response; `delivered` is what the POWER_LOW callback would return. */
  datatype Input = Input(report: Report, delivered: bool)

  datatype Action = NormalActivity | BalanceEvent | PowerLow(delivered: bool) | ErrorBlink

  /** `good` is the uint8_t isGsmOk, `notified` is isBatNotifSend. */
  datatype Health = Health(good: nat, notified: bool)

  const INITIAL := Health(0, false)

  predicate Good(r: Report) {
    match r
    case Balance(kind, amount) => kind == 2 || kind == 4 || (kind <= 1 && amount >= 1.0)
    case Battery(level) => level >= 10
    case Signal(level) => level > 1
    case Other => false
  }

  predicate Bad(r: Report) {
    match r
    case Balance(kind, amount) => kind <= 1 && amount < 1.0
    case Battery(level) => level < 10
    case Signal(level) => level <= 1
    case Other => false
  }

  function Counted(h: Health, r: Report): nat {
    if Good(r) then (h.good + 1) % 256 else h.good
  }

  /** What the analysis of a response does, in order. */
  function Acts(h: Health, x: Input): seq<Action> {
    match x.report
    case Balance(_, _) =>
      (if Counted(h, x.report) == 3 then [NormalActivity] else []) + [BalanceEvent]
      + (if Bad(x.report) then [ErrorBlink] else [])
    case Battery(level) =>
      if level >= 10 then []
      else if h.notified then [ErrorBlink]
      else if x.delivered then [PowerLow(true), ErrorBlink]
      else [PowerLow(false)]
    case Signal(_) => if Bad(x.report) then [ErrorBlink] else []
    case Other => []
  }

  function Next(h: Health, x: Input): Health {
    Health(if x.report.Balance? then 0 else Counted(h, x.report),
           if x.report.Battery? then x.report.level < 10 && (h.notified || x.delivered) else h.notified)
  }

  /** The state after a run of responses, oldest first. */
  function Exec(xs: seq<Input>): Health
    decreases |xs|
  {
    if xs == [] then INITIAL else Next(Exec(xs[..|xs| - 1]), xs[|xs| - 1])
  }

  /** What response i of a run makes the driver do. */
  function ActsAt(xs: seq<Input>, i: nat): seq<Action>
    requires i < |xs|
  {
    Acts(Exec(xs[..i]), xs[i])
  }

  /** A notification goes out exactly at a low reading that was not notified yet
      and whose delivery succeeds. */
  predicate Notifies(h: Health, x: Input) {
    x.report.Battery? && x.report.level < 10 && !h.notified && x.delivered
  }

  lemma WhenItActs(h: Health, x: Input)
    ensures NormalActivity in Acts(h, x) <==> x.report.Balance? && Counted(h, x.report) == 3
    ensures PowerLow(true) in Acts(h, x) <==> Notifies(h, x)
    ensures BalanceEvent in Acts(h, x) <==> x.report.Balance?
  {
  }

  // ----- normal activity -----

  function GoodCount(xs: seq<Input>): nat {
    if xs == [] then 0 else GoodCount(xs[..|xs| - 1]) + (if Good(xs[|xs| - 1].report) then 1 else 0)
  }

  ghost predicate NoBalance(xs: seq<Input>) {
    forall i :: 0 <= i < |xs| ==> !xs[i].report.Balance?
  }

  ghost predicate EndsCounting(xs: seq<Input>) {
    xs == [] || xs[|xs| - 1].report.Balance?
  }

  lemma OneMoreGood(xs: seq<Input>, x: Input)
    ensures GoodCount(xs + [x]) == GoodCount(xs) + (if Good(x.report) then 1 else 0)
  {
    assert (xs + [x])[..|xs|] == xs;
  }

  lemma OneMore(xs: seq<Input>, x: Input)
    ensures Exec(xs + [x]) == Next(Exec(xs), x)
  {
    assert (xs + [x])[..|xs|] == xs;
  }

  /** The counter holds the good readings since the last balance, modulo 256. */
  lemma {:induction false} CounterCounts(before: seq<Input>, between: seq<Input>)
    requires EndsCounting(before) && NoBalance(between)
    ensures Exec(before + between).good == GoodCount(between) % 256
    decreases |between|
  {
    if between == [] {
      assert before + between == before;
    } else {
      var shorter, x := between[..|between| - 1], between[|between| - 1];
      assert between == shorter + [x];
      CounterCounts(before, shorter);
      CountsOneMore(before, shorter, x);
    }
  }

  lemma CountsOneMore(before: seq<Input>, between: seq<Input>, x: Input)
    requires Exec(before + between).good == GoodCount(between) % 256 && !x.report.Balance?
    ensures Exec(before + (between + [x])).good == GoodCount(between + [x]) % 256
  {
    hide Exec, GoodCount;
    assert before + (between + [x]) == before + between + [x];
    OneMoreGood(between, x);
    OneMore(before + between, x);
  }

  lemma LastActs(xs: seq<Input>, x: Input)
    ensures ActsAt(xs + [x], |xs|) == Acts(Exec(xs), x)
  {
    assert (xs + [x])[..|xs|] == xs;
  }

  /** Normal LED activity is requested exactly on a balance response at which the
      good readings since the previous balance, this response included, number 3
      modulo 256. */
  lemma NormalActivityExactly(before: seq<Input>, between: seq<Input>, x: Input)
    requires EndsCounting(before) && NoBalance(between)
    ensures NormalActivity in ActsAt(before + between + [x], |before + between|)
            <==> x.report.Balance? && GoodCount(between + [x]) % 256 == 3
  {
    hide Acts, ActsAt, Exec, GoodCount;
    LastActs(before + between, x);
    WhenItActs(Exec(before + between), x);
    CounterCounts(before, between);
    OneMoreGood(between, x);
  }

  function Batteries(xs: seq<Input>): nat {
    if xs == [] then 0
    else Batteries(xs[..|xs| - 1]) + (if xs[|xs| - 1].report.Battery? then 1 else 0)
  }

  function Signals(xs: seq<Input>): nat {
    if xs == [] then 0
    else Signals(xs[..|xs| - 1]) + (if xs[|xs| - 1].report.Signal? then 1 else 0)
  }

  /** A battery at 10 percent or more, a signal above level 1, a balance of at least 1
      or a reply without an amount. */
  predicate Healthy(r: Report) {
    && (r.Battery? ==> 10 <= r.level)
    && (r.Signal? ==> 2 <= r.level)
    && (r.Balance? ==> r.kind in {0, 1, 2, 4} && (r.kind < 2 ==> r.amount >= 1.0))
  }

  /** Every battery and signal reading is healthy. */
  ghost predicate AllHealthy(xs: seq<Input>) {
    forall i :: 0 <= i < |xs| ==> Healthy(xs[i].report)
  }

  /** What the comment asks for: balance, signal and battery are OK. */
  ghost predicate BalanceSignalBatteryOk(between: seq<Input>, x: Input) {
    Healthy(x.report) && AllHealthy(between) && Batteries(between) > 0 && Signals(between) > 0
  }

  /** The readings since the last balance, b of the battery and s of the signal. */
  ghost predicate Window(between: seq<Input>, b: nat, s: nat) {
    NoBalance(between) && Batteries(between) == b && Signals(between) == s
  }

  /** In every run, at a balance response x after such a window, the request means
      what the comment says. */
  ghost predicate RequestMeansOk(before: seq<Input>, between: seq<Input>, x: Input) {
    NormalActivity in ActsAt(before + between + [x], |before + between|)
    <==> BalanceSignalBatteryOk(between, x)
  }

  /** The good readings of a window are at most all of them. */
  lemma {:induction false} GoodAtMost(xs: seq<Input>)
    requires NoBalance(xs)
    ensures GoodCount(xs) <= Batteries(xs) + Signals(xs)
    ensures GoodCount(xs) == Batteries(xs) + Signals(xs) <==> AllHealthy(xs)
    decreases |xs|
  {
    if xs != [] {
      var before, x := xs[..|xs| - 1], xs[|xs| - 1];
      GoodAtMost(before);
      assert AllHealthy(xs) <==> AllHealthy(before) && Healthy(x.report) by {
        assert forall i :: 0 <= i < |before| ==> before[i] == xs[i];
      }
    }
  }

  lemma RequestMeansOkFewReadings(before: seq<Input>, between: seq<Input>, x: Input, b: nat, s: nat)
    requires EndsCounting(before) && Window(between, b, s) && x.report.Balance?
    requires (b == 1 && s == 1) || b + s <= 1
    ensures RequestMeansOk(before, between, x)
  {
    NormalActivityExactly(before, between, x);
    OneMoreGood(between, x);
    GoodAtMost(between);
  }

  /** The reading number n of b battery readings and then signal readings, the first
      two good and the others bad. */
  function TwoGoodAt(n: nat, b: nat): Input {
    var good := n <= 2;
    Input(if n <= b then Report.Battery(if good then 80 else 5) else Report.Signal(if good then 9 else 0), true)
  }

  function TwoGood(n: nat, b: nat): seq<Input> {
    if n == 0 then [] else TwoGood(n - 1, b) + [TwoGoodAt(n, b)]
  }

  lemma OneMoreReading(xs: seq<Input>, x: Input)
    ensures Batteries(xs + [x]) == Batteries(xs) + (if x.report.Battery? then 1 else 0)
    ensures Signals(xs + [x]) == Signals(xs) + (if x.report.Signal? then 1 else 0)
  {
    assert (xs + [x])[..|xs|] == xs;
  }

  /** n readings with these counts, and no balance. */
  ghost predicate Counts(xs: seq<Input>, n: nat, good: nat, batteries: nat, signals: nat) {
    && |xs| == n && NoBalance(xs)
    && GoodCount(xs) == good && Batteries(xs) == batteries && Signals(xs) == signals
  }

  lemma CountsGrow(xs: seq<Input>, x: Input, n: nat, good: nat, batteries: nat, signals: nat)
    requires Counts(xs, n, good, batteries, signals) && !x.report.Balance?
    ensures Counts(xs + [x], n + 1, good + (if Good(x.report) then 1 else 0),
                   batteries + (if x.report.Battery? then 1 else 0),
                   signals + (if x.report.Signal? then 1 else 0))
  {
    OneMoreGood(xs, x);
    OneMoreReading(xs, x);
  }

  lemma {:induction false} TwoGoodCounts(n: nat, b: nat)
    ensures Counts(TwoGood(n, b), n, if n <= 2 then n else 2, if n <= b then n else b, if n <= b then 0 else n - b)
  {
    if n > 0 {
      var m := n - 1;
      TwoGoodCounts(m, b);
      CountsGrow(TwoGood(m, b), TwoGoodAt(n, b), m,
                 if m <= 2 then m else 2, if m <= b then m else b, if m <= b then 0 else m - b);
    }
  }

  /** With any other numbers of readings, two good ones and a good balance are
      enough, whatever the rest says. */
  lemma NormalAgainstComment(b: nat, s: nat)
    requires b + s >= 2 && !(b == 1 && s == 1)
    ensures var between, x := TwoGood(b + s, b), Input(Report.Balance(1, 13.05), true);
            && Window(between, b, s)
            && NormalActivity in ActsAt([] + between + [x], |[] + between|)
            && !BalanceSignalBatteryOk(between, x)
  {
    var between, x := TwoGood(b + s, b), Input(Report.Balance(1, 13.05), true);
    TwoGoodCounts(b + s, b);
    NormalActivityExactly([], between, x);
    OneMoreGood(between, x);
    GoodAtMost(between);
  }

  /** When the request keeps the promise of the comment: for windows of b battery and
      s signal readings it always does if and only if there is one of each, or at most
      one in all and then no request is made. */
  lemma CommentHoldsExactly(b: nat, s: nat)
    ensures (forall before: seq<Input>, between: seq<Input>, x: Input ::
               EndsCounting(before) && Window(between, b, s) && x.report.Balance? ==>
                 RequestMeansOk(before, between, x))
            <==> (b == 1 && s == 1) || b + s <= 1
  {
    if (b == 1 && s == 1) || b + s <= 1 {
      forall before: seq<Input>, between: seq<Input>, x: Input
        | EndsCounting(before) && Window(between, b, s) && x.report.Balance?
        ensures RequestMeansOk(before, between, x)
      {
        RequestMeansOkFewReadings(before, between, x, b, s);
      }
    } else {
      NormalAgainstComment(b, s);
      assert !RequestMeansOk([], TwoGood(b + s, b), Input(Report.Balance(1, 13.05), true));
    }
  }

  /** An error is shown exactly for an unhealthy reading, unless its notification
      failed; a balance reply of an unexpected type counts as neither. */
  lemma ErrorShownExactly(h: Health, x: Input)
    ensures ErrorBlink in Acts(h, x)
            <==> !Healthy(x.report) && (x.report.Balance? ==> x.report.kind <= 1)
                 && !(x.report.Battery? && !h.notified && !x.delivered)
  {
  }

  // ----- low-battery notifications -----

  lemma {:induction false} StaysNotified(xs: seq<Input>, i: nat, j: nat)
    requires i <= j <= |xs| && Exec(xs[..i]).notified
    requires forall k :: i <= k < j ==> !(xs[k].report.Battery? && xs[k].report.level >= 10)
    ensures Exec(xs[..j]).notified
    decreases j
  {
    if i < j {
      StaysNotified(xs, i, j - 1);
      assert xs[..j][..j - 1] == xs[..j - 1];
      assert xs[..j][j - 1] == xs[j - 1];
    }
  }

  /** Hysteresis: between two notifications that went out the battery was read at
      10 or more. */
  lemma NotificationsAreSeparated(xs: seq<Input>, i: nat, j: nat)
    requires i < j < |xs|
    requires PowerLow(true) in ActsAt(xs, i) && PowerLow(true) in ActsAt(xs, j)
    ensures exists k :: i < k < j && xs[k].report.Battery? && xs[k].report.level >= 10
  {
    WhenItActs(Exec(xs[..i]), xs[i]);
    WhenItActs(Exec(xs[..j]), xs[j]);
    assert xs[..i + 1][..i] == xs[..i];
    assert Exec(xs[..i + 1]).notified;
    if forall k :: i < k < j ==> !(xs[k].report.Battery? && xs[k].report.level >= 10) {
      StaysNotified(xs, i + 1, j);
      assert false;
    }
  }

  /** A battery level, and whether a notification sent now would be accepted. */
  datatype Reading = Reading(level: nat, delivered: bool)

  function Readings(xs: seq<Input>): seq<Reading> {
    if xs == [] then []
    else if xs[0].report.Battery?
    then [Reading(xs[0].report.level, xs[0].delivered)] + Readings(xs[1..])
    else Readings(xs[1..])
  }

  predicate Low(r: Reading) {
    r.level < 10
  }

  predicate AllLow(rs: seq<Reading>) {
    forall i :: 0 <= i < |rs| ==> Low(rs[i])
  }

  function LowPrefix(rs: seq<Reading>): (n: nat)
    ensures n <= |rs| && AllLow(rs[..n]) && (n < |rs| ==> !Low(rs[n]))
  {
    if rs == [] || !Low(rs[0]) then 0
    else
      var n := LowPrefix(rs[1..]);
      assert forall i :: 0 < i < n + 1 ==> rs[i] == rs[1..][i - 1];
      n + 1
  }

  /** The maximal runs of readings below 10, in order. */
  function LowRuns(rs: seq<Reading>): seq<seq<Reading>>
    decreases |rs|
  {
    if rs == [] then []
    else if !Low(rs[0]) then LowRuns(rs[1..])
    else [rs[..LowPrefix(rs)]] + LowRuns(rs[LowPrefix(rs)..])
  }

  predicate Served(run: seq<Reading>) {
    exists i :: 0 <= i < |run| && run[i].delivered
  }

  function ServedRuns(runs: seq<seq<Reading>>): nat {
    if runs == [] then 0 else (if Served(runs[0]) then 1 else 0) + ServedRuns(runs[1..])
  }

  /** How many notifications went out over a run of responses. */
  function Delivered(xs: seq<Input>): nat
    decreases |xs|
  {
    if xs == [] then 0
    else Delivered(xs[..|xs| - 1]) + (if PowerLow(true) in ActsAt(xs, |xs| - 1) then 1 else 0)
  }

  /** The notifications that go out over some readings, from a given flag. */
  function Sent(notified: bool, rs: seq<Reading>): nat
    decreases |rs|
  {
    if rs == [] then 0
    else if !Low(rs[0]) then Sent(false, rs[1..])
    else if !notified && rs[0].delivered then 1 + Sent(true, rs[1..])
    else Sent(notified, rs[1..])
  }

  /** What was delivered so far and what the rest will deliver add up. */
  lemma {:induction false} DeliveredIsSent(before: seq<Input>, rest: seq<Input>)
    ensures Delivered(before + rest) == Delivered(before) + Sent(Exec(before).notified, Readings(rest))
    decreases |rest|
  {
    if rest == [] {
      assert before + rest == before;
    } else {
      var more := before + [rest[0]];
      assert before + rest == more + rest[1..];
      assert more[..|before|] == before;
      WhenItActs(Exec(before), rest[0]);
      DeliveredIsSent(more, rest[1..]);
    }
  }

  lemma ServedFirst(run: seq<Reading>)
    requires run != []
    ensures Served(run) <==> run[0].delivered || Served(run[1..])
  {
    assert run == [run[0]] + run[1..];
    if Served(run[1..]) {
      var i :| 0 <= i < |run| - 1 && run[1..][i].delivered;
      assert run[i + 1].delivered;
    }
  }

  lemma {:induction false} RunSends(notified: bool, run: seq<Reading>, rest: seq<Reading>)
    requires AllLow(run) && (rest != [] ==> !Low(rest[0]))
    ensures Sent(notified, run + rest) == (if !notified && Served(run) then 1 else 0) + Sent(false, rest)
    decreases |run|
  {
    if run == [] {
      assert run + rest == rest;
    } else {
      var whole, tail := run + rest, run[1..];
      assert whole[1..] == tail + rest && whole[0] == run[0];
      ServedFirst(run);
      RunSends(notified || run[0].delivered, tail, rest);
    }
  }

  lemma {:induction false} SentPerRun(rs: seq<Reading>)
    ensures Sent(false, rs) == ServedRuns(LowRuns(rs))
    decreases |rs|
  {
    if rs == [] {
    } else if !Low(rs[0]) {
      SentPerRun(rs[1..]);
    } else {
      var n := LowPrefix(rs);
      assert rs == rs[..n] + rs[n..];
      RunSends(false, rs[..n], rs[n..]);
      SentPerRun(rs[n..]);
      var runs := LowRuns(rs);
      assert runs[0] == rs[..n] && runs[1..] == LowRuns(rs[n..]);
    }
  }

  /** Over every run of responses the notifications that went out are as many as
      the maximal runs of low readings in which one could be delivered. */
  lemma OneNotificationPerLowRun(xs: seq<Input>)
    ensures Delivered(xs) == ServedRuns(LowRuns(Readings(xs)))
  {
    DeliveredIsSent([], xs);
    assert [] + xs == xs;
    SentPerRun(Readings(xs));
  }

  lemma {:induction false} AllServed(rs: seq<Reading>)
    requires forall i :: 0 <= i < |rs| ==> rs[i].delivered
    ensures ServedRuns(LowRuns(rs)) == |LowRuns(rs)|
    decreases |rs|
  {
    if rs == [] {
    } else if !Low(rs[0]) {
      AllServed(rs[1..]);
    } else {
      var n := LowPrefix(rs);
      AllServed(rs[n..]);
      var runs := LowRuns(rs);
      assert runs[0] == rs[..n] && runs[1..] == LowRuns(rs[n..]);
      assert runs[0][0].delivered;
    }
  }

  lemma {:induction false} ReadingsDelivered(xs: seq<Input>)
    requires forall i :: 0 <= i < |xs| ==> xs[i].delivered
    ensures forall i :: 0 <= i < |Readings(xs)| ==> Readings(xs)[i].delivered
  {
    if xs != [] {
      ReadingsDelivered(xs[1..]);
    }
  }

  /** With no delivery failure there is one notification per maximal low run. */
  lemma OneNotificationEach(xs: seq<Input>)
    requires forall i :: 0 <= i < |xs| ==> xs[i].delivered
    ensures Delivered(xs) == |LowRuns(Readings(xs))|
  {
    OneNotificationPerLowRun(xs);
    ReadingsDelivered(xs);
    AllServed(Readings(xs));
  }

  // ----- the code -----

  class HealthMonitor {
    /** isGsmOk, a uint8_t */
    var good: nat
    /** isBatNotifSend */
    var notified: bool

    ghost function View(): Health
      reads this
    {
      Health(good, notified)
    }

    constructor ()
      ensures View() == INITIAL
    {
      good, notified := 0, false;
    }

    method CountGood()
      modifies this`good
      ensures good == (old(good) + 1) % 256
    {
      good := (good + 1) % 256;
    }

    /** gsmLlStateAnalyze; the result is false for RV_FAILURE. `amount` is the
        balance atof reads and `delivered` what the callback returns. */
    method Analyze(text: string, amount: real, delivered: bool) returns (ok: bool, ghost acts: seq<Action>)
      requires Readable(text)
      modifies this
      ensures var x := Input(ReportOf(text, amount), delivered);
              View() == Next(old(View()), x) && acts == Acts(old(View()), x)
      ensures ok <==> PowerLow(false) !in acts
    {
      acts := [];
      var error := false;
      var report := ReportOf(text, amount);
      if report.Balance? {
        if report.kind == 1 || report.kind == 0 {
          if report.amount < 1.0 {
            error := true;
          } else {
            CountGood();
          }
        } else if report.kind == 2 || report.kind == 4 {
          CountGood();
        }
        if good == 3 {
          acts := acts + [NormalActivity];
        }
        good := 0;
        acts := acts + [BalanceEvent];
      } else if report.Battery? {
        if report.level < 10 {
          error := true;
          if !notified {
            acts := acts + [PowerLow(delivered)];
            if !delivered {
              ok := false;
              return;
            }
            notified := true;
          }
        } else {
          CountGood();
          notified := false;
        }
      } else if report.Signal? {
        if report.level <= 1 {
          error := true;
        } else {
          CountGood();
        }
      }
      if error {
        acts := acts + [ErrorBlink];
      }
      ok := true;
    }
  }
}
