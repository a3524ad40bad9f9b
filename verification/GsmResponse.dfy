/**
 What a delivered GSM text means to the driver: the chain of text tests that
 decides which response was received, whether the response lets the next
 command out, and which byte of the receive buffer the analysis overwrites.
 A `char` stands for one UART byte throughout.
 */
module GsmResponse {

  /** The C string at the front of a text: everything before the first NUL. */
  function CString(s: string): (r: string)
    ensures |r| <= |s| && r == s[..|r|]
  {
    if s == [] || s[0] == '\0' then [] else [s[0]] + CString(s[1..])
  }

  /** strstr finds the pattern somewhere in the text. */
  predicate Contains(s: string, pattern: string) {
    exists i: nat :: i <= |s| && OccursAt(s, pattern, i)
  }

  predicate OccursAt(s: string, pattern: string, i: nat) {
    i + |pattern| <= |s| && s[i..i + |pattern|] == pattern
  }

  datatype Response =
    | PowerUp
    | Notice       // network status, power down, RDY, CPIN, CFUN
    | Balance
    | Battery
    | Signal
    | NoCarrier
    | NewMessage
    | Ok
    | Prompt
    | Error
    | SmsOrEquipmentError
    | Unknown

  /** The order of the tests matters: an earlier substring hides a later one. */
  function Classify(text: string): Response {
    if Contains(text, "Call Ready") || Contains(text, "SIMCOM") then PowerUp
    else if IsNotice(text) then Notice
    else if Contains(text, "+CUSD") then Balance
    else if Contains(text, "+CBC") then Battery
    else if Contains(text, "+CSQ") then Signal
    else if Contains(text, "NO CARRIER") then NoCarrier
    else if "+CMT" <= text then NewMessage
    else if text == "OK" then Ok
    else if text == ">" then Prompt
    else if text == "ERROR" then Error
    else if "+CMS ERROR:" <= text || "+CME ERROR:" <= text then SmsOrEquipmentError
    else Unknown
  }

  predicate IsNotice(text: string) {
    || Contains(text, "+CREG")
    || Contains(text, "NORMAL POWER DOWN")
    || Contains(text, "RDY")
    || Contains(text, "+CPIN: READY")
    || Contains(text, "+CFUN: 1")
  }

  /** The responses after which the next command may be dispatched. */
  predicate SetsAck(response: Response) {
    response in {PowerUp, Ok, Prompt, Error, SmsOrEquipmentError}
  }

  /** The responses that also stop the response timer. */
  predicate StopsTimer(response: Response) {
    response in {Ok, Prompt}
  }

  /** Position of the last occurrence of c, as strrchr finds it. */
  function LastIndexOf(s: string, c: char): (i: nat)
    requires c in s
    ensures i < |s| && s[i] == c && forall j :: i < j < |s| ==> s[j] != c
  {
    if s[|s| - 1] == c then |s| - 1 else LastIndexOf(s[..|s| - 1], c)
  }

  /** The receive buffer after the analysis: a battery or signal report has its
      last comma replaced by NUL in place, every other text is left alone. */
  function AfterAnalysis(buf: seq<char>): (r: seq<char>)
    ensures |r| == |buf|
  {
    var text := CString(buf);
    if Classify(text) in {Battery, Signal} && ',' in text
    then buf[LastIndexOf(text, ',') := '\0']
    else buf
  }

  lemma {:induction false} CStringCut(s: string, i: nat)
    requires i < |CString(s)|
    ensures CString(s[i := '\0']) == s[..i]
  {
    if i == 0 {
      assert s[0 := '\0'][0] == '\0';
    } else {
      CStringCut(s[1..], i - 1);
      assert s[i := '\0'][1..] == s[1..][i - 1 := '\0'];
      assert s[..i] == [s[0]] + s[1..][..i - 1];
    }
  }

  /** A battery or signal report loses its last field in the buffer: what is left is
      the text in front of its last comma. */
  lemma LastFieldCut(buf: seq<char>, before: string, last: string)
    requires CString(buf) == before + "," + last && ',' !in last
    requires Classify(CString(buf)) in {Battery, Signal}
    ensures CString(AfterAnalysis(buf)) == before
  {
    hide Classify, CString;
    var text := CString(buf);
    assert text[|before|] == ',';
    var i := LastIndexOf(text, ',');
    assert forall j :: |before| < j < |text| ==> text[j] == last[j - |before| - 1];
    assert i == |before|;
    CStringCut(buf, i);
    assert buf[..i] == text[..i] == before;
  }

  /** Any other text is left as it is. */
  lemma OtherTextsKept(buf: seq<char>)
    requires Classify(CString(buf)) !in {Battery, Signal} || ',' !in CString(buf)
    ensures AfterAnalysis(buf) == buf
  {
  }

  /** The texts that open the transmitter, stated without the order of the
      tests. A power-up text does so wherever it occurs, even inside a message
      body; the short acknowledgements must be the whole text. */
  lemma AckTexts(text: string)
    ensures SetsAck(Classify(text)) <==>
            || Contains(text, "Call Ready") || Contains(text, "SIMCOM")
            || text == "OK" || text == ">" || text == "ERROR"
            || (("+CMS ERROR:" <= text || "+CME ERROR:" <= text)
                && !Contains(text, "+CREG") && !Contains(text, "NORMAL POWER DOWN") && !Contains(text, "RDY")
                && !Contains(text, "+CPIN: READY") && !Contains(text, "+CFUN: 1") && !Contains(text, "+CUSD") && !Contains(text, "+CBC")
                && !Contains(text, "+CSQ") && !Contains(text, "NO CARRIER"))
  {
    if text == "OK" {
      assert Classify(text) == Ok;
    } else if text == ">" {
      assert Classify(text) == Prompt;
    } else if text == "ERROR" {
      ErrorText(text);
    } else {
      assert "+CMS ERROR:"[3] != "+CMT"[3] && "+CME ERROR:"[3] != "+CMT"[3];
    }
  }

  /** The texts that stop the response timer are exactly `OK` and `>`. */
  lemma StopTexts(text: string)
    ensures StopsTimer(Classify(text)) <==> text == "OK" || text == ">"
  {
    if text == "OK" {
      assert Classify(text) == Ok;
    } else if text == ">" {
      assert Classify(text) == Prompt;
    }
  }

  /** No power-up text and no notice in the text. */
  ghost predicate NotUnsolicited(text: string) {
    && !Contains(text, "Call Ready") && !Contains(text, "SIMCOM")
    && !Contains(text, "+CREG") && !Contains(text, "NORMAL POWER DOWN") && !Contains(text, "RDY")
    && !Contains(text, "+CPIN: READY") && !Contains(text, "+CFUN: 1")
  }

  /** The texts whose content is analysed, and as what: a power-up text or a notice
      hides a report, and a balance hides a battery report, which hides a signal. */
  lemma ReportTexts(text: string)
    ensures Classify(text) == Balance <==> NotUnsolicited(text) && Contains(text, "+CUSD")
    ensures Classify(text) == Battery
            <==> NotUnsolicited(text) && !Contains(text, "+CUSD") && Contains(text, "+CBC")
    ensures Classify(text) == Signal
            <==> NotUnsolicited(text) && !Contains(text, "+CUSD") && !Contains(text, "+CBC") && Contains(text, "+CSQ")
  {
  }

  /** The texts taken for a message or its notification. */
  lemma MessageTexts(text: string)
    ensures Classify(text) == NewMessage
            <==> "+CMT" <= text && NotUnsolicited(text) && !Contains(text, "+CUSD") && !Contains(text, "+CBC")
                 && !Contains(text, "+CSQ") && !Contains(text, "NO CARRIER")
  {
  }

  /** A pattern with a letter the text lacks does not occur in the text. */
  lemma MissingLetter(s: string, pattern: string, c: char)
    requires c in pattern && c !in s
    ensures !Contains(s, pattern)
  {
    forall i: nat | i + |pattern| <= |s|
      ensures !OccursAt(s, pattern, i)
    {
      assert c !in s[i..i + |pattern|];
    }
  }

  lemma ErrorText(t: string)
    requires t == "ERROR"
    ensures Classify(t) == Error
  {
    MissingLetter(t, "+CREG", '+');
    MissingLetter(t, "RDY", 'D');
    MissingLetter(t, "+CUSD", '+');
    MissingLetter(t, "+CBC", '+');
    MissingLetter(t, "+CSQ", '+');
    assert "+CMT"[0] != t[0];
  }
}
