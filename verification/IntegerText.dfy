/**
 osapiItoa and its in-place reverse: the decimal text of an int in a caller's
 buffer. `Text` is the text, `Value` reads it back.
 */
module IntegerText {

  /** A C int that can be negated. */
  type Int32 = v: int | -0x8000_0000 < v < 0x8000_0000

  function DigitChar(d: nat): char
    requires d < 10
  {
    '0' + d as char
  }

  predicate IsDigit(c: char) {
    '0' <= c <= '9'
  }

  /** The digits of n, the most significant first; none for zero. */
  function Digits(n: nat): (r: string)
    ensures AllDigits(r)
    ensures n > 0 ==> |r| > 0 && r[0] != '0'
  {
    if n == 0 then [] else Digits(n / 10) + [DigitChar(n % 10)]
  }

  function Text(v: int): (r: string)
    ensures |r| > 0
  {
    if v < 0 then "-" + Digits(-v) else if v == 0 then "0" else Digits(v)
  }

  function DigitOf(c: char): (d: nat)
    requires IsDigit(c)
    ensures d < 10 && DigitChar(d) == c
  {
    c as int - '0' as int
  }

  predicate AllDigits(s: string) {
    forall i :: 0 <= i < |s| ==> IsDigit(s[i])
  }

  function DigitsValue(s: string): nat
    requires AllDigits(s)
  {
    if s == [] then 0 else 10 * DigitsValue(s[..|s| - 1]) + DigitOf(s[|s| - 1])
  }

  /** A decimal text: an optional sign and at least one digit. */
  predicate IsNumber(s: string) {
    var digits := if s != [] && s[0] == '-' then s[1..] else s;
    digits != [] && AllDigits(digits)
  }

  function Value(s: string): int
    requires IsNumber(s)
  {
    if s[0] == '-' then -(DigitsValue(s[1..]) as int) else DigitsValue(s)
  }

  lemma {:induction false} DigitsReadBack(n: nat)
    ensures DigitsValue(Digits(n)) == n
  {
    if n > 0 {
      DigitsReadBack(n / 10);
      var s := Digits(n);
      assert s[..|s| - 1] == Digits(n / 10);
    }
  }

  lemma ZeroReadsBack(s: string)
    requires s == "0"
    ensures AllDigits(s) && DigitsValue(s) == 0
  {
    assert s[..|s| - 1] == [];
    assert DigitsValue(s[..|s| - 1]) == 0;
  }

  /** Print/parse inverse: the text is a number that reads back as the value. */
  lemma TextReadsBack(v: int)
    ensures IsNumber(Text(v)) && Value(Text(v)) == v
  {
    if v < 0 {
      DigitsReadBack(-v);
      assert Text(v)[1..] == Digits(-v);
    } else if v > 0 {
      DigitsReadBack(v);
      assert IsDigit(Text(v)[0]);
    } else {
      ZeroReadsBack("0");
    }
  }

  /** No superfluous leading zero, and no terminator inside the text. */
  lemma TextIsCanonical(v: int)
    ensures v != 0 ==> Text(v)[if v < 0 then 1 else 0] != '0'
    ensures v == 0 ==> Text(v) == "0"
    ensures '\0' !in Text(v)
  {
    TextReadsBack(v);
    forall i | 0 <= i < |Text(v)| ensures Text(v)[i] != '\0' {
      if v < 0 && i > 0 {
        assert IsDigit(Digits(-v)[i - 1]);
      }
    }
  }

  function Reversed(s: string): (r: string)
    ensures |r| == |s| && forall i :: 0 <= i < |s| ==> r[i] == s[|s| - 1 - i]
  {
    seq(|s|, i requires 0 <= i < |s| => s[|s| - 1 - i])
  }

  /** The text with its outer i characters on each side exchanged. */
  function Exchanged(s: string, i: nat): (r: string)
    ensures |r| == |s|
  {
    seq(|s|, j requires 0 <= j < |s| => if j < i || j + i >= |s| then s[|s| - 1 - j] else s[j])
  }

  lemma ExchangeStep(s: string, i: nat, n: nat)
    requires i < n && n == |s| - 1 - i
    ensures Exchanged(s, i)[n := s[i]][i := s[n]] == Exchanged(s, i + 1)
    ensures Exchanged(s, i)[i] == s[i] && Exchanged(s, i)[n] == s[n]
  {
  }

  lemma ExchangedAll(s: string, i: nat)
    requires |s| <= 2 * i + 1
    ensures Exchanged(s, i) == Reversed(s)
  {
  }

  /** strlen from a position. */
  method StrLen(a: array<char>, start: nat) returns (n: nat)
    requires start <= a.Length && '\0' in a[start..]
    ensures start + n < a.Length && a[start + n] == '\0' && '\0' !in a[start..start + n]
  {
    n := 0;
    ghost var k :| 0 <= k < a.Length - start && a[start..][k] == '\0';
    while a[start + n] != '\0'
      invariant n <= k && start + k < a.Length && a[start + k] == '\0'
      invariant '\0' !in a[start..start + n]
      decreases k - n
    {
      assert a[start..start + n + 1] == a[start..start + n] + [a[start + n]];
      n := n + 1;
    }
  }

  /** The three assignments of the loop body. */
  method Exchange(a: array<char>, n: nat, i: nat)
    requires i < n < a.Length
    modifies a
    ensures a[..] == old(a[..])[n := old(a[..])[i]][i := old(a[..])[n]]
  {
    var c := a[n];
    a[n] := a[i];
    a[i] := c;
  }

  lemma InTheMiddle(head: string, s: string, rest: string, n: nat, i: nat)
    requires i < n < |s|
    ensures var whole, at := head + s + rest, |head|;
            whole[at + n := whole[at + i]][at + i := whole[at + n]] == head + s[n := s[i]][i := s[n]] + rest
  {
  }

  /** reverse, applied at a position of the buffer; `len` is the length of the
      text found there. */
  method Reverse(a: array<char>, start: nat) returns (ghost len: nat)
    requires start <= a.Length && '\0' in a[start..]
    modifies a
    ensures start + len < a.Length && old(a[start + len]) == '\0' && '\0' !in old(a[start..start + len])
    ensures a[..] == old(a[..start]) + Reversed(old(a[start..start + len])) + old(a[start + len..])
  {
    var strlen := StrLen(a, start);
    len := strlen;
    ghost var head, text, rest := a[..start], a[start..start + len], a[start + len..];
    assert a[..] == head + text + rest;
    assert Exchanged(text, 0) == text;
    var n: int, i: nat := strlen as int - 1, 0;
    while n > i
      invariant n == len - 1 - i && i <= n + 1
      invariant a[..] == head + Exchanged(text, i) + rest
      decreases n - i
    {
      ExchangeStep(text, i, n);
      Exchange(a, start + n, start + i);
      InTheMiddle(head, Exchanged(text, i), rest, n, i);
      i := i + 1;
      n := n - 1;
    }
    ExchangedAll(text, i);
  }

  /** The digit loop: the digits of val behind `start`, the least significant first. */
  method WriteDigits(val: nat, rez: array<char>, rezLen: nat, start: nat) returns (ok: bool, i: nat)
    requires val > 0 && start <= rezLen <= rez.Length
    modifies rez
    ensures ok <==> start + |Digits(val)| <= rezLen
    ensures ok ==> i == start + |Digits(val)| && Reversed(rez[start..i]) == Digits(val)
    ensures forall k :: 0 <= k < start || rezLen <= k < rez.Length ==> rez[k] == old(rez[k])
  {
    var v := val;
    i := start;
    while v != 0
      invariant start <= i <= rezLen
      invariant Digits(val) == Digits(v) + Reversed(rez[start..i])
      invariant forall k :: 0 <= k < start || rezLen <= k < rez.Length ==> rez[k] == old(rez[k])
      decreases v
    {
      var n := v % 10;
      if i >= rezLen {
        return false, i;
      }
      ghost var before := rez[start..i];
      rez[i] := n as char + '0';
      assert rez[start..i + 1] == before + [DigitChar(n)];
      assert Reversed(before + [DigitChar(n)]) == [DigitChar(n)] + Reversed(before);
      i := i + 1;
      v := v / 10;
    }
    return true, i;
  }

  /** osapiItoa: it succeeds exactly when the text and its terminator fit. On
      success the buffer starts with the text and a NUL; cells from rezLen on are
      never written. */
  method Itoa(val: Int32, rez: array<char>, rezLen: nat) returns (ok: bool)
    requires rezLen <= rez.Length
    modifies rez
    ensures ok <==> |Text(val)| + 1 <= rezLen
    ensures ok ==> rez[..|Text(val)|] == Text(val) && rez[|Text(val)|] == '\0'
    ensures forall k :: rezLen <= k < rez.Length ==> rez[k] == old(rez[k])
  {
    if rezLen < 1 {
      return false;
    }
    var i: nat, isNeg: nat, v: int := 0, 0, val;
    if v < 0 {
      rez[0] := '-';
      i, isNeg, v := 1, 1, -v;
    }
    if v == 0 {
      rez[i] := '0';
      i := i + 1;
      assert Reversed(rez[0..1]) == "0";
    } else {
      ok, i := WriteDigits(v, rez, rezLen, i);
      if !ok {
        return;
      }
    }
    if i >= rezLen {
      return false;
    }
    ghost var digits := rez[isNeg..i];
    rez[i] := '\0';
    assert rez[isNeg..i] == digits;
    FinishText(rez, isNeg, i, val);
    return true;
  }

  /** The end of the conversion: reverse the digits behind the sign. */
  method FinishText(rez: array<char>, isNeg: nat, i: nat, ghost val: Int32)
    requires isNeg <= i < rez.Length && rez[i] == '\0'
    requires isNeg == if val < 0 then 1 else 0
    requires isNeg == 1 ==> rez[0] == '-'
    requires Text(val) == (if isNeg == 1 then "-" else "") + Reversed(rez[isNeg..i])
    modifies rez
    ensures i == |Text(val)| && rez[..i] == Text(val) && rez[i] == '\0'
    ensures forall k :: i < k < rez.Length ==> rez[k] == old(rez[k])
  {
    ghost var was, digits := rez[..], rez[isNeg..i];
    DigitsHoldNoNul(val, if isNeg == 1 then "-" else "", digits);
    assert rez[isNeg..][i - isNeg] == '\0';
    var len := Reverse(rez, isNeg);
    assert len == i - isNeg by {
      EarlierNul(was, isNeg, i, isNeg + len);
    }
    assert rez[..i] == was[..isNeg] + Reversed(digits);
  }

  lemma DigitsHoldNoNul(val: Int32, sign: string, digits: string)
    requires Text(val) == sign + Reversed(digits)
    ensures '\0' !in digits
  {
    TextIsCanonical(val);
    forall k | 0 <= k < |digits| ensures digits[k] != '\0' {
      assert Reversed(digits)[|digits| - 1 - k] == digits[k];
      assert Text(val)[|sign| + (|digits| - 1 - k)] == digits[k];
    }
  }

  lemma EarlierNul(s: string, start: nat, i: nat, j: nat)
    requires start <= i < |s| && s[i] == '\0'
    requires start <= j < |s| && s[j] == '\0'
    ensures i < j ==> '\0' in s[start..j]
    ensures j < i ==> '\0' in s[start..i]
  {
    if i < j {
      assert s[start..j][i - start] == '\0';
    } else if j < i {
      assert s[start..i][j - start] == '\0';
    }
  }
}
