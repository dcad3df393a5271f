/** Reading and printing decimal integers. */
module Decimal {
  import opened Prelude

  predicate IsDigit(c: char) {
    '0' <= c <= '9'
  }

  function DigitValue(c: char): (d: nat)
    requires IsDigit(c)
    ensures d < 10
  {
    c as int - '0' as int
  }

  function DigitChar(d: nat): (c: char)
    requires d < 10
    ensures IsDigit(c) && DigitValue(c) == d
  {
    ('0' as int + d) as char
  }

  /** The number spelled by the digits of s; every other character is skipped. */
  function Value(s: string): nat {
    if s == "" then 0
    else
      var front, c := Value(s[..|s| - 1]), s[|s| - 1];
      if IsDigit(c) then front * 10 + DigitValue(c) else front
  }

  /** The loop that reads an API ChangesCount such as "42" or "1000+". */
  method ReadChanges(s: string) returns (changes: nat)
    ensures changes == Value(s)
  {
    changes := 0;
    for i := 0 to |s|
      invariant changes == Value(s[..i])
    {
      assert s[..i + 1][..i] == s[..i];
      if '0' <= s[i] <= '9' {
        changes := changes * 10 + DigitValue(s[i]);
      }
    }
    assert s[..|s|] == s;
  }

  /** The digits of s, in order. */
  function Digits(s: string): string {
    if s == "" then ""
    else Digits(s[..|s| - 1]) + if IsDigit(s[|s| - 1]) then [s[|s| - 1]] else ""
  }

  /** The usual decimal spelling of n. */
  function Print(n: nat): (s: string)
    ensures s != ""
  {
    if n < 10 then [DigitChar(n)] else Print(n / 10) + [DigitChar(n % 10)]
  }

  function StripZeros(s: string): string {
    if s != "" && s[0] == '0' then StripZeros(s[1..]) else s
  }

  lemma {:induction false} PrintsDigits(n: nat)
    ensures forall i :: 0 <= i < |Print(n)| ==> IsDigit(Print(n)[i])
    ensures Value(Print(n)) == n
  {
    if n < 10 {
      var s := Print(n);
      assert s[..|s| - 1] == "";
    } else {
      PrintsDigits(n / 10);
      var s := Print(n);
      assert s[..|s| - 1] == Print(n / 10);
    }
  }

  /** Reading inverts printing, with or without the "+" GitLab adds to a capped count. */
  lemma ReadInvertsPrint(n: nat)
    ensures Value(Print(n)) == n
    ensures Value(Print(n) + "+") == n
  {
    PrintsDigits(n);
    var s := Print(n) + "+";
    assert s[..|s| - 1] == Print(n);
  }

  lemma {:induction false} StripSnoc(s: string, c: char)
    ensures StripZeros(s + [c]) ==
            if StripZeros(s) != "" then StripZeros(s) + [c]
            else if c == '0' then "" else [c]
  {
    if s == "" {
    } else {
      assert (s + [c])[1..] == s[1..] + [c];
      StripSnoc(s[1..], c);
    }
  }

  /**
   * What reading keeps of an arbitrary string is exactly its digit subsequence without leading
   * zeros: that subsequence is "" for 0 and the decimal spelling of the result otherwise.
   */
  lemma {:induction false} ReadIsDigitSubsequence(s: string)
    ensures StripZeros(Digits(s)) == if Value(s) == 0 then "" else Print(Value(s))
  {
    if s == "" {
    } else {
      var front, c := s[..|s| - 1], s[|s| - 1];
      ReadIsDigitSubsequence(front);
      if IsDigit(c) {
        StripSnoc(Digits(front), c);
        assert DigitChar(DigitValue(c)) == c;
      } else {
        assert Digits(s) == Digits(front);
      }
    }
  }

  predicate AllDigits(s: string) {
    forall i :: 0 <= i < |s| ==> IsDigit(s[i])
  }

  /** strconv.Atoi and strconv.ParseInt(s, 10, 64): optional sign, digits only, int64 range. */
  function Atoi(s: string): (r: Option<int>)
    ensures r.Some? ==> MIN_INT64 <= r.value <= MAX_INT64
  {
    var signed := s != "" && (s[0] == '+' || s[0] == '-');
    var body := if signed then s[1..] else s;
    if body == "" || !AllDigits(body) then None
    else
      var n: int := if signed && s[0] == '-' then -(Value(body) as int) else Value(body);
      if MIN_INT64 <= n <= MAX_INT64 then Some(n) else None
  }

  /** One leading sign. */
  predicate Signed(s: string) {
    s != "" && (s[0] == '+' || s[0] == '-')
  }

  /** What can be read: at least one digit, nothing but digits after an optional sign, and no overflow. */
  lemma AtoiAccepts(s: string)
    ensures Atoi(s).Some? <==>
              && (exists i :: 0 <= i < |s| && IsDigit(s[i]))
              && (forall i :: 0 <= i < |s| && !IsDigit(s[i]) ==> i == 0 && Signed(s))
              && Value(s) <= (if Signed(s) && s[0] == '-' then MAX_INT64 + 1 else MAX_INT64)
    ensures Atoi(s).Some? ==> Atoi(s).value == if s[0] == '-' then -(Value(s) as int) else Value(s)
  {
    if Signed(s) {
      var body := s[1..];
      SkipSign(s[0], body);
      assert s == [s[0]] + body;
      if body != "" && AllDigits(body) {
        assert IsDigit(s[1]);
      }
      if exists i :: 0 <= i < |s| && IsDigit(s[i]) {
        assert body != "";
      }
      assert forall i :: 0 <= i < |body| ==> body[i] == s[i + 1];
      assert AllDigits(body) <==> forall i :: 0 <= i < |s| && !IsDigit(s[i]) ==> i == 0;
    } else if s != "" && AllDigits(s) {
      assert IsDigit(s[0]);
    }
  }

  lemma {:induction false} SkipSign(c: char, body: string)
    requires !IsDigit(c)
    ensures Value([c] + body) == Value(body)
  {
    if body == "" {
      assert [c] + body == [c] && [c][..0] == "";
    } else {
      assert ([c] + body)[..|body|] == [c] + body[..|body| - 1];
      SkipSign(c, body[..|body| - 1]);
    }
  }

  /** Signed spellings are read back too, and a minus sign reaches one further down. */
  lemma AtoiInvertsSigned(n: nat)
    ensures Atoi("+" + Print(n)) == if n <= MAX_INT64 then Some(n) else None
    ensures Atoi("-" + Print(n)) == if n <= MAX_INT64 + 1 then Some(-(n as int)) else None
  {
    PrintsDigits(n);
    assert ("+" + Print(n))[1..] == Print(n) && ("-" + Print(n))[1..] == Print(n);
  }

  /** A printed number is read back exactly when it fits an int64. */
  lemma AtoiInvertsPrint(n: nat)
    ensures Atoi(Print(n)) == if n <= MAX_INT64 then Some(n) else None
  {
    PrintsDigits(n);
    assert IsDigit(Print(n)[0]);
  }
}
