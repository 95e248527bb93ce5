/** The phone pattern `\+?[0-9]{7,15}` that `validate_phone` matches the whole
    submitted string against. `FullMatch` runs the pattern as an automaton,
    one character at a time; `InLanguage` states directly which strings the
    pattern describes; `FullMatchIff` proves the two agree on every string. */
module PhoneNumber {

  const MinDigits := 7
  const MaxDigits := 15

  /** The class `[0-9]`: the ASCII digits only. */
  predicate IsDigit(c: char) {
    '0' <= c <= '9'
  }

  predicate AllDigits(s: string) {
    forall i :: 0 <= i < |s| ==> IsDigit(s[i])
  }

  /** The two alternatives of the optional `+`: without it, 7 to 15 digits
      make up the whole string; with it, the `+` comes first and 7 to 15
      digits make up the rest. */
  predicate InLanguage(s: string) {
    || (AllDigits(s) && MinDigits <= |s| <= MaxDigits)
    || (|s| > 0 && s[0] == '+' && AllDigits(s[1..]) && MinDigits <= |s| - 1 <= MaxDigits)
  }

  /** Where the matcher stands after reading a prefix: nothing read yet,
      only the `+` read, some digits read, or no match possible any more. */
  datatype State = Start | Signed | Digits(count: nat) | Dead

  function Step(st: State, c: char): State {
    match st
    case Start => if c == '+' then Signed else if IsDigit(c) then Digits(1) else Dead
    case Signed => if IsDigit(c) then Digits(1) else Dead
    case Digits(n) => if IsDigit(c) && n < MaxDigits then Digits(n + 1) else Dead
    case Dead => Dead
  }

  function Run(st: State, s: string): State
    decreases |s|
  {
    if s == [] then st else Run(Step(st, s[0]), s[1..])
  }

  /** `re.fullmatch(r'^\+?[0-9]{7,15}$', s)` succeeds: the match must use up
      the whole string, so nothing (not even a newline) may follow the digits. */
  predicate FullMatch(s: string) {
    var st := Run(Start, s);
    st.Digits? && st.count >= MinDigits
  }

  lemma {:induction false} DeadStaysDead(s: string)
    ensures Run(Dead, s) == Dead
    decreases |s|
  {
    if s != [] {
      DeadStaysDead(s[1..]);
    }
  }

  /** Reading `t` after `n` digits keeps counting exactly when `t` is all
      digits and the count stays within 15. */
  lemma {:induction false} RunDigits(n: nat, t: string)
    requires 1 <= n <= MaxDigits
    ensures Run(Digits(n), t) == if AllDigits(t) && n + |t| <= MaxDigits then Digits(n + |t|) else Dead
    decreases |t|
  {
    if t != [] {
      if IsDigit(t[0]) && n < MaxDigits {
        RunDigits(n + 1, t[1..]);
        if !AllDigits(t[1..]) {
          var i :| 0 <= i < |t[1..]| && !IsDigit(t[1..][i]);
          assert !IsDigit(t[i + 1]);
        }
      } else {
        DeadStaysDead(t[1..]);
        if !IsDigit(t[0]) {
          assert !AllDigits(t);
        }
      }
    }
  }

  /** The matcher accepts exactly the strings of the pattern's language. */
  lemma FullMatchIff(s: string)
    ensures FullMatch(s) <==> InLanguage(s)
  {
    if s == [] {
    } else if s[0] == '+' {
      var t := s[1..];
      if t == [] {
        assert Run(Start, s) == Signed;
        assert !AllDigits(s) by { assert !IsDigit(s[0]); }
      } else if IsDigit(t[0]) {
        RunDigits(1, t[1..]);
        assert Run(Start, s) == Run(Digits(1), t[1..]);
        assert AllDigits(t) <==> AllDigits(t[1..]) by {
          if AllDigits(t[1..]) {
            forall i | 0 <= i < |t| ensures IsDigit(t[i]) {
              if i > 0 { assert t[i] == t[1..][i - 1]; }
            }
          }
        }
        assert !AllDigits(s) by { assert !IsDigit(s[0]); }
      } else {
        DeadStaysDead(t[1..]);
        assert Run(Start, s) == Dead;
        assert !AllDigits(t) by { assert !IsDigit(t[0]); }
        assert !AllDigits(s) by { assert !IsDigit(s[0]); }
      }
    } else if IsDigit(s[0]) {
      RunDigits(1, s[1..]);
      assert AllDigits(s) <==> AllDigits(s[1..]) by {
        if AllDigits(s[1..]) {
          forall i | 0 <= i < |s| ensures IsDigit(s[i]) {
            if i > 0 { assert s[i] == s[1..][i - 1]; }
          }
        }
      }
    } else {
      DeadStaysDead(s[1..]);
      assert !AllDigits(s) by { assert !IsDigit(s[0]); }
    }
  }

  /** In a matching number every character is a digit, except that the
      first may be `+`: a `+` anywhere else, a second `+`, a space, a dash or
      any other character makes the match fail. */
  lemma MatchedCharacters(s: string)
    requires FullMatch(s)
    ensures forall i :: 0 <= i < |s| ==> IsDigit(s[i]) || (i == 0 && s[i] == '+')
  {
    FullMatchIff(s);
    if !AllDigits(s) {
      forall i | 0 < i < |s| ensures IsDigit(s[i]) {
        assert s[i] == s[1..][i - 1];
      }
    }
  }

  /** The `+` does not count towards the digits: a matching number has 7 to
      15 digits, and one character more when it starts with `+`. */
  lemma MatchedLength(s: string)
    requires FullMatch(s)
    ensures |s| > 0
    ensures s[0] == '+' ==> MinDigits + 1 <= |s| <= MaxDigits + 1
    ensures s[0] != '+' ==> MinDigits <= |s| <= MaxDigits
  {
    FullMatchIff(s);
    if s[0] == '+' {
      assert !IsDigit(s[0]);
    }
  }

  /** For a string of digits, the count alone decides: it matches, with or
      without a leading `+`, exactly when it has 7 to 15 digits. */
  lemma DigitCountDecides(d: string)
    requires AllDigits(d)
    ensures FullMatch(d) <==> MinDigits <= |d| <= MaxDigits
    ensures FullMatch("+" + d) <==> MinDigits <= |d| <= MaxDigits
  {
    FullMatchIff(d);
    FullMatchIff("+" + d);
    assert ("+" + d)[1..] == d;
    assert !IsDigit(("+" + d)[0]);
  }

  /** A full international number with its `+` is accepted. */
  lemma InternationalExample()
    ensures FullMatch("+14155550123")
  {
    var d := "14155550123";
    DigitCountDecides(d);
    assert "+" + d == "+14155550123";
  }

  /** Seven digits, the fewest allowed, with or without `+`. */
  lemma ShortestExamples()
    ensures FullMatch("+1234567") && FullMatch("1234567")
  {
    var d := "1234567";
    DigitCountDecides(d);
    assert "+" + d == "+1234567";
  }

  /** Too few or too many digits: 6 digits and 16 digits fail, with or without `+`. */
  lemma DigitCountExamples()
    ensures !FullMatch("123456") && !FullMatch("+123456")
    ensures !FullMatch("1234567890123456") && !FullMatch("+1234567890123456")
    ensures !FullMatch("")
  {
    FullMatchIff("123456");
    FullMatchIff("+123456");
    FullMatchIff("1234567890123456");
    FullMatchIff("+1234567890123456");
    FullMatchIff("");
  }

  /** Characters outside the pattern fail the match wherever they stand. */
  lemma ForeignCharacterExamples()
    ensures !FullMatch("abc")
    ensures !FullMatch("1234567\n")
    ensures !FullMatch("++1234567")
    ensures !FullMatch("123+4567") && !FullMatch("123 4567") && !FullMatch("123-4567")
  {
    FullMatchIff("abc");
    assert !IsDigit("abc"[0]);
    FullMatchIff("1234567\n");
    assert !IsDigit("1234567\n"[7]);
    FullMatchIff("++1234567");
    assert !IsDigit("++1234567"[1]);
    FullMatchIff("123+4567");
    assert !IsDigit("123+4567"[3]);
    FullMatchIff("123 4567");
    assert !IsDigit("123 4567"[3]);
    FullMatchIff("123-4567");
    assert !IsDigit("123-4567"[3]);
  }
}
