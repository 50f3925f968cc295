/**
 * Decimal integer text as Python 2's `int()` reads a byte string: optional
 * ASCII whitespace, an optional sign that whitespace may follow, one or more
 * decimal digits, optional trailing whitespace. Anything else is refused.
 */
module IntText {
  import opened Results

  /** The characters C's `isspace` accepts in the C locale. */
  predicate IsSpace(c: char)
  {
    c == ' ' || c == '\t' || c == '\n' || c == '\r' || c == '\U{000B}' || c == '\U{000C}'
  }

  predicate IsDigit(c: char)
  {
    '0' <= c <= '9'
  }

  predicate AllDigits(s: string)
  {
    forall i :: 0 <= i < |s| ==> IsDigit(s[i])
  }

  /** The value of a run of decimal digits, most significant first. */
  function DigitsValue(s: string): nat
    requires AllDigits(s)
  {
    if s == [] then 0 else DigitsValue(s[..|s| - 1]) * 10 + (s[|s| - 1] as int - '0' as int)
  }

  /** `s` without its leading whitespace. */
  function SkipSpace(s: string): string
  {
    if s != [] && IsSpace(s[0]) then SkipSpace(s[1..]) else s
  }

  /** `s` without its trailing whitespace. */
  function TrimEnd(s: string): string
  {
    if s != [] && IsSpace(s[|s| - 1]) then TrimEnd(s[..|s| - 1]) else s
  }

  /** Digits possibly followed by whitespace, as the digit scan reads them. */
  function ParseDigits(s: string): Option<nat>
  {
    var digits := TrimEnd(s);
    if digits != [] && AllDigits(digits) then Some(DigitsValue(digits)) else None
  }

  /** `int(text)`: the integer `text` spells, or None where Python raises ValueError. */
  function ParseInt(text: string): Option<int>
  {
    var a := SkipSpace(text);
    if a != [] && a[0] == '-' then
      match ParseDigits(SkipSpace(a[1..]))
      case Some(v) => Some(0 - v)
      case None => None
    else if a != [] && a[0] == '+' then
      match ParseDigits(SkipSpace(a[1..]))
      case Some(v) => Some(v)
      case None => None
    else
      match ParseDigits(a)
      case Some(v) => Some(v)
      case None => None
  }

  /** The shortest decimal digits of `n`, most significant first. */
  function ShowNat(n: nat): (s: string)
    ensures s != [] && AllDigits(s)
  {
    var last := ['0' + (n % 10) as char];
    if n < 10 then last else ShowNat(n / 10) + last
  }

  /** `str(n)`: the decimal text of an integer, with a '-' when negative. */
  function ShowInt(n: int): string
  {
    if n < 0 then "-" + ShowNat(-n) else ShowNat(n)
  }

  lemma {:induction false} ShowNatValue(n: nat)
    ensures DigitsValue(ShowNat(n)) == n
  {
    var s := ShowNat(n);
    if n >= 10 {
      ShowNatValue(n / 10);
      assert s[..|s| - 1] == ShowNat(n / 10);
    }
  }

  /** Digits and a sign, with no whitespace anywhere, are left as they are by both trims. */
  lemma NoSpaceInDigits(s: string)
    requires s != [] && AllDigits(s)
    ensures SkipSpace(s) == s && TrimEnd(s) == s
  {
    assert !IsSpace(s[0]) && !IsSpace(s[|s| - 1]);
  }

  /** `int(str(n)) == n` for every integer `n`. */
  lemma ParseShow(n: int)
    ensures ParseInt(ShowInt(n)) == Some(n)
  {
    var m := if n < 0 then -n else n;
    var digits := ShowNat(m);
    ShowNatValue(m);
    NoSpaceInDigits(digits);
    assert ParseDigits(digits) == Some(m);
    if n < 0 {
      var t := "-" + digits;
      assert !IsSpace(t[0]);
      assert SkipSpace(t) == t;
      assert t[1..] == digits;
    } else {
      assert IsDigit(digits[0]);
    }
  }

  /** Whitespace around a decimal text does not change what `int()` reads. */
  lemma ParseAroundSpace(pre: string, s: string, post: string)
    requires forall i :: 0 <= i < |pre| ==> IsSpace(pre[i])
    requires forall i :: 0 <= i < |post| ==> IsSpace(post[i])
    requires s != [] && AllDigits(s)
    ensures ParseInt(pre + s + post) == Some(DigitsValue(s))
  {
    assert pre + s + post == pre + (s + post);
    assert (s + post)[0] == s[0] && IsDigit(s[0]);
    SkipPrefix(pre, s + post);
    TrimSuffix(s, post);
    assert ParseDigits(s + post) == Some(DigitsValue(s));
  }

  lemma {:induction false} SkipPrefix(pre: string, rest: string)
    requires forall i :: 0 <= i < |pre| ==> IsSpace(pre[i])
    requires rest != [] && !IsSpace(rest[0])
    ensures SkipSpace(pre + rest) == rest
  {
    if pre != [] {
      assert (pre + rest)[1..] == pre[1..] + rest;
      SkipPrefix(pre[1..], rest);
    }
  }

  lemma {:induction false} TrimSuffix(s: string, post: string)
    requires forall i :: 0 <= i < |post| ==> IsSpace(post[i])
    requires s != [] && !IsSpace(s[|s| - 1])
    ensures TrimEnd(s + post) == s
  {
    if post != [] {
      assert (s + post)[..|s + post| - 1] == s + post[..|post| - 1];
      TrimSuffix(s, post[..|post| - 1]);
    }
  }

  /** `SkipSpace` keeps a suffix and drops only whitespace. */
  lemma {:induction false} SkippedAreSpaces(s: string)
    ensures |SkipSpace(s)| <= |s| && SkipSpace(s) == s[|s| - |SkipSpace(s)|..]
    ensures forall i :: 0 <= i < |s| - |SkipSpace(s)| ==> IsSpace(s[i])
  {
    if s != [] && IsSpace(s[0]) {
      SkippedAreSpaces(s[1..]);
    }
  }

  /** `TrimEnd` keeps a prefix and drops only whitespace. */
  lemma {:induction false} TrimmedAreSpaces(s: string)
    ensures |TrimEnd(s)| <= |s| && TrimEnd(s) == s[..|TrimEnd(s)|]
    ensures forall i :: |TrimEnd(s)| <= i < |s| ==> IsSpace(s[i])
  {
    if s != [] && IsSpace(s[|s| - 1]) {
      TrimmedAreSpaces(s[..|s| - 1]);
    }
  }

  /** A character that is neither whitespace nor a digit stops the digit scan. */
  lemma DigitsRefuse(b: string, j: nat)
    requires j < |b| && !IsSpace(b[j]) && !IsDigit(b[j])
    ensures ParseDigits(b) == None
  {
    TrimmedAreSpaces(b);
    var digits := TrimEnd(b);
    if j < |digits| {
      assert digits[j] == b[j];
    }
  }

  /** A text with a character that is neither whitespace, a sign nor a digit is refused. */
  lemma ParseRefuses(text: string, k: nat)
    requires k < |text| && !IsSpace(text[k]) && !IsDigit(text[k]) && text[k] != '-' && text[k] != '+'
    ensures ParseInt(text) == None
  {
    var a := SkipSpace(text);
    SkippedAreSpaces(text);
    var start := |text| - |a|;
    assert k >= start;
    assert a[k - start] == text[k];
    if a[0] == '-' || a[0] == '+' {
      var b := SkipSpace(a[1..]);
      SkippedAreSpaces(a[1..]);
      assert k - start >= 1;
      assert a[1..][k - start - 1] == text[k];
      var off := |a[1..]| - |b|;
      assert k - start - 1 >= off;
      assert b[k - start - 1 - off] == text[k];
      DigitsRefuse(b, k - start - 1 - off);
    } else {
      DigitsRefuse(a, k - start);
    }
  }
}
