/** Trimming and decimal numbers, as Rust's `str` has them, on ASCII text. */
module Text {
  import opened Sequences
  import opened LineFraming

  predicate IsSpace(c: char) {
    c == ' ' || 9 as char <= c <= 13 as char
  }

  /** Space, tab, line feed, vertical tab, form feed and carriage return. */
  lemma SpacesAre(c: char)
    ensures IsSpace(c) <==> c in [' ', '\t', '\n', 0x0B as char, 0x0C as char, '\r']
  {
  }

  function TrimStart(s: string): string {
    if s != [] && IsSpace(s[0]) then TrimStart(s[1..]) else s
  }

  function TrimEnd(s: string): string {
    if s != [] && IsSpace(s[|s| - 1]) then TrimEnd(s[..|s| - 1]) else s
  }

  function Trim(s: string): string {
    TrimEnd(TrimStart(s))
  }

  /** Text that trimming leaves alone. */
  predicate Trimmed(s: string) {
    s != [] ==> !IsSpace(s[0]) && !IsSpace(s[|s| - 1])
  }

  lemma {:induction false} TrimStartLine(s: string)
    ensures TrimStart(s + [NEWLINE]) == if TrimStart(s) == [] then [] else TrimStart(s) + [NEWLINE]
  {
    if s == [] {
      assert s + [NEWLINE] == [NEWLINE] && [NEWLINE][1..] == [];
    } else if IsSpace(s[0]) {
      assert (s + [NEWLINE])[1..] == s[1..] + [NEWLINE];
      TrimStartLine(s[1..]);
    } else {
      assert (s + [NEWLINE])[0] == s[0];
    }
  }

  /** Trimming takes the newline of a line with it. */
  lemma TrimLine(s: string)
    ensures Trim(s + [NEWLINE]) == Trim(s)
  {
    TrimStartLine(s);
    var t := TrimStart(s);
    if t != [] {
      assert (t + [NEWLINE])[..|t|] == t;
    }
  }

  lemma {:induction false} TrimStartIsSuffix(s: string)
    ensures |TrimStart(s)| <= |s| && TrimStart(s) == s[|s| - |TrimStart(s)|..]
    ensures TrimStart(s) != [] ==> !IsSpace(TrimStart(s)[0])
  {
    if s != [] && IsSpace(s[0]) {
      TrimStartIsSuffix(s[1..]);
    }
  }

  lemma {:induction false} TrimEndIsPrefix(s: string)
    ensures TrimEnd(s) <= s
    ensures TrimEnd(s) != [] ==> !IsSpace(TrimEnd(s)[|TrimEnd(s)| - 1])
  {
    if s != [] && IsSpace(s[|s| - 1]) {
      TrimEndIsPrefix(s[..|s| - 1]);
    }
  }

  /** Trimmed text is trimmed, and nothing was added to it. */
  lemma TrimIsTrimmed(s: string)
    ensures Trimmed(Trim(s))
    ensures forall c :: c in Trim(s) ==> c in s
  {
    TrimStartIsSuffix(s);
    TrimEndIsPrefix(TrimStart(s));
  }

  predicate AllSpace(s: string) {
    forall i :: 0 <= i < |s| ==> IsSpace(s[i])
  }

  /** `t` is `s` without the white space around it. */
  ghost predicate IsTrimOf(t: string, s: string) {
    Trimmed(t) && exists a, b :: 0 <= a <= b <= |s| && t == s[a..b] && AllSpace(s[..a]) && AllSpace(s[b..])
  }

  lemma {:induction false} TrimStartDropsSpace(s: string)
    ensures |TrimStart(s)| <= |s| && AllSpace(s[..|s| - |TrimStart(s)|])
  {
    TrimStartIsSuffix(s);
    if s != [] && IsSpace(s[0]) {
      TrimStartDropsSpace(s[1..]);
      var n := |s| - |TrimStart(s)|;
      assert s[..n] == [s[0]] + s[1..][..n - 1];
    }
  }

  lemma {:induction false} TrimEndDropsSpace(s: string)
    ensures TrimEnd(s) <= s && AllSpace(s[|TrimEnd(s)|..])
  {
    TrimEndIsPrefix(s);
    if s != [] && IsSpace(s[|s| - 1]) {
      var front, t := s[..|s| - 1], TrimEnd(s);
      assert t == TrimEnd(front);
      hide TrimEnd;
      TrimEndDropsSpace(front);
      assert s[|t|..] == front[|t|..] + [s[|s| - 1]];
    }
  }

  /** Trimming takes away all the white space around a text, and nothing else. */
  lemma TrimIs(s: string)
    ensures IsTrimOf(Trim(s), s)
  {
    TrimStartDropsSpace(s);
    TrimStartIsSuffix(s);
    var t := TrimStart(s);
    TrimEndDropsSpace(t);
    TrimIsTrimmed(s);
    hide TrimStart, TrimEnd;
    var a := |s| - |t|;
    var b := a + |Trim(s)|;
    assert t == s[a..] && Trim(s) == s[a..b] && t[|Trim(s)|..] == s[b..];
  }

  lemma TrimsToItself(s: string)
    ensures Trim(s) == s <==> Trimmed(s)
  {
    TrimIsTrimmed(s);
  }

  const U64_LIMIT: nat := 0x1_0000_0000_0000_0000
  const U128_LIMIT: nat := 0x1_0000_0000_0000_0000_0000_0000_0000_0000

  predicate IsDigit(c: char) {
    '0' <= c <= '9'
  }

  predicate AllDigits(s: string) {
    forall i :: 0 <= i < |s| ==> IsDigit(s[i])
  }

  function DecimalValue(s: string): nat
    requires AllDigits(s)
  {
    if s == [] then 0
    else
      assert IsDigit(s[|s| - 1]);
      10 * DecimalValue(s[..|s| - 1]) + (s[|s| - 1] as int - '0' as int)
  }

  /** `str::parse` for an unsigned integer type: an optional plus sign, then digits only, at least
      one, with a value below the type's limit. */
  function ParseUnsigned(s: string, limit: nat): Option<nat> {
    var digits := if s != [] && s[0] == '+' then s[1..] else s;
    if digits != [] && AllDigits(digits) && DecimalValue(digits) < limit
    then Some(DecimalValue(digits))
    else None
  }

  /** Exactly the digits, with or without one plus sign, whose value is below the limit. */
  lemma ParsesIff(s: string, limit: nat, n: nat)
    ensures ParseUnsigned(s, limit) == Some(n) <==>
            n < limit && (Denotes(s, n) || (s != [] && s[0] == '+' && Denotes(s[1..], n)))
  {
    if s != [] && s[0] == '+' {
      assert !IsDigit(s[0]) && !Denotes(s, n);
    }
  }

  /** `s` is digits, at least one, of value `n`. */
  ghost predicate Denotes(s: string, n: nat) {
    s != [] && AllDigits(s) && DecimalValue(s) == n
  }

  /** Decimal notation, as `Display` writes an unsigned integer. */
  function Decimal(n: nat): (s: string)
    ensures s != [] && AllDigits(s)
  {
    (if n < 10 then [] else Decimal(n / 10)) + [(n % 10) as char + '0']
  }

  lemma {:induction false} DecimalValueOfDecimal(n: nat)
    ensures DecimalValue(Decimal(n)) == n
  {
    var s := Decimal(n);
    if n < 10 {
      assert s[..|s| - 1] == [];
    } else {
      DecimalValueOfDecimal(n / 10);
      assert s[..|s| - 1] == Decimal(n / 10);
    }
  }

  lemma DigitsAreClean(s: string)
    requires s != [] && AllDigits(s)
    ensures Trimmed(s) && NEWLINE !in s && s[0] != '+'
  {
    assert IsDigit(s[0]) && IsDigit(s[|s| - 1]);
  }

  lemma ParseOfDecimal(n: nat, limit: nat)
    requires n < limit
    ensures ParseUnsigned(Decimal(n), limit) == Some(n)
    ensures Trimmed(Decimal(n)) && NEWLINE !in Decimal(n)
  {
    DecimalValueOfDecimal(n);
    DigitsAreClean(Decimal(n));
  }
}
