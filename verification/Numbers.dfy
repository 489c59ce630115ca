/** Numbers as text: strconv.Itoa and strconv.ParseInt, strconv.FormatBool and strconv.ParseBool. */
module Numbers {
  import opened Options

  const MAX_INT64 := 0x7FFF_FFFF_FFFF_FFFF

  predicate IsInt64(i: int) {
    -MAX_INT64 - 1 <= i <= MAX_INT64
  }

  function Digit(d: nat): (c: char)
    requires d < 10
    ensures '0' <= c <= '9' && c as int - '0' as int == d
  {
    ('0' as int + d) as char
  }

  function DigitValue(c: char): nat
    requires '0' <= c <= '9'
  {
    c as int - '0' as int
  }

  /** Decimal notation, as %d prints a natural number. */
  function Decimal(n: nat): (s: string)
    ensures s != "" && (|s| == 1 <==> n < 10)
    ensures forall c :: c in s ==> '0' <= c <= '9'
  {
    if n < 10 then [Digit(n)] else Decimal(n / 10) + [Digit(n % 10)]
  }

  predicate AllDigits(s: string) {
    forall i :: 0 <= i < |s| ==> '0' <= s[i] <= '9'
  }

  function Reading(s: string): nat
    requires AllDigits(s)
  {
    if |s| == 0 then 0 else 10 * Reading(s[..|s| - 1]) + DigitValue(s[|s| - 1])
  }

  lemma ReadingSnoc(s: string, d: nat)
    requires AllDigits(s) && d < 10
    ensures AllDigits(s + [Digit(d)]) && Reading(s + [Digit(d)]) == 10 * Reading(s) + d
  {
    assert (s + [Digit(d)])[..|s|] == s;
  }

  lemma {:induction false} DecimalReads(n: nat)
    ensures AllDigits(Decimal(n)) && Reading(Decimal(n)) == n
  {
    hide Reading, AllDigits;
    if n >= 10 {
      DecimalReads(n / 10);
      ReadingSnoc(Decimal(n / 10), n % 10);
    } else {
      Nothing();
      ReadingSnoc("", n);
      assert "" + [Digit(n)] == [Digit(n)];
    }
  }

  lemma Nothing()
    ensures AllDigits("") && Reading("") == 0
  {
  }

  lemma DecimalInjective(m: nat, n: nat)
    requires Decimal(m) == Decimal(n)
    ensures m == n
  {
    DecimalReads(m);
    DecimalReads(n);
  }

  function FormatInt(i: int): string {
    if i < 0 then ['-'] + Decimal(-i) else Decimal(i)
  }

  function InRange(value: int): Option<int> {
    if IsInt64(value) then Some(value) else None
  }

  /** strconv.ParseInt(s, 10, 64); None is a syntax or range error. */
  function ParseInt(s: string): Option<int> {
    var signed := s != "" && (s[0] == '-' || s[0] == '+');
    var digits := if signed then s[1..] else s;
    if digits == "" || !AllDigits(digits) then None
    else
      InRange(if signed && s[0] == '-' then -(Reading(digits) as int) else Reading(digits))
  }

  lemma ParseNegative(digits: string)
    requires digits != "" && AllDigits(digits)
    ensures ParseInt(['-'] + digits) == InRange(-(Reading(digits) as int))
  {
    hide Reading;
    assert (['-'] + digits)[1..] == digits;
  }

  lemma ParseNatural(digits: string)
    requires digits != "" && AllDigits(digits)
    ensures ParseInt(digits) == InRange(Reading(digits))
  {
    hide Reading;
    assert '0' <= digits[0] <= '9';
  }

  /** Some digits, perhaps behind one sign. */
  ghost predicate Spells(s: string, digits: string, i: int) {
    && digits != "" && AllDigits(digits)
    && (|| ((s == digits || s == "+" + digits) && i == Reading(digits))
        || (s == "-" + digits && i == -(Reading(digits) as int)))
  }

  /** Exactly the texts that spell an int64 are parsed, and as what they spell. */
  lemma ParsesExactly(s: string, i: int)
    ensures ParseInt(s) == Some(i) <==>
              -0x8000_0000_0000_0000 <= i <= 0x7FFF_FFFF_FFFF_FFFF && exists digits :: Spells(s, digits, i)
  {
    hide Reading;
    if digits :| Spells(s, digits, i) {
      if s == digits {
        ParseNatural(digits);
      } else {
        assert s[1..] == digits;
      }
    }
    if ParseInt(s) == Some(i) {
      if s[0] == '-' || s[0] == '+' {
        assert s == [s[0]] + s[1..];
        assert Spells(s, s[1..], i);
      } else {
        assert Spells(s, s, i);
      }
    }
  }

  /** Printing and parsing are inverse exactly on the int64 range. */
  lemma IntRoundTrip(i: int)
    ensures ParseInt(FormatInt(i)) ==
            if -0x8000_0000_0000_0000 <= i <= 0x7FFF_FFFF_FFFF_FFFF then Some(i) else None
  {
    hide ParseInt, Decimal, Reading, AllDigits;
    if i < 0 {
      DecimalReads(-i);
      ParseNegative(Decimal(-i));
    } else {
      DecimalReads(i);
      ParseNatural(Decimal(i));
    }
  }

  function FormatBool(b: bool): string {
    if b then "true" else "false"
  }

  function ParseBool(s: string): Option<bool> {
    if s in ["1", "t", "T", "true", "TRUE", "True"] then Some(true)
    else if s in ["0", "f", "F", "false", "FALSE", "False"] then Some(false)
    else None
  }

  /** The texts other readers of the hash see. */
  lemma KnownTexts()
    ensures FormatBool(true) == "true" && FormatBool(false) == "false" && FormatInt(-907) == "-907"
  {
    assert Decimal(90) == "90";
    assert Decimal(907) == "907";
  }

  lemma BoolRoundTrip(b: bool)
    ensures ParseBool(FormatBool(b)) == Some(b)
  {
    if b {
      assert ["1", "t", "T", "true", "TRUE", "True"][3] == "true";
    } else {
      assert ["0", "f", "F", "false", "FALSE", "False"][3] == "false";
      assert "false"[0] == 'f';
    }
  }
}
