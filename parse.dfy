/** Decimal text to `u32`, as `str::parse::<u32>` does it for the three text
    fields of the form: an optional single leading `+`, then one or more
    ASCII digits whose value fits in 32 bits. There is no trimming, no `-`
    (the type is unsigned) and no other base. */
module Parse {
  import opened Ints

  datatype Option<T> = None | Some(value: T)

  predicate IsDigit(c: char)
  {
    '0' <= c <= '9'
  }

  predicate AllDigits(s: string)
  {
    forall i :: 0 <= i < |s| ==> IsDigit(s[i])
  }

  function DigitValue(c: char): (d: nat)
    requires IsDigit(c)
    ensures d < 10
  {
    c as int - '0' as int
  }

  function DigitChar(d: nat): (c: char)
    requires d < 10
    ensures IsDigit(c) && DigitValue(c) == d
  {
    ('0' as int + d) as char
  }

  /** The number a digit string denotes, most significant digit first. */
  function DecimalValue(s: string): nat
    requires AllDigits(s)
  {
    if s == [] then 0 else DecimalValue(s[..|s| - 1]) * 10 + DigitValue(s[|s| - 1])
  }

  /** The text after the optional leading `+`. */
  function Unsigned(s: string): string
  {
    if |s| > 0 && s[0] == '+' then s[1..] else s
  }

  /** `s.parse::<u32>()`: `None` for the empty string, a lone `+`, any
      character other than a digit after the optional `+`, or a value of
      2^32 or more. */
  function ParseU32(s: string): Option<u32>
  {
    var d := Unsigned(s);
    if d == [] || !AllDigits(d) then None
    else if DecimalValue(d) < U32_LIMIT then Some(DecimalValue(d))
    else None
  }

  /** The decimal rendering of `n`, without a sign or leading zeros. */
  function Show(n: nat): (s: string)
    ensures |s| > 0 && AllDigits(s) && DecimalValue(s) == n
    ensures s[0] != '0' || n == 0
    decreases n
  {
    if n < 10 then [DigitChar(n)]
    else
      var s := Show(n / 10) + [DigitChar(n % 10)];
      assert s[..|s| - 1] == Show(n / 10);
      s
  }

  /** What a successful parse says about its input: it is not empty, every
      character after an optional leading `+` is a digit, and the result is
      the value of those digits. */
  lemma ParsedShape(s: string)
    requires ParseU32(s).Some?
    ensures |s| > 0
    ensures forall i :: 0 <= i < |s| ==> IsDigit(s[i]) || (i == 0 && s[i] == '+')
    ensures ParseU32(s).value == DecimalValue(Unsigned(s))
  {
    var d := Unsigned(s);
    if |s| > 0 && s[0] == '+' {
      forall i | 1 <= i < |s|
        ensures IsDigit(s[i])
      {
        assert s[i] == d[i - 1];
      }
    }
  }

  /** Every `u32` rendered in decimal parses back to itself, with or without
      a leading `+`. */
  lemma ParseShow(n: u32)
    ensures ParseU32(Show(n)) == Some(n)
    ensures ParseU32("+" + Show(n)) == Some(n)
  {
    var s := Show(n);
    assert Unsigned("+" + s) == s;
    assert Unsigned(s) == s by {
      assert s[0] != '+' by {
        assert IsDigit(s[0]);
      }
    }
  }

  /** Leading zeros do not change the value of a digit string. */
  lemma {:induction false} LeadingZero(s: string)
    requires AllDigits(s)
    ensures AllDigits("0" + s) && DecimalValue("0" + s) == DecimalValue(s)
  {
    var t := "0" + s;
    if s != [] {
      assert t[..|t| - 1] == "0" + s[..|s| - 1];
      LeadingZero(s[..|s| - 1]);
    }
  }

  /** So a `u32` written with a leading zero still parses to itself. */
  lemma ParseLeadingZero(n: u32)
    ensures ParseU32("0" + Show(n)) == Some(n)
  {
    var s := Show(n);
    LeadingZero(s);
    assert Unsigned("0" + s) == "0" + s;
  }

  /** What the parse refuses: the empty string, a lone `+`, a second `+`, a
      `-` sign and surrounding whitespace. */
  lemma ParseRejects(s: string)
    ensures ParseU32("") == None
    ensures ParseU32("+") == None
    ensures ParseU32("++" + s) == None
    ensures ParseU32("-" + s) == None
    ensures ParseU32(" " + s) == None
    ensures ParseU32(s + " ") == None
  {
    assert Unsigned("++" + s)[0] == '+';
    assert Unsigned("-" + s)[0] == '-';
    assert Unsigned(" " + s)[0] == ' ';
    var t := s + " ";
    assert Unsigned(t)[|Unsigned(t)| - 1] == ' ';
  }

  /** Appending a digit multiplies the value by ten and adds the digit. */
  lemma AppendDigit(s: string, c: char)
    requires AllDigits(s) && IsDigit(c)
    ensures AllDigits(s + [c]) && DecimalValue(s + [c]) == DecimalValue(s) * 10 + DigitValue(c)
  {
    assert (s + [c])[..|s|] == s;
  }

  /** The first nine digits of 2^32, shared by the two texts below. */
  lemma BoundaryPrefix()
    ensures AllDigits("429496729") && DecimalValue("429496729") == 429496729
  {
    AppendDigit("", '4');
    assert "" + ['4'] == "4";
    AppendDigit("4", '2');
    assert "4" + ['2'] == "42";
    AppendDigit("42", '9');
    assert "42" + ['9'] == "429";
    AppendDigit("429", '4');
    assert "429" + ['4'] == "4294";
    AppendDigit("4294", '9');
    assert "4294" + ['9'] == "42949";
    AppendDigit("42949", '6');
    assert "42949" + ['6'] == "429496";
    AppendDigit("429496", '7');
    assert "429496" + ['7'] == "4294967";
    AppendDigit("4294967", '2');
    assert "4294967" + ['2'] == "42949672";
    AppendDigit("42949672", '9');
    assert "42949672" + ['9'] == "429496729";
  }

  /** The 32-bit boundary: 4294967295 is the largest text that parses. */
  lemma ParseBoundary()
    ensures ParseU32("4294967295") == Some(4294967295)
    ensures ParseU32("4294967296") == None
  {
    BoundaryPrefix();
    AppendDigit("429496729", '5');
    assert "429496729" + ['5'] == "4294967295";
    AppendDigit("429496729", '6');
    assert "429496729" + ['6'] == "4294967296";
  }
}
