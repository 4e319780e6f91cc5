/**
 * The Python string built-ins that the command-line script uses to read its
 * weight and impact arguments: `str.split`, `str.replace(c, '', 1)`,
 * `str.isdigit` and `float` on the tokens the script accepts.
 */
module Text {

  /** The position of the first occurrence of `c` in `s`. */
  function IndexOf(s: string, c: char): (k: nat)
    requires c in s
    ensures k < |s| && s[k] == c
    ensures c !in s[..k]
  {
    if s[0] == c then 0
    else
      assert c in s[1..] by {
        var i :| 0 <= i < |s| && s[i] == c;
        assert s[1..][i - 1] == c;
      }
      var k := IndexOf(s[1..], c);
      assert s[..k + 1] == [s[0]] + s[1..][..k];
      k + 1
  }

  /** `sep.join(pieces)` for a one-character separator. */
  function Join(pieces: seq<string>, sep: char): string
    requires |pieces| >= 1
  {
    if |pieces| == 1 then pieces[0] else pieces[0] + [sep] + Join(pieces[1..], sep)
  }

  /**
   * `s.split(sep)`: the pieces of `s` between occurrences of `sep`, empty
   * pieces included, so that the empty string splits into one empty piece.
   */
  function Split(s: string, sep: char): (pieces: seq<string>)
    ensures |pieces| >= 1
    ensures forall p :: p in pieces ==> sep !in p
    ensures Join(pieces, sep) == s
    decreases |s|
  {
    if sep in s then
      var k := IndexOf(s, sep);
      var rest := Split(s[k + 1..], sep);
      assert s == s[..k] + [sep] + s[k + 1..];
      var pieces := [s[..k]] + rest;
      assert pieces[1..] == rest;
      pieces
    else
      [s]
  }

  lemma {:induction false} IndexOfAfterPrefix(a: string, c: char, b: string)
    requires c !in a
    ensures IndexOf(a + [c] + b, c) == |a|
  {
    if |a| > 0 {
      assert (a + [c] + b)[1..] == a[1..] + [c] + b;
      IndexOfAfterPrefix(a[1..], c, b);
    }
  }

  /** Splitting undoes joining, as long as no piece contains the separator. */
  lemma {:induction false} SplitJoin(pieces: seq<string>, sep: char)
    requires |pieces| >= 1
    requires forall p :: p in pieces ==> sep !in p
    ensures Split(Join(pieces, sep), sep) == pieces
  {
    if |pieces| > 1 {
      var head, rest := pieces[0], pieces[1..];
      var tail := Join(rest, sep);
      var s := Join(pieces, sep);
      var k := |head|;
      assert s == head + [sep] + tail;
      assert sep !in head;
      assert sep in s by {
        assert s[k] == sep;
      }
      IndexOfAfterPrefix(head, sep, tail);
      assert s[..k] == head;
      assert s[k + 1..] == tail;
      assert Split(s, sep) == [head] + Split(tail, sep);
      SplitJoin(rest, sep);
      assert pieces == [head] + rest;
    }
  }

  predicate IsDigit(c: char) {
    '0' <= c <= '9'
  }

  /** Every character is a decimal digit (true of the empty string). */
  predicate AllDigits(s: string) {
    forall i :: 0 <= i < |s| ==> IsDigit(s[i])
  }

  /** `s.isdigit()` over ASCII: non-empty and made of digits only. */
  predicate IsDigitString(s: string) {
    |s| > 0 && AllDigits(s)
  }

  /** `s.replace(c, '', 1)`: `s` with its first `c` deleted, if it has one. */
  function RemoveFirst(s: string, c: char): (r: string)
    ensures multiset(r) == multiset(s) - multiset{c}
    ensures |r| == if c in s then |s| - 1 else |s|
    ensures c !in s ==> r == s
  {
    if c in s then
      var k := IndexOf(s, c);
      assert s == s[..k] + [c] + s[k + 1..];
      s[..k] + s[k + 1..]
    else
      assert multiset(s)[c] == 0;
      s
  }

  /**
   * It is the first `c` that goes: the result is `s` with one position
   * deleted, and no `c` comes before that position.
   */
  lemma RemoveFirstDeletesFirst(s: string, c: char)
    requires c in s
    ensures exists k :: 0 <= k < |s| && s[k] == c && c !in s[..k] &&
                        RemoveFirst(s, c) == s[..k] + s[k + 1..]
  {
    var k := IndexOf(s, c);
    assert s[k] == c && c !in s[..k];
  }

  /** The weight guard of the command-line script: `t.replace('.', '', 1).isdigit()`. */
  predicate IsWeightToken(t: string) {
    IsDigitString(RemoveFirst(t, '.'))
  }

  /**
   * A token passes the weight guard exactly when it is made of digits and at
   * most one '.', and holds at least one digit.
   */
  lemma WeightTokenShape(t: string)
    ensures IsWeightToken(t) <==>
      && (forall i :: 0 <= i < |t| ==> IsDigit(t[i]) || t[i] == '.')
      && multiset(t)['.'] <= 1
      && multiset(t)['.'] < |t|
  {
    var r := RemoveFirst(t, '.');
    var dots := multiset(t)['.'];
    assert '.' in t <==> dots > 0;
    assert multiset(r)['.'] == if dots > 0 then dots - 1 else 0;
    if IsWeightToken(t) {
      assert multiset(r)['.'] == 0;
      forall i | 0 <= i < |t|
        ensures IsDigit(t[i]) || t[i] == '.'
      {
        if t[i] != '.' {
          assert t[i] in multiset(t);
          assert multiset(r)[t[i]] == multiset(t)[t[i]];
          assert t[i] in r;
        }
      }
    }
    if && (forall i :: 0 <= i < |t| ==> IsDigit(t[i]) || t[i] == '.')
       && dots <= 1 && dots < |t|
    {
      forall i | 0 <= i < |r|
        ensures IsDigit(r[i])
      {
        assert r[i] in multiset(r);
        if r[i] != '.' {
          assert multiset(t)[r[i]] == multiset(r)[r[i]];
          assert r[i] in t;
        }
      }
    }
  }

  function DigitValue(c: char): nat
    requires IsDigit(c)
  {
    c as int - '0' as int
  }

  /** The value of a string of decimal digits, zero for the empty string. */
  function Number(s: string): nat
    requires AllDigits(s)
  {
    if |s| == 0 then 0 else 10 * Number(s[..|s| - 1]) + DigitValue(s[|s| - 1])
  }

  function Pow10(n: nat): (r: nat)
    ensures r >= 1
  {
    if n == 0 then 1 else 10 * Pow10(n - 1)
  }

  /** The number of digits after the '.' of a token, zero when it has none. */
  function FractionDigits(t: string): nat
  {
    if '.' in t then |t| - IndexOf(t, '.') - 1 else 0
  }

  /**
   * `float(t)` on a token the weight guard accepted ("3", "0.25", ".5", "2."),
   * as the exact decimal value it denotes: its digits read as one whole
   * number, divided by ten to the number of digits after the '.'.
   */
  function ParseWeight(t: string): (r: real)
    requires IsWeightToken(t)
    ensures r >= 0.0
  {
    Number(RemoveFirst(t, '.')) as real / Pow10(FractionDigits(t)) as real
  }

  /** The digits of `a` followed by those of `b` read as one number. */
  lemma {:induction false} NumberAppend(a: string, b: string)
    requires AllDigits(a) && AllDigits(b)
    ensures AllDigits(a + b)
    ensures Number(a + b) == Number(a) * Pow10(|b|) + Number(b)
    decreases |b|
  {
    if |b| == 0 {
      assert a + b == a;
    } else {
      var c := b[..|b| - 1];
      var d := DigitValue(b[|b| - 1]);
      assert (a + b)[..|a + b| - 1] == a + c;
      assert (a + b)[|a + b| - 1] == b[|b| - 1];
      NumberAppend(a, c);
      assert Number(a + b) == 10 * Number(a + c) + d;
      assert Number(b) == 10 * Number(c) + d;
      ShiftDigit(Number(a), Pow10(|c|), Number(c), d);
    }
  }

  /** One more digit: `10 (n p + m) + d == n (10 p) + (10 m + d)`. */
  lemma ShiftDigit(n: int, p: int, m: int, d: int)
    ensures 10 * (n * p + m) + d == n * (10 * p) + (10 * m + d)
  {
  }

  /** Digits `a` then `b`, read as one number and divided by ten to the count of `b`. */
  lemma DecimalValue(a: string, b: string)
    requires AllDigits(a) && AllDigits(b)
    ensures AllDigits(a + b)
    ensures Number(a + b) as real / Pow10(|b|) as real ==
            Number(a) as real + Number(b) as real / Pow10(|b|) as real
  {
    NumberAppend(a, b);
    WholeAndFractionDigits(Number(a), Number(b), Pow10(|b|));
  }

  lemma WholeAndFractionDigits(n: nat, m: nat, p: nat)
    requires p >= 1
    ensures (n * p + m) as real / p as real == n as real + m as real / p as real
  {
    var x, y, q := n as real, m as real, p as real;
    assert (n * p + m) as real == x * q + y;
    WholeAndFraction(x, y, q);
  }

  /** Dividing a whole part scaled by `p`, plus a remainder, by `p`. */
  lemma WholeAndFraction(x: real, y: real, p: real)
    requires p > 0.0
    ensures (x * p + y) / p == x + y / p
  {
  }

  /**
   * `float` of every accepted token: a token without a '.' is the whole
   * number its digits spell; a token with one is the number before the '.'
   * plus the digits after it over ten to their count.
   */
  lemma ParseWeightValue(t: string)
    requires IsWeightToken(t)
    ensures '.' !in t ==> AllDigits(t) && ParseWeight(t) == Number(t) as real
    ensures '.' in t ==>
              var k := IndexOf(t, '.');
              && AllDigits(t[..k]) && AllDigits(t[k + 1..])
              && ParseWeight(t) ==
                 Number(t[..k]) as real + Number(t[k + 1..]) as real / Pow10(|t| - k - 1) as real
  {
    if '.' in t {
      ParseFractionToken(t);
    } else {
      ParseWholeToken(t);
    }
  }

  lemma ParseWholeToken(t: string)
    requires IsWeightToken(t) && '.' !in t
    ensures AllDigits(t) && ParseWeight(t) == Number(t) as real
  {
    assert RemoveFirst(t, '.') == t;
    assert Pow10(FractionDigits(t)) == 1;
    var n := Number(t) as real;
    assert ParseWeight(t) == n / 1.0;
  }

  lemma ParseFractionToken(t: string)
    requires IsWeightToken(t) && '.' in t
    ensures var k := IndexOf(t, '.');
            && AllDigits(t[..k]) && AllDigits(t[k + 1..])
            && ParseWeight(t) ==
               Number(t[..k]) as real + Number(t[k + 1..]) as real / Pow10(|t| - k - 1) as real
  {
    var k := IndexOf(t, '.');
    var a, b := t[..k], t[k + 1..];
    FractionParts(t);
    DigitsSplit(a, b);
    DecimalValue(a, b);
  }

  /** Where the digits of a token with a '.' come from. */
  lemma FractionParts(t: string)
    requires '.' in t
    ensures var k := IndexOf(t, '.');
            RemoveFirst(t, '.') == t[..k] + t[k + 1..] && FractionDigits(t) == |t| - k - 1
  {
  }

  /** The two halves of a digit string are digit strings. */
  lemma DigitsSplit(a: string, b: string)
    requires AllDigits(a + b)
    ensures AllDigits(a) && AllDigits(b)
  {
    assert forall i :: 0 <= i < |a| ==> a[i] == (a + b)[i];
    assert forall i :: 0 <= i < |b| ==> b[i] == (a + b)[|a| + i];
  }

  /** Any two digit strings around a '.', not both empty, form a token read as whole part plus fraction. */
  lemma ParseWeightDecimal(a: string, b: string)
    requires AllDigits(a) && AllDigits(b) && |a| + |b| > 0
    ensures IsWeightToken(a + "." + b)
    ensures ParseWeight(a + "." + b) == Number(a) as real + Number(b) as real / Pow10(|b|) as real
  {
    var t := a + "." + b;
    assert '.' !in a by {
      assert forall i :: 0 <= i < |a| ==> a[i] != '.';
    }
    IndexOfAfterPrefix(a, '.', b);
    assert t[..|a|] == a && t[|a| + 1..] == b;
    NumberAppend(a, b);
    assert IsDigitString(RemoveFirst(t, '.'));
    ParseWeightValue(t);
  }

  /** Worked values of `float` on accepted tokens. */
  lemma ParseWeightExamples()
    ensures IsWeightToken("2") && ParseWeight("2") == 2.0
    ensures IsWeightToken("0.25") && ParseWeight("0.25") == 0.25
    ensures IsWeightToken(".5") && ParseWeight(".5") == 0.5
  {
    ParseTwo();
    ParseQuarter();
    ParseHalf();
  }

  lemma ParseTwo()
    ensures IsWeightToken("2") && ParseWeight("2") == 2.0
  {
    assert RemoveFirst("2", '.') == "2";
    assert Number("2") == 2 by { assert "2"[..0] == ""; }
  }

  lemma ParseQuarter()
    ensures IsWeightToken("0.25") && ParseWeight("0.25") == 0.25
  {
    QuarterDigits();
    QuarterNumber();
    assert Pow10(2) == 100;
  }

  lemma QuarterNumber()
    ensures AllDigits("025") && Number("025") == 25
  {
    assert "025"[..2] == "02" && "02"[..1] == "0" && "0"[..0] == "";
  }

  lemma QuarterDigits()
    ensures RemoveFirst("0.25", '.') == "025" && FractionDigits("0.25") == 2
  {
    assert IndexOf("0.25", '.') == 1 by { assert "0.25"[1..] == ".25"; }
    assert "0.25"[..1] + "0.25"[2..] == "025";
  }

  lemma ParseHalf()
    ensures IsWeightToken(".5") && ParseWeight(".5") == 0.5
  {
    HalfDigits();
    assert Number("5") == 5 by { assert "5"[..0] == ""; }
  }

  lemma HalfDigits()
    ensures RemoveFirst(".5", '.') == "5" && FractionDigits(".5") == 1
  {
    assert IndexOf(".5", '.') == 0;
    assert ".5"[..0] + ".5"[1..] == "5";
  }

  /**
   * The weight guard rejects the empty token, a sign, a second '.', an
   * exponent and a bare '.'.
   */
  lemma RejectedWeightTokens()
    ensures !IsWeightToken("") && !IsWeightToken("-1") && !IsWeightToken("1.2.3")
    ensures !IsWeightToken("1e3") && !IsWeightToken(".")
  {
    assert RemoveFirst("", '.') == "";
    RejectsSign();
    RejectsExponent();
    assert RemoveFirst(".", '.') == "" by { assert IndexOf(".", '.') == 0; }
    RejectsTwoDots();
  }

  lemma RejectsSign()
    ensures !IsWeightToken("-1")
  {
    assert RemoveFirst("-1", '.')[0] == '-';
  }

  lemma RejectsExponent()
    ensures !IsWeightToken("1e3")
  {
    assert RemoveFirst("1e3", '.')[1] == 'e';
  }

  lemma RejectsTwoDots()
    ensures !IsWeightToken("1.2.3")
  {
    assert multiset("1.2.3")['.'] == 2 by {
      assert "1.2.3" == "1" + "." + "2" + "." + "3";
    }
    WeightTokenShape("1.2.3");
  }
}
