/**
 * The string helpers the generator relies on from Go's standard library:
 * `strings.Join` and the decimal rendering of `fmt`'s `%d`, each with the
 * inverse it is checked against (splitting on a separator, parsing digits).
 */
module Text {
  import opened Wrappers

  /** `strings.Join`: the parts with `sep` between neighbours; no parts give "". */
  function Join(parts: seq<string>, sep: string): (r: string)
    ensures |parts| == 0 ==> r == ""
    ensures |parts| > 0 ==> |parts[0]| <= |r| && r[..|parts[0]|] == parts[0]
  {
    if |parts| == 0 then ""
    else if |parts| == 1 then parts[0]
    else parts[0] + sep + Join(parts[1..], sep)
  }

  /** The pieces of `s` between occurrences of `c`; an empty `s` is one empty piece. */
  function Split(s: string, c: char): (pieces: seq<string>)
    ensures |pieces| > 0
    ensures forall p :: p in pieces ==> c !in p
  {
    if |s| == 0 then [""]
    else
      var rest := Split(s[1..], c);
      if s[0] == c then [""] + rest
      else [[s[0]] + rest[0]] + rest[1..]
  }

  lemma {:induction false} SplitWithout(a: string, c: char)
    requires c !in a
    ensures Split(a, c) == [a]
  {
    if |a| > 0 {
      SplitWithout(a[1..], c);
      assert a == [a[0]] + a[1..];
    }
  }

  lemma {:induction false} SplitAfterPiece(a: string, c: char, b: string)
    requires c !in a
    ensures Split(a + [c] + b, c) == [a] + Split(b, c)
  {
    var s := a + [c] + b;
    if |a| == 0 {
      assert s[1..] == b;
    } else {
      assert s[1..] == a[1..] + [c] + b;
      SplitAfterPiece(a[1..], c, b);
      assert a == [a[0]] + a[1..];
    }
  }

  /** Joining parts that do not contain the separator can be undone by splitting. */
  lemma {:induction false} SplitJoin(parts: seq<string>, c: char)
    requires |parts| > 0
    requires forall p :: p in parts ==> c !in p
    ensures Split(Join(parts, [c]), c) == parts
  {
    if |parts| == 1 {
      SplitWithout(parts[0], c);
    } else {
      SplitJoin(parts[1..], c);
      SplitAfterPiece(parts[0], c, Join(parts[1..], [c]));
      assert parts == [parts[0]] + parts[1..];
    }
  }

  /** The text before and after the last occurrence of `c`, or None when `c` does not occur. */
  function SplitAtLast(s: string, c: char): (r: Option<(string, string)>)
    ensures r.Some? ==> r.value.0 + [c] + r.value.1 == s && c !in r.value.1
    ensures r.None? ==> c !in s
  {
    if |s| == 0 then None
    else if s[|s| - 1] == c then Some((s[..|s| - 1], ""))
    else
      match SplitAtLast(s[..|s| - 1], c)
      case None => None
      case Some((h, t)) => Some((h, t + [s[|s| - 1]]))
  }

  lemma {:induction false} SplitAtLastOf(h: string, c: char, t: string)
    requires c !in t
    ensures SplitAtLast(h + [c] + t, c) == Some((h, t))
  {
    var s := h + [c] + t;
    if |t| == 0 {
      assert s[..|s| - 1] == h;
    } else {
      var t' := t[..|t| - 1];
      assert s[..|s| - 1] == h + [c] + t';
      assert c !in t' by { assert forall x :: x in t' ==> x in t; }
      SplitAtLastOf(h, c, t');
      assert t' + [t[|t| - 1]] == t;
    }
  }

  predicate IsDigit(ch: char)
  {
    '0' <= ch <= '9'
  }

  function DigitChar(d: nat): (ch: char)
    requires d < 10
    ensures IsDigit(ch) && ch as int - '0' as int == d
  {
    ('0' as int + d) as char
  }

  /** The decimal digits of `n`, most significant first, without leading zeros. */
  function NatDecimal(n: nat): (s: string)
    ensures |s| > 0
    ensures forall ch :: ch in s ==> IsDigit(ch)
    ensures s[0] == '0' ==> n == 0 && s == "0"
  {
    if n < 10 then [DigitChar(n)]
    else
      var high := NatDecimal(n / 10);
      assert (high + [DigitChar(n % 10)])[0] == high[0];
      high + [DigitChar(n % 10)]
  }

  /** `fmt`'s `%d`: a minus sign in front of the digits of a negative number. */
  function IntDecimal(n: int): (s: string)
    ensures |s| > 0 && (s[0] == '-' <==> n < 0)
    ensures n < 0 ==> |s| > 1 && s[1] != '0' && forall i :: 1 <= i < |s| ==> IsDigit(s[i])
    ensures 0 <= n ==> (s[0] == '0' ==> s == "0") && forall i :: 0 <= i < |s| ==> IsDigit(s[i])
  {
    var digits := NatDecimal(if n < 0 then -n else n);
    assert digits[0] in digits;
    assert forall i :: 0 <= i < |digits| ==> digits[i] in digits;
    if n < 0 then "-" + digits else digits
  }

  /** The value of a string of decimal digits. */
  function DigitsValue(s: string): nat
    requires forall ch :: ch in s ==> IsDigit(ch)
  {
    if |s| == 0 then 0
    else
      assert forall ch :: ch in s[..|s| - 1] ==> ch in s;
      assert s[|s| - 1] in s && IsDigit(s[|s| - 1]);
      10 * DigitsValue(s[..|s| - 1]) + (s[|s| - 1] as int - '0' as int)
  }

  /** Reads back what `%d` writes: an optional minus sign and at least one digit. */
  function ParseDecimal(s: string): Option<int>
  {
    if |s| > 1 && s[0] == '-' && forall ch :: ch in s[1..] ==> IsDigit(ch) then Some(0 - DigitsValue(s[1..]))
    else if |s| > 0 && forall ch :: ch in s ==> IsDigit(ch) then Some(DigitsValue(s))
    else None
  }

  lemma {:induction false} DigitsValueNatDecimal(n: nat)
    ensures DigitsValue(NatDecimal(n)) == n
  {
    if n >= 10 {
      var s := NatDecimal(n);
      assert s[..|s| - 1] == NatDecimal(n / 10);
      DigitsValueNatDecimal(n / 10);
    }
  }

  lemma ParseNegativeDecimal(n: int)
    requires n < 0
    ensures ParseDecimal(IntDecimal(n)) == Some(n)
  {
    var s := IntDecimal(n);
    assert s[1..] == NatDecimal(-n);
    DigitsValueNatDecimal(-n);
  }

  lemma ParseNonNegativeDecimal(n: nat)
    ensures ParseDecimal(IntDecimal(n)) == Some(n)
  {
    var s := IntDecimal(n);
    assert s[0] in s;
    DigitsValueNatDecimal(n);
  }

  /** `%d` output parses back to the number it came from, and never holds a colon. */
  lemma ParseIntDecimal(n: int)
    ensures ParseDecimal(IntDecimal(n)) == Some(n)
    ensures ':' !in IntDecimal(n)
  {
    if n < 0 {
      ParseNegativeDecimal(n);
      assert forall ch :: ch in IntDecimal(n) ==> ch == '-' || ch in NatDecimal(-n);
    } else {
      ParseNonNegativeDecimal(n);
    }
  }
}
