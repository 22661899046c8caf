/**
 * The two string operations the combined message is built from: JavaScript's
 * rendering of a non-negative integer Number in a template literal, and
 * `Array.prototype.join`.
 */
module Text {

  predicate IsDigit(c: char) { '0' <= c <= '9' }

  /** The decimal digit `d` as a character. */
  function DigitChar(d: nat): (c: char)
    requires d < 10
    ensures IsDigit(c) && c as int - '0' as int == d
  {
    (d + '0' as int) as char
  }

  /** `${n}`: the decimal digits of `n`, most significant first, without leading zeros. */
  function Decimal(n: nat): (s: string)
    ensures |s| >= 1
    ensures forall i :: 0 <= i < |s| ==> IsDigit(s[i])
    ensures s[0] == '0' ==> n == 0
  {
    if n < 10 then [DigitChar(n)] else Decimal(n / 10) + [DigitChar(n % 10)]
  }

  /** The number a string of decimal digits denotes. */
  function DecimalValue(s: string): nat
    requires forall i :: 0 <= i < |s| ==> IsDigit(s[i])
  {
    if s == [] then 0
    else
      assert IsDigit(s[|s| - 1]);
      DecimalValue(s[..|s| - 1]) * 10 + (s[|s| - 1] as int - '0' as int)
  }

  /** Reading back the digits of `n` gives `n`. */
  lemma {:induction false} DecimalRoundTrip(n: nat)
    ensures DecimalValue(Decimal(n)) == n
  {
    if n >= 10 {
      var s := Decimal(n);
      assert s[..|s| - 1] == Decimal(n / 10);
      DecimalRoundTrip(n / 10);
    }
  }

  /** Two numbers have the same decimal rendering only if they are equal. */
  lemma DecimalInjective(m: nat, n: nat)
    requires Decimal(m) == Decimal(n)
    ensures m == n
  {
    DecimalRoundTrip(m);
    DecimalRoundTrip(n);
  }

  /** `parts.join(sep)`. */
  function Join(parts: seq<string>, sep: string): (r: string)
  {
    if parts == [] then ""
    else if |parts| == 1 then parts[0]
    else parts[0] + sep + Join(parts[1..], sep)
  }

  /** Where the k-th part starts in `Join(parts, sep)`. */
  function Offset(parts: seq<string>, sep: string, k: nat): nat
    requires k <= |parts|
  {
    if k == 0 then 0 else |parts[0]| + |sep| + Offset(parts[1..], sep, k - 1)
  }

  /** The joined string is the parts and, between consecutive parts, one separator. */
  lemma {:induction false} JoinLength(parts: seq<string>, sep: string)
    requires parts != []
    ensures |Join(parts, sep)| == Offset(parts, sep, |parts| - 1) + |parts[|parts| - 1]|
  {
    if |parts| > 1 {
      JoinLength(parts[1..], sep);
    }
  }

  /** The k-th part sits in the joined string at `Offset(parts, sep, k)`. */
  lemma {:induction false} JoinPartAt(parts: seq<string>, sep: string, k: nat)
    requires k < |parts|
    ensures Offset(parts, sep, k) + |parts[k]| <= |Join(parts, sep)|
    ensures Join(parts, sep)[Offset(parts, sep, k)..Offset(parts, sep, k) + |parts[k]|] == parts[k]
  {
    if k > 0 {
      var head, rest := parts[0] + sep, Join(parts[1..], sep);
      assert Join(parts, sep) == head + rest;
      JoinPartAt(parts[1..], sep, k - 1);
      var o := Offset(parts[1..], sep, k - 1);
      assert Offset(parts, sep, k) == |head| + o;
      assert parts[1..][k - 1] == parts[k];
      SliceOfAppend(head, rest, |head| + o, |head| + o + |parts[k]|);
    } else if |parts| > 1 {
      assert Join(parts, sep) == parts[0] + (sep + Join(parts[1..], sep));
    }
  }

  /** Every part but the last is followed by one separator. */
  lemma {:induction false} JoinSeparatorAt(parts: seq<string>, sep: string, k: nat)
    requires k + 1 < |parts|
    ensures Offset(parts, sep, k) + |parts[k]| + |sep| <= |Join(parts, sep)|
    ensures var e := Offset(parts, sep, k) + |parts[k]|;
      Join(parts, sep)[e..e + |sep|] == sep
  {
    var head, rest := parts[0] + sep, Join(parts[1..], sep);
    if k > 0 {
      assert Join(parts, sep) == head + rest;
      JoinSeparatorAt(parts[1..], sep, k - 1);
      var o := Offset(parts[1..], sep, k - 1);
      assert Offset(parts, sep, k) == |head| + o;
      assert parts[1..][k - 1] == parts[k];
      SliceOfAppend(head, rest, |head| + o + |parts[k]|, |head| + o + |parts[k]| + |sep|);
    } else {
      assert Join(parts, sep) == parts[0] + (sep + rest);
      SliceOfAppend(parts[0], sep + rest, |parts[0]|, |parts[0]| + |sep|);
    }
  }

  /** A slice that lies in the second half of a concatenation is a slice of that half. */
  lemma SliceOfAppend<T>(a: seq<T>, b: seq<T>, i: nat, j: nat)
    requires |a| <= i <= j <= |a| + |b|
    ensures (a + b)[i..j] == b[i - |a|..j - |a|]
  {
    assert forall t :: 0 <= t < j - i ==> (a + b)[i..j][t] == b[i - |a|..j - |a|][t];
  }
}
