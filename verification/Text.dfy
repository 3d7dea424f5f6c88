/** Strings as the modelled programs use them: decimal text, joining, and byte order. */
module Text {
  import opened Sorting

  // ---- decimal rendering ----

  predicate IsDigit(c: char) {
    '0' <= c <= '9'
  }

  function DigitChar(d: nat): (c: char)
    requires d < 10
    ensures IsDigit(c)
  {
    ('0' as int + d) as char
  }

  function Decimal(n: nat): (r: string)
    ensures r != [] && forall i | 0 <= i < |r| :: IsDigit(r[i])
  {
    if n < 10 then [DigitChar(n)] else Decimal(n / 10) + [DigitChar(n % 10)]
  }

  function SignedDecimal(i: int): string {
    if i < 0 then "-" + Decimal(-i) else Decimal(i)
  }

  /** The number a string of digits denotes, most significant digit first. */
  function DigitsValue(s: string): nat
    requires forall i | 0 <= i < |s| :: IsDigit(s[i])
  {
    if s == [] then 0
    else
      assert IsDigit(s[|s| - 1]);
      10 * DigitsValue(s[..|s| - 1]) + (s[|s| - 1] as int - '0' as int)
  }

  lemma {:induction false} DecimalRoundTrip(n: nat)
    ensures DigitsValue(Decimal(n)) == n
  {
    if n < 10 {
      assert Decimal(n)[..0] == [];
    } else {
      DecimalRoundTrip(n / 10);
      var d := Decimal(n);
      assert d[..|d| - 1] == Decimal(n / 10);
    }
  }

  lemma {:induction false} NoLeadingZero(n: nat)
    ensures |Decimal(n)| > 1 ==> Decimal(n)[0] != '0'
  {
    if n >= 10 {
      NoLeadingZero(n / 10);
      assert Decimal(n)[0] == Decimal(n / 10)[0];
    }
  }

  /** A number as it is written: a minus sign if it is negative, then its digits without a leading zero. */
  ghost predicate WritesNumber(t: string, i: int) {
    var d := if i < 0 && t != [] then t[1..] else t;
    && (i < 0 ==> t != [] && t[0] == '-')
    && d != [] && (forall k | 0 <= k < |d| :: IsDigit(d[k])) && (|d| > 1 ==> d[0] != '0')
    && DigitsValue(d) == if i < 0 then -i else i
  }

  lemma SignedDecimalExact(i: int)
    ensures WritesNumber(SignedDecimal(i), i)
  {
    var n := if i < 0 then -i else i;
    DecimalRoundTrip(n);
    NoLeadingZero(n);
    assert i < 0 ==> SignedDecimal(i)[1..] == Decimal(n);
  }

  lemma SignedDecimalInjective(i: int, j: int)
    requires SignedDecimal(i) == SignedDecimal(j)
    ensures i == j
  {
    var m, n := if i < 0 then -i else i, if j < 0 then -j else j;
    DecimalRoundTrip(m);
    DecimalRoundTrip(n);
    assert !IsDigit('-');
    assert IsDigit(Decimal(m)[0]) && IsDigit(Decimal(n)[0]);
    if i < 0 {
      assert SignedDecimal(i)[1..] == Decimal(m);
      assert SignedDecimal(j)[0] == '-';
      assert SignedDecimal(j)[1..] == Decimal(n);
    }
  }

  lemma SignedDecimalChars(i: int)
    ensures forall c | c in SignedDecimal(i) :: IsDigit(c) || c == '-'
    ensures SignedDecimal(i) != []
  {
  }

  // ---- separators ----

  function Join(items: seq<string>, sep: string): string {
    if items == [] then ""
    else if |items| == 1 then items[0]
    else items[0] + sep + Join(items[1..], sep)
  }

  ghost predicate Contains(s: string, sub: string) {
    exists k | 0 <= k <= |s| - |sub| :: s[k..][..|sub|] == sub
  }

  /**
   * A separator that begins with a character found nowhere else in it cuts a
   * string in one place only, as long as neither left part holds a whole
   * separator.
   */
  lemma CutUnique(v: string, x: string, w: string, y: string, sep: string)
    requires sep != [] && sep[0] !in sep[1..]
    requires v + sep + x == w + sep + y
    requires !Contains(v, sep) && !Contains(w, sep)
    ensures v == w && x == y
  {
    if |v| < |w| {
      NoLaterCut(v, x, w, y, sep);
    } else if |w| < |v| {
      NoLaterCut(w, y, v, x, sep);
    } else {
      var s := v + sep + x;
      assert v == s[..|v|] == w;
      assert x == s[|v| + |sep|..] == y;
    }
  }

  lemma NoLaterCut(v: string, x: string, w: string, y: string, sep: string)
    requires sep != [] && sep[0] !in sep[1..]
    requires v + sep + x == w + sep + y
    requires |v| < |w|
    ensures Contains(w, sep)
  {
    var s := v + sep + x;
    assert s[|v|..][..|sep|] == sep;
    assert s[|w|] == (w + sep + y)[|w|] == sep[0];
    // The second separator cannot start inside the first one.
    forall k | |v| < k < |v| + |sep|
      ensures s[k] != sep[0]
    {
      assert s[k] == sep[k - |v|] == sep[1..][k - |v| - 1];
    }
    assert |v| + |sep| <= |w|;
    assert w == s[..|w|];
    assert w[|v|..][..|sep|] == s[|v|..][..|sep|];
  }

  /** Items that a newline-separated list can carry without ambiguity. */
  ghost predicate Lines(items: seq<string>) {
    forall i | 0 <= i < |items| :: items[i] != [] && '\n' !in items[i]
  }

  /** Joining by newline loses nothing: not the number of items, not their order, not a character. */
  lemma {:induction false} JoinLinesInjective(a: seq<string>, b: seq<string>)
    requires Lines(a) && Lines(b)
    requires Join(a, "\n") == Join(b, "\n")
    ensures a == b
    decreases |a|
  {
    var s := Join(a, "\n");
    if |a| <= 1 || |b| <= 1 {
      JoinBreaks(a);
      JoinBreaks(b);
      assert |a| <= 1 && |b| <= 1;
    } else {
      NoBreakNoSub(a[0]);
      NoBreakNoSub(b[0]);
      CutUnique(a[0], Join(a[1..], "\n"), b[0], Join(b[1..], "\n"), "\n");
      JoinLinesInjective(a[1..], b[1..]);
      assert a == [a[0]] + a[1..] && b == [b[0]] + b[1..];
    }
  }

  lemma JoinBreaks(a: seq<string>)
    requires Lines(a)
    ensures Join(a, "\n") == [] <==> a == []
    ensures '\n' in Join(a, "\n") <==> |a| >= 2
  {
    if |a| >= 2 {
      assert Join(a, "\n")[|a[0]|] == '\n';
    }
  }

  lemma NoBreakNoSub(s: string)
    requires '\n' !in s
    ensures !Contains(s, "\n")
  {
    forall k | 0 <= k <= |s| - 1
      ensures s[k..][..1] != "\n"
    {
      assert s[k..][..1][0] == s[k];
    }
  }

  // ---- order ----

  /** Lexicographic order on characters, which is byte order on ASCII text. */
  predicate StringLe(a: string, b: string) {
    if a == [] then true
    else if b == [] then false
    else if a[0] != b[0] then a[0] < b[0]
    else StringLe(a[1..], b[1..])
  }

  /** A prefix comes first; otherwise the first difference decides. */
  lemma {:induction false} StringLeExact(a: string, b: string)
    ensures StringLe(a, b) <==> a <= b || exists k | 0 <= k < |a| && k < |b| :: a[..k] == b[..k] && a[k] < b[k]
  {
    if a != [] && b != [] && a[0] == b[0] {
      var x, y := a[1..], b[1..];
      StringLeExact(x, y);
      assert a == [a[0]] + x && b == [b[0]] + y;
      if k: nat :| k < |x| && k < |y| && x[..k] == y[..k] && x[k] < y[k] {
        assert a[..k + 1] == [a[0]] + x[..k] && b[..k + 1] == [b[0]] + y[..k];
        assert a[k + 1] < b[k + 1];
      }
      if k :| 0 <= k < |a| && k < |b| && a[..k] == b[..k] && a[k] < b[k] {
        assert k > 0 && x[..k - 1] == a[..k][1..] && y[..k - 1] == b[..k][1..];
        assert x[k - 1] < y[k - 1];
      }
    } else if a != [] && b != [] {
      assert a[..0] == b[..0];
      if k :| 0 <= k < |a| && k < |b| && a[..k] == b[..k] && a[k] < b[k] {
        assert k > 0 ==> a[..k][0] == b[..k][0];
      }
    }
  }

  lemma {:induction false} StringLeTotal(a: string, b: string)
    ensures StringLe(a, b) || StringLe(b, a)
    ensures StringLe(a, b) && StringLe(b, a) ==> a == b
  {
    if a != [] && b != [] && a[0] == b[0] {
      StringLeTotal(a[1..], b[1..]);
      assert a == [a[0]] + a[1..] && b == [b[0]] + b[1..];
    }
  }

  lemma {:induction false} StringLeTransitive(a: string, b: string, c: string)
    requires StringLe(a, b) && StringLe(b, c)
    ensures StringLe(a, c)
  {
    if a != [] && b != [] && c != [] && a[0] == b[0] == c[0] {
      StringLeTransitive(a[1..], b[1..], c[1..]);
    }
  }

  lemma StringLeOrder()
    ensures TotalOrder(StringLe)
  {
    forall a, b
      ensures StringLe(a, b) || StringLe(b, a)
      ensures StringLe(a, b) && StringLe(b, a) ==> a == b
    {
      StringLeTotal(a, b);
    }
    forall a, b, c | StringLe(a, b) && StringLe(b, c)
      ensures StringLe(a, c)
    {
      StringLeTransitive(a, b, c);
    }
  }
}
