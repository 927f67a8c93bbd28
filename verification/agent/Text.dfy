// The string functions of the Go library that names, keys and annotations are
// built with. A char stands for one byte.
module Text {

  datatype Option<+T> = None | Some(value: T)

  // ---- strings.Split and strings.Join ----

  /** strings.Split for a separator of one byte: never empty. */
  function Split(s: string, sep: char): (parts: seq<string>)
    ensures |parts| >= 1
  {
    if s == "" then [""]
    else
      var rest := Split(s[1..], sep);
      if s[0] == sep then [""] + rest else [[s[0]] + rest[0]] + rest[1..]
  }

  function Join(parts: seq<string>, sep: char): (s: string)
  {
    if parts == [] then "" else if |parts| == 1 then parts[0] else parts[0] + [sep] + Join(parts[1..], sep)
  }

  lemma {:induction false} SplitFree(s: string, sep: char)
    requires sep !in s
    ensures Split(s, sep) == [s]
  {
    if s != "" {
      SplitFree(s[1..], sep);
      assert [s[0]] + s[1..] == s;
    }
  }

  lemma {:induction false} SplitAppend(a: string, sep: char, b: string)
    requires sep !in a
    ensures Split(a + [sep] + b, sep) == [a] + Split(b, sep)
  {
    if a == "" {
      assert (a + [sep] + b)[1..] == b;
    } else {
      assert (a + [sep] + b)[1..] == a[1..] + [sep] + b;
      SplitAppend(a[1..], sep, b);
      assert [a[0]] + a[1..] == a;
    }
  }

  /** Splitting inverts joining, for parts without the separator. */
  lemma {:induction false} SplitJoin(parts: seq<string>, sep: char)
    requires parts != [] && forall p :: p in parts ==> sep !in p
    ensures Split(Join(parts, sep), sep) == parts
  {
    if |parts| == 1 {
      SplitFree(parts[0], sep);
    } else {
      SplitJoin(parts[1..], sep);
      SplitAppend(parts[0], sep, Join(parts[1..], sep));
      assert [parts[0]] + parts[1..] == parts;
    }
  }

  /** The parts have no separator in them. */
  lemma {:induction false} SplitParts(s: string, sep: char)
    ensures forall p :: p in Split(s, sep) ==> sep !in p
  {
    if s != "" {
      SplitParts(s[1..], sep);
    }
  }

  /** Joining puts the parts one after the other, with one separator between. */
  lemma {:induction false} JoinAppend(a: seq<string>, b: seq<string>, sep: char)
    requires a != [] && b != []
    ensures Join(a + b, sep) == Join(a, sep) + [sep] + Join(b, sep)
  {
    if |a| == 1 {
      assert (a + b)[1..] == b;
    } else {
      assert (a + b)[1..] == a[1..] + b;
      JoinAppend(a[1..], b, sep);
      assert a[0] + [sep] + (Join(a[1..], sep) + [sep] + Join(b, sep)) ==
             a[0] + [sep] + Join(a[1..], sep) + [sep] + Join(b, sep);
    }
  }

  // ---- strconv.Itoa and strconv.Atoi ----

  function DigitChar(d: nat): (c: char)
    requires d < 10
  {
    ['0', '1', '2', '3', '4', '5', '6', '7', '8', '9'][d]
  }

  predicate IsDigit(c: char)
  {
    '0' <= c <= '9'
  }

  function DigitValue(c: char): (d: nat)
    requires IsDigit(c)
    ensures d < 10
  {
    c as int - '0' as int
  }

  function Digits(n: nat): (s: string)
    ensures s != ""
  {
    if n < 10 then [DigitChar(n)] else Digits(n / 10) + [DigitChar(n % 10)]
  }

  function Itoa(n: int): (s: string)
  {
    if n < 0 then "-" + Digits(-n) else Digits(n)
  }

  predicate AllDigits(s: string)
  {
    forall i :: 0 <= i < |s| ==> IsDigit(s[i])
  }

  function DigitsValue(s: string): (n: nat)
    requires AllDigits(s)
  {
    if s == "" then 0 else 10 * DigitsValue(s[..|s| - 1]) + DigitValue(s[|s| - 1])
  }

  const MIN_INT := -0x8000_0000_0000_0000
  const MAX_INT := 0x7fff_ffff_ffff_ffff

  /** strconv.Atoi: an optional sign, at least one digit, and a 64-bit value. */
  function Atoi(s: string): (r: Option<int>)
  {
    var signed := s != "" && (s[0] == '-' || s[0] == '+');
    var body := if signed then s[1..] else s;
    if body == "" || !AllDigits(body) then None
    else
      var n: int := DigitsValue(body);
      var v: int := if signed && s[0] == '-' then -n else n;
      if MIN_INT <= v <= MAX_INT then Some(v) else None
  }

  lemma {:induction false} DigitsAreDigits(n: nat)
    ensures AllDigits(Digits(n)) && DigitsValue(Digits(n)) == n
  {
    if n < 10 {
      assert Digits(n)[..0] == "";
    } else {
      DigitsAreDigits(n / 10);
      assert Digits(n)[..|Digits(n)| - 1] == Digits(n / 10);
      DigitOf(n % 10);
    }
  }

  lemma DigitOf(d: nat)
    requires d < 10
    ensures IsDigit(DigitChar(d)) && DigitValue(DigitChar(d)) == d
  {
  }

  function Pow10(k: nat): (p: nat)
    ensures p >= 1
  {
    if k == 0 then 1 else 10 * Pow10(k - 1)
  }

  lemma DivideTwice(n: nat, p: nat)
    requires p >= 1
    ensures (n / 10) / p == n / (10 * p)
  {
    var a, b := (n / 10) / p, (n / 10) % p;
    assert n / 10 == a * p + b;
    assert n == (10 * p) * a + (10 * b + n % 10) by {
      assert 10 * (a * p) == (10 * p) * a;
    }
    Quotient(n, 10 * p, a, 10 * b + n % 10);
  }

  lemma Quotient(n: nat, d: nat, q: nat, r: nat)
    requires d >= 1 && n == d * q + r && r < d
    ensures n / d == q
  {
    var q', r' := n / d, n % d;
    assert n == d * q' + r';
    MultiplesApart(q, q', d);
    MultiplesApart(q', q, d);
  }

  lemma MultiplesApart(a: nat, b: nat, d: nat)
    ensures a < b ==> d * a + d <= d * b
  {
    if a < b {
      assert d * a + d == d * (a + 1);
    }
  }

  /** Character i of s is the decimal digit of n for its place. */
  predicate IsDigitAt(s: string, n: nat, i: nat)
    requires i < |s|
  {
    s[i] as int == '0' as int + n / Pow10(|s| - 1 - i) % 10
  }

  /** The digits are the decimal ones, from the most significant on, without
      leading zeros. */
  lemma {:induction false} DecimalDigits(n: nat)
    ensures var s := Digits(n);
            && n < Pow10(|s|) && (|s| > 1 ==> Pow10(|s| - 1) <= n)
            && forall i: nat :: i < |s| ==> IsDigitAt(s, n, i)
  {
    if n >= 10 {
      DecimalDigits(n / 10);
      var front := Digits(n / 10);
      assert Digits(n) == front + [DigitChar(n % 10)];
      hide Digits, DigitChar, IsDigitAt, Pow10;
      MoreIsTen(|front|);
      MoreIsTen(|front| - 1);
      forall i: nat | i < |Digits(n)| ensures IsDigitAt(Digits(n), n, i) {
        if i < |front| {
          EarlierDigit(front, DigitChar(n % 10), n, i);
        } else {
          LastDigit(front, n);
        }
      }
    } else {
      DigitOf(n);
    }
  }

  lemma MoreIsTen(k: nat)
    ensures Pow10(0) == 1 && Pow10(k + 1) == 10 * Pow10(k)
  {
  }

  lemma EarlierDigit(front: string, last: char, n: nat, i: nat)
    requires i < |front| && IsDigitAt(front, n / 10, i)
    ensures IsDigitAt(front + [last], n, i)
  {
    DivideTwice(n, Pow10(|front| - 1 - i));
  }

  lemma LastDigit(front: string, n: nat)
    ensures IsDigitAt(front + [DigitChar(n % 10)], n, |front|)
  {
    hide DigitChar;
    DigitOf(n % 10);
  }

  /** What Atoi accepts: digits, with or without a sign in front, whose value is
      a 64-bit integer. */
  lemma AtoiOfDigits(s: string)
    requires s != "" && AllDigits(s)
    ensures var v: int := DigitsValue(s);
            && Atoi(s) == Atoi("+" + s) == (if v < 0x8000_0000_0000_0000 then Some(v) else None)
            && Atoi("-" + s) == (if v <= 0x8000_0000_0000_0000 then Some(-v) else None)
  {
    assert IsDigit(s[0]);
    assert ("+" + s)[1..] == s && ("-" + s)[1..] == s;
  }

  /** And nothing else. */
  lemma AtoiRefuses(s: string)
    requires Atoi(s).Some?
    ensures exists body :: body != "" && AllDigits(body) && (s == body || s == "+" + body || s == "-" + body)
  {
    if s[0] == '-' || s[0] == '+' {
      assert s == [s[0]] + s[1..] && AllDigits(s[1..]);
    }
  }

  /** Zeros in front do not matter. */
  lemma {:induction false} LeadingZero(s: string)
    requires AllDigits(s)
    ensures AllDigits("0" + s) && DigitsValue("0" + s) == DigitsValue(s)
    decreases |s|
  {
    if s == "" {
      assert "0"[..0] == "";
    } else {
      LeadingZero(s[..|s| - 1]);
      assert ("0" + s)[..|s|] == "0" + s[..|s| - 1];
    }
  }

  /** Parsing inverts printing on every machine integer. */
  lemma AtoiItoa(n: int)
    requires MIN_INT <= n <= MAX_INT
    ensures Atoi(Itoa(n)) == Some(n)
  {
    hide Digits, Atoi;
    var size := if n < 0 then -n else n;
    DigitsAreDigits(size);
    AtoiOfDigits(Digits(size));
  }

  lemma ItoaSign(n: int)
    ensures Itoa(n) != "" && (n < 0 <==> Itoa(n)[0] == '-')
    ensures Itoa(n)[if n < 0 then 1 else 0..] == Digits(if n < 0 then -n else n)
  {
    DigitsAreDigits(if n < 0 then -n else n);
  }

  /** Different numbers print differently. */
  lemma ItoaInjective(m: int, n: int)
    requires Itoa(m) == Itoa(n)
    ensures m == n
  {
    ItoaSign(m);
    ItoaSign(n);
    DigitsAreDigits(if m < 0 then -m else m);
    DigitsAreDigits(if n < 0 then -n else n);
  }

  /** A printed number contains digits and at most a minus sign. */
  lemma ItoaChars(n: int, c: char)
    requires !IsDigit(c) && c != '-'
    ensures c !in Itoa(n)
  {
    DigitsAreDigits(if n < 0 then -n else n);
  }
}
