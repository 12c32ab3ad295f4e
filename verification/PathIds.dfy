/** Ids arrive as the digits of a request path. The routes compare them with the caller's id as text, the database
    compares them as numbers. */
module PathIds {
  predicate Digits(s: string) { forall k :: 0 <= k < |s| ==> '0' <= s[k] <= '9' }

  type PathId = s: string | s != "" && Digits(s) witness "0"

  function Number(s: string): nat
    requires Digits(s)
  {
    if s == "" then 0 else 10 * Number(s[..|s| - 1]) + (s[|s| - 1] as int - '0' as int)
  }

  function Decimal(n: nat): string {
    (if n < 10 then "" else Decimal(n / 10)) + [(n % 10 + '0' as int) as char]
  }

  /** Without a leading zero. */
  predicate Plain(s: PathId) { |s| == 1 || s[0] != '0' }

  lemma LastDigit(front: string, c: char)
    requires '0' <= c <= '9' && Digits(front)
    ensures Digits(front + [c]) && Number(front + [c]) == 10 * Number(front) + (c as int - '0' as int)
  {
    assert (front + [c])[..|front + [c]| - 1] == front;
  }

  lemma {:induction false} DecimalIsPlain(n: nat)
    ensures Digits(Decimal(n)) && Decimal(n) != "" && Plain(Decimal(n)) && (n > 0 ==> Decimal(n)[0] != '0')
  {
    if n >= 10 { DecimalIsPlain(n / 10); }
  }

  lemma {:induction false} DecimalReadsBack(n: nat)
    ensures Digits(Decimal(n)) && Number(Decimal(n)) == n
  {
    DecimalIsPlain(n);
    var c := (n % 10 + '0' as int) as char;
    if n >= 10 {
      DecimalReadsBack(n / 10);
      LastDigit(Decimal(n / 10), c);
      assert Decimal(n) == Decimal(n / 10) + [c];
    } else {
      LastDigit("", c);
      assert Decimal(n) == [] + [c];
    }
  }

  lemma DecimalAppends(m: nat, d: nat)
    requires d < 10
    ensures Decimal(10 * m + d) == (if m == 0 then "" else Decimal(m)) + [(d + '0' as int) as char]
  {
    assert (10 * m + d) / 10 == m && (10 * m + d) % 10 == d;
  }

  predicate ReadsBack(s: string) { Digits(s) && Decimal(Number(s)) == s && Number(s) > 0 }

  lemma OneDigit(c: char)
    requires '0' <= c <= '9'
    ensures Digits([c]) && Decimal(Number([c])) == [c] && (c != '0' ==> ReadsBack([c]))
  {
    LastDigit("", c);
    DecimalAppends(0, c as int - '0' as int);
    assert [] + [c] == [c];
  }

  lemma OneMoreDigit(front: string, c: char)
    requires '0' <= c <= '9' && ReadsBack(front)
    ensures ReadsBack(front + [c])
  {
    LastDigit(front, c);
    DecimalAppends(Number(front), c as int - '0' as int);
  }

  lemma {:induction false} PositiveReadsBack(s: PathId)
    requires s[0] != '0'
    ensures ReadsBack(s)
  {
    var n := |s| - 1;
    if n == 0 {
      assert s == [s[0]];
      OneDigit(s[0]);
    } else {
      PositiveReadsBack(s[..n]);
      OneMoreDigit(s[..n], s[n]);
      assert s == s[..n] + [s[n]];
    }
  }

  /** The two comparisons agree exactly on ids without leading zeros. */
  lemma TextMeansNumber(s: PathId, n: nat)
    ensures s == Decimal(n) <==> Number(s) == n && Plain(s)
  {
    DecimalReadsBack(n);
    DecimalIsPlain(n);
    if s[0] != '0' {
      PositiveReadsBack(s);
    } else if |s| == 1 {
      OneDigit(s[0]);
      assert s == [s[0]];
    }
  }

  /** Another spelling of an id. */
  function Padded(n: nat): (s: PathId)
    ensures Number(s) == n && !Plain(s)
  {
    DecimalIsPlain(n);
    DecimalReadsBack(n);
    ZeroInFront(Decimal(n));
    ['0'] + Decimal(n)
  }

  lemma {:induction false} ZeroInFront(s: string)
    requires Digits(s)
    ensures Digits(['0'] + s) && Number(['0'] + s) == Number(s)
  {
    if s == "" {
      LastDigit("", '0');
      assert ['0'] + s == "" + ['0'];
    } else {
      var front, c := s[..|s| - 1], s[|s| - 1];
      ZeroInFront(front);
      LastDigit(['0'] + front, c);
      assert ['0'] + s == ['0'] + front + [c];
    }
  }
}
