/** isabelle-lsp/src/main.rs, `next_message_id`: identifiers of the form `msg-0001`. */
module MessageIds {
  const U64 := 0x1_0000_0000_0000_0000

  const DIGITS := "0123456789"

  function Decimal(n: nat): (s: string)
    ensures s != []
  {
    if n < 10 then [DIGITS[n]] else Decimal(n / 10) + [DIGITS[n % 10]]
  }

  function Zeros(k: nat): (s: string)
    ensures |s| == k && forall i | 0 <= i < k :: s[i] == '0'
  {
    seq(k, _ => '0')
  }

  /** Zero-padded to four digits; longer numbers are written in full. */
  function Padded(n: nat): string {
    var s := Decimal(n);
    if |s| < 4 then Zeros(4 - |s|) + s else s
  }

  function MessageId(n: nat): string {
    "msg-" + Padded(n)
  }

  /** The counter is a 64-bit atomic that starts at 1 and wraps around. */
  function IdOfRequest(k: nat): string {
    MessageId((1 + k) % U64)
  }

  function DigitValue(c: char): nat {
    if '0' <= c <= '9' then (c as int) - ('0' as int) else 0
  }

  function Value(s: string): nat {
    if s == [] then 0 else 10 * Value(s[..|s| - 1]) + DigitValue(s[|s| - 1])
  }

  lemma {:induction false} ValueOfDecimal(n: nat)
    ensures Value(Decimal(n)) == n
  {
    if n >= 10 {
      ValueOfDecimal(n / 10);
      assert Decimal(n)[..|Decimal(n)| - 1] == Decimal(n / 10);
      assert DigitValue(DIGITS[n % 10]) == n % 10;
    } else {
      assert Decimal(n)[..0] == [] && DigitValue(DIGITS[n]) == n;
    }
  }

  lemma {:induction false} LeadingZeros(k: nat, s: string)
    ensures Value(Zeros(k) + s) == Value(s)
  {
    if s == [] {
      ValueOfZeros(k);
      assert Zeros(k) + s == Zeros(k);
    } else {
      LeadingZeros(k, s[..|s| - 1]);
      assert (Zeros(k) + s)[..k + |s| - 1] == Zeros(k) + s[..|s| - 1];
    }
  }

  lemma {:induction false} ValueOfZeros(k: nat)
    ensures Value(Zeros(k)) == 0
  {
    if k > 0 {
      ValueOfZeros(k - 1);
      assert Zeros(k)[..k - 1] == Zeros(k - 1);
    }
  }

  /** The number can be read back from its identifier, padding or not. */
  lemma PaddedRoundTrip(n: nat)
    ensures Value(MessageId(n)[4..]) == n
  {
    assert MessageId(n)[4..] == Padded(n);
    ValueOfDecimal(n);
    if |Decimal(n)| < 4 {
      LeadingZeros(4 - |Decimal(n)|, Decimal(n));
    }
  }

  predicate IsDigits(s: string) {
    forall i | 0 <= i < |s| :: '0' <= s[i] <= '9'
  }

  lemma {:induction false} DecimalForm(n: nat)
    ensures IsDigits(Decimal(n)) && (|Decimal(n)| > 1 ==> Decimal(n)[0] != '0')
    ensures |Decimal(n)| == 1 <==> n < 10
  {
    if n >= 10 {
      DecimalForm(n / 10);
      assert n / 10 != 0;
      DigitForm(n % 10);
      if n / 10 < 10 {
        DigitForm(n / 10);
      }
    } else {
      DigitForm(n);
    }
  }

  lemma DigitForm(d: nat)
    requires d < 10
    ensures '0' <= DIGITS[d] <= '9' && (DIGITS[d] == '0' <==> d == 0)
  {
  }

  /** The form of an identifier: `msg-` and then digits, at least four of them, and more than four only
      without leading zeros.  With the number they stand for this fixes the identifier. */
  lemma IdForm(n: nat)
    ensures
      var id := MessageId(n);
      && |id| >= 8 && id[..4] == "msg-" && IsDigits(id[4..]) && (|id| > 8 ==> id[4] != '0')
  {
    DecimalForm(n);
    assert MessageId(n)[4..] == Padded(n);
  }

  lemma SuccessorWraps(a: nat, m: nat)
    requires m > 1
    ensures (1 + a) % m == if a % m == m - 1 then 0 else a % m + 1
  {
    var q, r := a / m, a % m;
    assert a == q * m + r;
    if r == m - 1 {
      assert 1 + a == (q + 1) * m;
      Remainder(q + 1, 0, m);
    } else {
      assert 1 + a == q * m + (r + 1);
      Remainder(q, r + 1, m);
    }
  }

  lemma Remainder(q: nat, r: nat, m: nat)
    requires r < m
    ensures (q * m + r) % m == r
  {
    var n := q * m + r;
    var p := n / m;
    assert n == p * m + n % m;
    assert p < q ==> (p + 1) * m <= q * m;
    assert q < p ==> (q + 1) * m <= p * m;
  }

  /** Identifiers collide exactly when the counter has gone all the way round in between. */
  lemma IdsCollideIff(a: nat, b: nat)
    ensures IdOfRequest(a) == IdOfRequest(b) <==> a % U64 == b % U64
  {
    PaddedRoundTrip((1 + a) % U64);
    PaddedRoundTrip((1 + b) % U64);
    SuccessorWraps(a, U64);
    SuccessorWraps(b, U64);
  }

  lemma ResiduesBelow(a: nat, b: nat, m: nat)
    requires a < m && b < m && a % m == b % m
    ensures a == b
  {
    Remainder(0, a, m);
    Remainder(0, b, m);
  }

  lemma IdsDiffer(j: nat, k: nat)
    requires j < U64 && k < U64 && j != k
    ensures IdOfRequest(j) != IdOfRequest(k)
  {
    IdsCollideIff(j, k);
    if IdOfRequest(j) == IdOfRequest(k) {
      ResiduesBelow(j, k, U64);
    }
  }
}
