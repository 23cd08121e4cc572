/** `next_remote_session_id` of `apps/desktop/src/remote_control.rs`: `agent-`, the run's start in
    milliseconds, and the counter padded to four digits. */
module SessionIds {

  function Digit(d: nat): char
    requires d < 10
  {
    ('0' as int + d) as char
  }

  predicate IsDigit(c: char) { '0' <= c <= '9' }

  function Decimal(n: nat): (s: string)
    ensures s != [] && forall i :: 0 <= i < |s| ==> IsDigit(s[i])
  {
    if n < 10 then [Digit(n)] else Decimal(n / 10) + [Digit(n % 10)]
  }

  function Zeros(n: nat): string { seq(n, _ => '0') }

  /** At least four digits. */
  function Padded(n: nat): string {
    var d := Decimal(n);
    if |d| < 4 then Zeros(4 - |d|) + d else d
  }

  function Placeholder(run: nat, counter: nat): string {
    "agent-" + Decimal(run) + Padded(counter)
  }

  /** The process-wide sequence; `run` is fixed for its life. */
  class Minter {
    const run: nat
    var next: nat

    constructor (startMillis: nat)
      ensures run == startMillis && next == 1
    {
      run := startMillis;
      next := 1;
    }

    method NextRemoteSessionId() returns (id: string)
      modifies this
      ensures id == Placeholder(run, old(next)) && next == old(next) + 1
    {
      id := "agent-" + Decimal(run) + Padded(next);
      next := next + 1;
    }
  }

  // ---------- Reading digits back ----------

  function Value(s: string): int {
    if s == [] then 0 else Value(s[..|s| - 1]) * 10 + (s[|s| - 1] as int - '0' as int)
  }

  lemma {:induction false} ValueOfDecimal(n: nat)
    ensures Value(Decimal(n)) == n
    decreases n
  {
    var d := Decimal(n);
    if n < 10 {
      assert d[..0] == [];
    } else {
      ValueOfDecimal(n / 10);
      assert d[..|d| - 1] == Decimal(n / 10);
    }
  }

  lemma {:induction false} LeadingZeros(k: nat, s: string)
    ensures Value(Zeros(k) + s) == Value(s)
    decreases k + |s|
  {
    var t := Zeros(k) + s;
    if s != [] {
      assert t[..|t| - 1] == Zeros(k) + s[..|s| - 1];
      LeadingZeros(k, s[..|s| - 1]);
    } else if k > 0 {
      assert t[..|t| - 1] == Zeros(k - 1) + s;
      LeadingZeros(k - 1, s);
    }
  }

  lemma ValueOfPadded(n: nat)
    ensures Value(Padded(n)) == n
  {
    ValueOfDecimal(n);
    if |Decimal(n)| < 4 { LeadingZeros(4 - |Decimal(n)|, Decimal(n)); }
  }

  /** Two placeholders of runs whose stamps have equally many digits are equal only when run and
      counter are, however far the counters have outgrown their padding. */
  lemma PlaceholdersAreDistinct(r1: nat, c1: nat, r2: nat, c2: nat)
    requires |Decimal(r1)| == |Decimal(r2)|
    ensures Placeholder(r1, c1) == Placeholder(r2, c2) <==> r1 == r2 && c1 == c2
  {
    if Placeholder(r1, c1) == Placeholder(r2, c2) {
      var n := |Decimal(r1)|;
      Parts(r1, c1);
      Parts(r2, c2);
      assert Decimal(r1) == Decimal(r2) && Padded(c1) == Padded(c2);
      ValueOfDecimal(r1);
      ValueOfDecimal(r2);
      ValueOfPadded(c1);
      ValueOfPadded(c2);
    }
  }

  lemma Parts(run: nat, counter: nat)
    ensures var id := Placeholder(run, counter);
            id[6..6 + |Decimal(run)|] == Decimal(run) && id[6 + |Decimal(run)|..] == Padded(counter)
  {
  }

  // ---------- Stamps of unequal length ----------

  predicate AreDigits(s: string) { forall i :: 0 <= i < |s| ==> IsDigit(s[i]) }

  lemma {:induction false} NoLeadingZero(n: nat)
    ensures |Decimal(n)| > 1 ==> Decimal(n)[0] != '0'
    ensures n > 0 ==> Decimal(n)[0] != '0'
    decreases n
  {
    if n >= 10 { NoLeadingZero(n / 10); }
  }

  lemma {:induction false} DecimalOfValue(s: string)
    requires s != [] && AreDigits(s) && s[0] != '0'
    ensures Value(s) > 0 && Decimal(Value(s)) == s
    decreases |s|
  {
    var front, last := s[..|s| - 1], s[|s| - 1];
    assert IsDigit(last) && IsDigit(s[0]);
    if front == [] {
      assert Value(s) == last as int - '0' as int;
    } else {
      assert front[0] == s[0];
      DecimalOfValue(front);
      assert Value(s) / 10 == Value(front) && Value(s) % 10 == last as int - '0' as int;
      assert s == front + [last];
    }
  }

  /** The longer stamp begins with the shorter one, and goes on with a digit that can start a number. */
  predicate Extends(short: nat, long: nat) {
    var s, l := Decimal(short), Decimal(long);
    |s| < |l| && l[..|s|] == s && l[|s|] != '0'
  }

  lemma CollisionExtends(r1: nat, c1: nat, r2: nat, c2: nat)
    requires |Decimal(r1)| < |Decimal(r2)| && Placeholder(r1, c1) == Placeholder(r2, c2)
    ensures Extends(r1, r2)
  {
    WithoutPrefix(r1, c1);
    WithoutPrefix(r2, c2);
    ShorterFirst(Decimal(r1), Padded(c1), Decimal(r2), Padded(c2));
    NoLeadingZero(c1);
  }

  lemma WithoutPrefix(run: nat, counter: nat)
    ensures Placeholder(run, counter)[6..] == Decimal(run) + Padded(counter)
  {
  }

  lemma ShorterFirst(s: string, a: string, l: string, b: string)
    requires |s| < |l| && s + a == l + b && |b| >= 4
    ensures l[..|s|] == s && |a| > 4 && a[0] == l[|s|]
  {
    var whole := s + a;
    assert whole[..|s|] == s && whole[..|s|] == l[..|s|];
    assert whole[|s|] == a[0] && whole[|s|] == l[|s|];
  }

  lemma ExtensionCollides(r1: nat, r2: nat) returns (c1: nat, c2: nat)
    requires Extends(r1, r2)
    ensures c1 > 0 && c2 > 0 && Placeholder(r1, c1) == Placeholder(r2, c2)
  {
    var s, l := Decimal(r1), Decimal(r2);
    var digits := l[|s|..] + "0001";
    assert AreDigits(l);
    assert digits[0] == l[|s|];
    DecimalOfValue(digits);
    c1, c2 := Value(digits), 1;
    assert Decimal(1) == "1";
    assert Padded(c2) == "0001";
    assert Padded(c1) == digits;
    assert l == s + l[|s|..];
    assert "agent-" + s + (l[|s|..] + "0001") == "agent-" + (s + l[|s|..]) + "0001";
  }

  /** For a stamp with fewer digits than another, the two runs can give out one id exactly when the
      longer stamp extends the shorter by digits that do not start with a zero; counters from one on,
      as the program's are, already collide then. */
  lemma UnequalStampsCollideIff(r1: nat, r2: nat)
    requires |Decimal(r1)| < |Decimal(r2)|
    ensures (exists c1: nat, c2: nat :: Placeholder(r1, c1) == Placeholder(r2, c2)) <==> Extends(r1, r2)
    ensures (exists c1: nat, c2: nat :: c1 > 0 && c2 > 0 && Placeholder(r1, c1) == Placeholder(r2, c2)) <==> Extends(r1, r2)
  {
    forall c1: nat, c2: nat | Placeholder(r1, c1) == Placeholder(r2, c2)
      ensures Extends(r1, r2)
    {
      CollisionExtends(r1, c1, r2, c2);
    }
    if Extends(r1, r2) {
      var c1, c2 := ExtensionCollides(r1, r2);
    }
  }

  /** Every stamp from September 2001 to November 2286 has thirteen digits. */
  lemma StampsHaveThirteenDigits(run: nat)
    requires 1_000_000_000_000 <= run < 10_000_000_000_000
    ensures |Decimal(run)| == 13
  {
    assert Power10(6) == 1_000_000;
    assert Power10(12) == 1_000_000_000_000;
    DigitCount(run, 13);
  }

  function Power10(n: nat): nat { if n == 0 then 1 else 10 * Power10(n - 1) }

  lemma {:induction false} DigitCount(n: nat, k: nat)
    requires 1 < k && Power10(k - 1) <= n < Power10(k)
    ensures |Decimal(n)| == k
    decreases k
  {
    if k == 2 {
      assert Power10(1) == 10 && Power10(2) == 100;
      assert |Decimal(n / 10)| == 1;
    } else {
      DigitCount(n / 10, k - 1);
    }
  }

  /** What clients recognise a placeholder by. */
  lemma PlaceholderShape(run: nat, counter: nat)
    ensures var id := Placeholder(run, counter);
            id[..6] == "agent-" && |id| >= 11 && forall i :: 6 <= i < |id| ==> IsDigit(id[i])
  {
    var d := Decimal(counter);
    assert forall i :: 0 <= i < |Padded(counter)| ==> IsDigit(Padded(counter)[i]);
    WithoutPrefix(run, counter);
    var id := Placeholder(run, counter);
    assert forall i :: 6 <= i < |id| ==> id[i] == id[6..][i - 6];
  }
}
