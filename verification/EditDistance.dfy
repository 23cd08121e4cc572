/** `apps/cli/src/main.rs`: the row-rolling Levenshtein distance, and the filter that
    withdraws a suggestion of a destructive verb unless it is one edit away. */
module EditDistance {
  import opened Results

  // ---------- What an edit is ----------

  /** `v` is `u` with one character inserted, deleted or replaced, at any place. */
  ghost predicate OneEdit(u: string, v: string) {
    exists p: string, s: string, x: string, y: string ::
      |x| <= 1 && |y| <= 1 && x != y && u == p + x + s && v == p + y + s
  }

  /** Some chain of exactly `n` single edits leads from `u` to `v`. */
  ghost predicate Reaches(u: string, v: string, n: nat)
    decreases n
  {
    if n == 0 then u == v else exists w: string :: OneEdit(u, w) && Reaches(w, v, n - 1)
  }

  // ---------- The recurrence the table computes ----------

  function Min(a: nat, b: nat): nat { if a < b then a else b }

  function Init(s: string): string
    requires s != []
  {
    s[..|s| - 1]
  }

  function Last(s: string): char
    requires s != []
  {
    s[|s| - 1]
  }

  function Differ(x: char, y: char): nat { if x == y then 0 else 1 }

  function Distance(a: string, b: string): nat
    decreases |a| + |b|
  {
    if a == [] then |b|
    else if b == [] then |a|
    else Min(Min(Distance(Init(a), Init(b)) + Differ(Last(a), Last(b)),
                 Distance(Init(a), b) + 1),
             Distance(a, Init(b)) + 1)
  }

  lemma {:induction false} SelfDistance(a: string)
    ensures Distance(a, a) == 0
    decreases |a|
  {
    if a != [] { SelfDistance(Init(a)); }
  }

  /** Appending the same text to both words adds no distance. */
  lemma {:induction false} SharedSuffix(a: string, b: string, s: string)
    ensures Distance(a + s, b + s) <= Distance(a, b)
    decreases |s|
  {
    if s == [] {
      assert a + s == a && b + s == b;
    } else {
      SharedSuffix(a, b, Init(s));
      assert Init(a + s) == a + Init(s) && Init(b + s) == b + Init(s);
    }
  }

  lemma LastEdit(p: string, c: char, d: char)
    ensures Distance(p, p + [c]) <= 1 && Distance(p + [c], p) <= 1 && Distance(p + [c], p + [d]) <= 1
  {
    assert Init(p + [c]) == p && Init(p + [d]) == p;
    SelfDistance(p);
  }

  lemma PartsDistance(p: string, x: string, y: string)
    requires |x| <= 1 && |y| <= 1
    ensures Distance(p + x, p + y) <= 1
  {
    SelfDistance(p);
    if x == [] {
      assert p + x == p;
      if y != [] {
        assert y == [y[0]];
        LastEdit(p, y[0], y[0]);
      }
    } else {
      assert x == [x[0]];
      if y == [] {
        assert p + y == p;
        LastEdit(p, x[0], x[0]);
      } else {
        assert y == [y[0]];
        LastEdit(p, x[0], y[0]);
      }
    }
  }

  lemma OneEditDistance(u: string, v: string)
    requires OneEdit(u, v)
    ensures Distance(u, v) <= 1
  {
    var p, s, x, y :| |x| <= 1 && |y| <= 1 && x != y && u == p + x + s && v == p + y + s;
    SharedSuffix(p + x, p + y, s);
    PartsDistance(p, x, y);
  }

  lemma {:induction false} Triangle(a: string, b: string, c: string)
    ensures Distance(a, c) <= Distance(a, b) + Distance(b, c)
    decreases |a| + |b| + |c|
  {
    if a == [] {
      LengthBound(b, c);
    } else if c == [] {
      LengthBound(a, b);
    } else if b == [] {
      LengthSum(a, c);
    } else if Distance(a, b) == Distance(Init(a), b) + 1 {
      Triangle(Init(a), b, c);
    } else if Distance(b, c) == Distance(b, Init(c)) + 1 {
      Triangle(a, b, Init(c));
    } else if Distance(a, b) == Distance(a, Init(b)) + 1 {
      if Distance(b, c) == Distance(Init(b), c) + 1 {
        Triangle(a, Init(b), c);
      } else {
        Triangle(a, Init(b), Init(c));
      }
    } else if Distance(b, c) == Distance(Init(b), c) + 1 {
      Triangle(Init(a), Init(b), c);
    } else {
      Triangle(Init(a), Init(b), Init(c));
    }
  }

  lemma {:induction false} LengthBound(a: string, b: string)
    ensures |b| <= |a| + Distance(a, b)
    ensures |a| <= |b| + Distance(a, b)
    decreases |a| + |b|
  {
    if a != [] && b != [] {
      LengthBound(Init(a), Init(b));
      LengthBound(Init(a), b);
      LengthBound(a, Init(b));
    }
  }

  lemma {:induction false} LengthSum(a: string, b: string)
    ensures Distance(a, b) <= |a| + |b|
    decreases |a| + |b|
  {
    if a != [] && b != [] { LengthSum(Init(a), b); }
  }

  // ---------- Distance is the length of a shortest edit chain ----------

  lemma {:induction false} NoShorterChain(a: string, b: string, n: nat)
    requires Reaches(a, b, n)
    ensures Distance(a, b) <= n
    decreases n
  {
    if n == 0 {
      SelfDistance(a);
    } else {
      var w :| OneEdit(a, w) && Reaches(w, b, n - 1);
      NoShorterChain(w, b, n - 1);
      OneEditDistance(a, w);
      Triangle(a, w, b);
    }
  }

  lemma EditInContext(u: string, v: string, s: string)
    requires OneEdit(u, v)
    ensures OneEdit(u + s, v + s)
  {
    var p, t, x, y :| |x| <= 1 && |y| <= 1 && x != y && u == p + x + t && v == p + y + t;
    assert u + s == p + x + (t + s);
    assert v + s == p + y + (t + s);
  }

  lemma {:induction false} ChainInContext(u: string, v: string, n: nat, s: string)
    requires Reaches(u, v, n)
    ensures Reaches(u + s, v + s, n)
    decreases n
  {
    if n > 0 {
      var w :| OneEdit(u, w) && Reaches(w, v, n - 1);
      ChainInContext(w, v, n - 1, s);
      EditInContext(u, w, s);
    }
  }

  lemma {:induction false} ChainsJoin(u: string, v: string, w: string, m: nat, n: nat)
    requires Reaches(u, v, m) && Reaches(v, w, n)
    ensures Reaches(u, w, m + n)
    decreases m
  {
    if m > 0 {
      var t :| OneEdit(u, t) && Reaches(t, v, m - 1);
      ChainsJoin(t, v, w, m - 1, n);
      assert OneEdit(u, t) && Reaches(t, w, m + n - 1);
    }
  }

  lemma SingleEdit(p: string, x: string, y: string)
    requires |x| <= 1 && |y| <= 1 && x != y
    ensures Reaches(p + x, p + y, 1)
  {
    assert p + x == p + x + [] && p + y == p + y + [];
    assert OneEdit(p + x, p + y);
    assert Reaches(p + y, p + y, 0);
  }

  lemma DropLast(a: string, b: string, n: nat)
    requires a != [] && Reaches(Init(a), b, n)
    ensures Reaches(a, b, n + 1)
  {
    SingleEdit(Init(a), [Last(a)], []);
    assert Init(a) + [Last(a)] == a;
    assert Init(a) + [] == Init(a);
    ChainsJoin(a, Init(a), b, 1, n);
  }

  lemma AddLast(a: string, b: string, n: nat)
    requires b != [] && Reaches(a, Init(b), n)
    ensures Reaches(a, b, n + 1)
  {
    SingleEdit(Init(b), [], [Last(b)]);
    assert Init(b) + [Last(b)] == b;
    assert Init(b) + [] == Init(b);
    ChainsJoin(a, Init(b), b, n, 1);
  }

  lemma ReplaceLast(a: string, b: string, n: nat)
    requires a != [] && b != [] && Reaches(Init(a), Init(b), n)
    ensures Reaches(a, b, n + Differ(Last(a), Last(b)))
  {
    var x, y := [Last(a)], [Last(b)];
    ChainInContext(Init(a), Init(b), n, x);
    assert Init(a) + x == a;
    assert Init(b) + y == b;
    if Last(a) != Last(b) {
      assert x[0] != y[0];
      SingleEdit(Init(b), x, y);
      ChainsJoin(a, Init(b) + x, b, n, 1);
    }
  }

  lemma {:induction false} ChainOfDistance(a: string, b: string)
    ensures Reaches(a, b, Distance(a, b))
    decreases |a| + |b|
  {
    if a == [] && b == [] {
    } else if b == [] || (a != [] && Distance(a, b) == Distance(Init(a), b) + 1) {
      ChainOfDistance(Init(a), b);
      DropLast(a, b, Distance(Init(a), b));
    } else if a == [] || Distance(a, b) == Distance(a, Init(b)) + 1 {
      ChainOfDistance(a, Init(b));
      AddLast(a, b, Distance(a, Init(b)));
    } else {
      ChainOfDistance(Init(a), Init(b));
      ReplaceLast(a, b, Distance(Init(a), Init(b)));
    }
  }

  /** The distance is attained by some chain of edits, and by no shorter one. */
  lemma DistanceIsShortest(a: string, b: string)
    ensures Reaches(a, b, Distance(a, b))
    ensures forall n: nat :: Reaches(a, b, n) ==> Distance(a, b) <= n
  {
    ChainOfDistance(a, b);
    forall n: nat | Reaches(a, b, n)
      ensures Distance(a, b) <= n
    {
      NoShorterChain(a, b, n);
    }
  }

  lemma {:induction false} Symmetric(a: string, b: string)
    ensures Distance(a, b) == Distance(b, a)
    decreases |a| + |b|
  {
    if a != [] && b != [] {
      Symmetric(Init(a), Init(b));
      Symmetric(Init(a), b);
      Symmetric(a, Init(b));
    }
  }

  lemma IsMetric(a: string, b: string, c: string)
    ensures Distance(a, b) == 0 <==> a == b
    ensures Distance(a, b) == Distance(b, a)
    ensures Distance(a, c) <= Distance(a, b) + Distance(b, c)
  {
    DistanceIsShortest(a, b);
    SelfDistance(a);
    Symmetric(a, b);
    Triangle(a, b, c);
  }

  // ---------- The program ----------

  /** `row` is the start of line `i` of the table. */
  ghost predicate IsRow(a: string, b: string, i: nat, row: seq<nat>) {
    i <= |a| && |row| <= |b| + 1 && forall k :: 0 <= k < |row| ==> row[k] == Distance(a[..i], b[..k])
  }

  function Cell(a: string, b: string, prev: seq<nat>, row: seq<nat>, i: nat): nat
    requires i < |a| && 0 < |row| <= |b| && |prev| == |b| + 1
  {
    var j := |row| - 1;
    Min(Min(prev[j] + Differ(a[i], b[j]), prev[j + 1] + 1), row[j] + 1)
  }

  lemma CellExtendsRow(a: string, b: string, prev: seq<nat>, row: seq<nat>, i: nat)
    requires i < |a| && 0 < |row| <= |b| && |prev| == |b| + 1
    requires IsRow(a, b, i, prev) && IsRow(a, b, i + 1, row)
    ensures IsRow(a, b, i + 1, row + [Cell(a, b, prev, row, i)])
  {
    var j := |row| - 1;
    assert Init(a[..i + 1]) == a[..i];
    assert Init(b[..j + 1]) == b[..j];
  }

  lemma EdgesOfTable(a: string, b: string)
    ensures forall j :: 0 <= j <= |b| ==> Distance(a[..0], b[..j]) == j
    ensures forall i :: 0 <= i <= |a| ==> Distance(a[..i], b[..0]) == i
    ensures Distance(a[..|a|], b[..|b|]) == Distance(a, b)
  {
    assert a[..|a|] == a && b[..|b|] == b;
  }

  method EditDistance(a: string, b: string) returns (d: nat)
    ensures d == Distance(a, b)
  {
    EdgesOfTable(a, b);
    var prev: seq<nat> := [];
    for j := 0 to |b| + 1
      invariant |prev| == j && IsRow(a, b, 0, prev)
    {
      prev := prev + [j];
    }
    for i := 0 to |a|
      invariant |prev| == |b| + 1 && IsRow(a, b, i, prev)
    {
      var row: seq<nat> := [i + 1];
      for j := 0 to |b|
        invariant |row| == j + 1 && IsRow(a, b, i + 1, row)
      {
        CellExtendsRow(a, b, prev, row, i);
        var subst := prev[j] + Differ(a[i], b[j]);
        row := row + [Min(Min(subst, prev[j + 1] + 1), row[j] + 1)];
      }
      prev := row;
    }
    d := prev[|b|];
  }

  predicate IsDestructive(verb: string) {
    verb == "rm" || verb == "delete" || verb == "pair-rm"
  }

  /** The parts of a parse error the filter reads; `rest` is everything else it carries. */
  datatype ParseError<+T> = ParseError(
    invalidSubcommandKind: bool,
    typed: Option<string>,
    suggested: Option<seq<string>>,
    rest: T)

  /** Whether a suggestion survives: harmless, or reached from the typed word by at most one edit. */
  ghost predicate Keeps(typed: string, s: string) {
    s !in ["rm", "delete", "pair-rm"] || s == typed || OneEdit(typed, s)
  }

  ghost function Kept(typed: string, suggested: seq<string>): seq<string> {
    if suggested == [] then []
    else Kept(typed, AllButLast(suggested)) +
         (if Keeps(typed, suggested[|suggested| - 1]) then [suggested[|suggested| - 1]] else [])
  }

  function AllButLast(s: seq<string>): seq<string>
    requires s != []
  {
    s[..|s| - 1]
  }

  lemma WithinOneEdit(typed: string, s: string)
    ensures Distance(typed, s) <= 1 <==> s == typed || OneEdit(typed, s)
  {
    DistanceIsShortest(typed, s);
    SelfDistance(s);
    if OneEdit(typed, s) { OneEditDistance(typed, s); }
    if Distance(typed, s) == 1 {
      var w :| OneEdit(typed, w) && Reaches(w, s, 0);
    }
  }

  method KeepSuggestions(typed: string, suggested: seq<string>) returns (kept: seq<string>)
    ensures kept == Kept(typed, suggested)
  {
    kept := [];
    for i := 0 to |suggested|
      invariant kept == Kept(typed, suggested[..i])
    {
      var distance := EditDistance(typed, suggested[i]);
      WithinOneEdit(typed, suggested[i]);
      assert AllButLast(suggested[..i + 1]) == suggested[..i];
      if !IsDestructive(suggested[i]) || distance <= 1 {
        kept := kept + [suggested[i]];
      }
    }
    assert suggested[..|suggested|] == suggested;
  }

  lemma {:induction false} KeptIsShorter(typed: string, suggested: seq<string>)
    ensures |Kept(typed, suggested)| <= |suggested|
    ensures |Kept(typed, suggested)| == |suggested| ==> Kept(typed, suggested) == suggested
    decreases |suggested|
  {
    if suggested != [] { KeptIsShorter(typed, AllButLast(suggested)); }
  }

  method TightenDestructiveSuggestions<T>(err: ParseError<T>) returns (r: ParseError<T>)
    ensures r.invalidSubcommandKind == err.invalidSubcommandKind && r.typed == err.typed && r.rest == err.rest
    ensures !err.invalidSubcommandKind || err.typed.None? || err.suggested.None? ==> r == err
    ensures err.invalidSubcommandKind && err.typed.Some? && err.suggested.Some? ==>
      var kept := Kept(err.typed.value, err.suggested.value);
      r.suggested == if kept == [] && err.suggested.value != [] then None else Some(kept)
  {
    if !err.invalidSubcommandKind || err.typed.None? || err.suggested.None? {
      return err;
    }
    var suggested := err.suggested.value;
    var kept := KeepSuggestions(err.typed.value, suggested);
    KeptIsShorter(err.typed.value, suggested);
    r := err;
    if |kept| != |suggested| {
      if kept == [] {
        r := err.(suggested := None);
      } else {
        r := err.(suggested := Some(kept));
      }
    }
  }
}
