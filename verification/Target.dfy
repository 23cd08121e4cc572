/** Id prefixes, `apps/cli/src/target.rs`: every verb takes a full id or a unique prefix of one. */
module Target {
  import opened Results

  const MIN_PREFIX: nat := 4

  datatype Candidate = Candidate(id: string, title: string)

  datatype Pick = Found(id: string) | NotFound | Ambiguous(hits: seq<Candidate>)

  predicate IsHexDigit(c: char) {
    '0' <= c <= '9' || 'a' <= c <= 'f' || 'A' <= c <= 'F'
  }

  predicate IsHexish(s: string) {
    forall i :: 0 <= i < |s| ==> IsHexDigit(s[i]) || s[i] == '-'
  }

  /** A full hyphenated UUID. */
  predicate IsFullId(s: string) {
    |s| == 36 && forall i :: 0 <= i < 36 ==>
      if i == 8 || i == 13 || i == 18 || i == 23 then s[i] == '-' else IsHexDigit(s[i])
  }

  predicate IsHit(arg: string, c: Candidate) { IsFullId(c.id) && arg <= c.id }

  /** The candidates that match, in the order listed. */
  function Hits(arg: string, cs: seq<Candidate>): (hits: seq<Candidate>)
    ensures forall c :: c in hits <==> c in cs && IsHit(arg, c)
    ensures |hits| <= |cs|
  {
    if cs == [] then []
    else
      assert cs == [cs[0]] + cs[1..];
      (if IsHit(arg, cs[0]) then [cs[0]] else []) + Hits(arg, cs[1..])
  }

  predicate IsKnown(arg: string, cs: seq<Candidate>) { exists i :: 0 <= i < |cs| && cs[i].id == arg }

  function PickTarget(arg: string, cs: seq<Candidate>): Pick {
    if IsKnown(arg, cs) then Found(arg)
    else if |arg| < MIN_PREFIX || !IsHexish(arg) then NotFound
    else
      var hits := Hits(arg, cs);
      if |hits| == 0 then NotFound
      else if |hits| == 1 then Found(hits[0].id)
      else Ambiguous(hits)
  }

  ghost predicate DistinctIds(cs: seq<Candidate>) {
    forall i, j :: 0 <= i < |cs| && 0 <= j < |cs| && cs[i].id == cs[j].id ==> i == j
  }

  const HEX := "0123456789abcdefABCDEF"

  predicate AreHex(s: string) { forall i :: 0 <= i < |s| ==> s[i] in HEX }

  /** The textual form of a UUID (section 4 of RFC 9562): groups of hexadecimal digits between hyphens. */
  predicate AreGroups(a: string, b: string, c: string, d: string, e: string) {
    && |a| == 8 && |b| == |c| == |d| == 4 && |e| == 12
    && AreHex(a) && AreHex(b) && AreHex(c) && AreHex(d) && AreHex(e)
  }

  ghost predicate IsUuid(s: string) {
    exists a, b, c, d, e :: AreGroups(a, b, c, d, e) && s == a + "-" + b + "-" + c + "-" + d + "-" + e
  }

  lemma HexDigitsAre(s: string)
    ensures AreHex(s) <==> forall i :: 0 <= i < |s| ==> IsHexDigit(s[i])
  {
    assert forall c: char :: IsHexDigit(c) <==> c in HEX;
  }

  lemma FullIdIffUuid(s: string)
    ensures IsFullId(s) <==> IsUuid(s)
  {
    if IsFullId(s) { FullIdSplits(s); }
    if a, b, c, d, e :| AreGroups(a, b, c, d, e) && s == a + "-" + b + "-" + c + "-" + d + "-" + e {
      GroupsJoin(a, b, c, d, e);
    }
  }

  lemma FullIdSplits(s: string)
    requires IsFullId(s)
    ensures IsUuid(s)
  {
    var a, b, c, d, e := s[..8], s[9..13], s[14..18], s[19..23], s[24..];
    HexDigitsAre(a); HexDigitsAre(b); HexDigitsAre(c); HexDigitsAre(d); HexDigitsAre(e);
    assert s == a + "-" + b + "-" + c + "-" + d + "-" + e;
  }

  lemma GroupsJoin(a: string, b: string, c: string, d: string, e: string)
    requires AreGroups(a, b, c, d, e)
    ensures IsFullId(a + "-" + b + "-" + c + "-" + d + "-" + e)
  {
    HexDigitsAre(a); HexDigitsAre(b); HexDigitsAre(c); HexDigitsAre(d); HexDigitsAre(e);
  }

  /** Long enough to be tried as a prefix of a UUID. */
  predicate IsTried(arg: string) {
    |arg| >= 4 && forall i :: 0 <= i < |arg| ==> arg[i] in HEX || arg[i] == '-'
  }

  lemma TriedAre(arg: string)
    ensures IsTried(arg) <==> |arg| >= MIN_PREFIX && IsHexish(arg)
  {
    assert forall c: char :: IsHexDigit(c) <==> c in HEX;
  }

  /** `x` is what `arg` names: itself, or the one UUID it begins. */
  ghost predicate Names(arg: string, cs: seq<Candidate>, x: string) {
    && IsKnown(x, cs)
    && (x == arg || (
          && !IsKnown(arg, cs) && IsTried(arg) && IsFullId(x) && arg <= x
          && forall c :: c in cs && IsHit(arg, c) ==> c.id == x))
  }

  lemma {:induction false} HitsAreDistinct(arg: string, cs: seq<Candidate>)
    requires DistinctIds(cs)
    ensures DistinctIds(Hits(arg, cs))
    decreases |cs|
  {
    if cs != [] {
      var rest := cs[1..];
      assert forall i :: 0 <= i < |rest| ==> rest[i] == cs[i + 1];
      HitsAreDistinct(arg, rest);
      var tail := Hits(arg, rest);
      forall i | 0 <= i < |tail|
        ensures tail[i].id != cs[0].id
      {
        assert tail[i] in tail;
        var j :| 0 <= j < |rest| && rest[j] == tail[i];
      }
    }
  }

  lemma NamedIsFound(arg: string, cs: seq<Candidate>, x: string)
    requires DistinctIds(cs) && Names(arg, cs, x) && x != arg
    ensures PickTarget(arg, cs) == Found(x)
  {
    TriedAre(arg);
    HitsAreDistinct(arg, cs);
    var hits := Hits(arg, cs);
    var i :| 0 <= i < |cs| && cs[i].id == x;
    assert cs[i] in hits;
    forall k | 0 <= k < |hits|
      ensures hits[k].id == x
    {
      assert hits[k] in hits;
    }
    AllOne(hits, x);
  }

  lemma DistinctAt(cs: seq<Candidate>, i: nat, j: nat)
    requires DistinctIds(cs) && i < |cs| && j < |cs| && cs[i].id == cs[j].id
    ensures i == j
  {
  }

  lemma AllOne(hits: seq<Candidate>, x: string)
    requires hits != [] && DistinctIds(hits) && forall k :: 0 <= k < |hits| ==> hits[k].id == x
    ensures |hits| == 1
  {
    if |hits| > 1 { DistinctAt(hits, 0, 1); }
  }

  lemma FoundIsNamed(arg: string, cs: seq<Candidate>, x: string)
    requires PickTarget(arg, cs) == Found(x) && !IsKnown(arg, cs)
    ensures Names(arg, cs, x)
  {
    TriedAre(arg);
    OnlyHit(Hits(arg, cs), x);
  }

  lemma OnlyHit(hits: seq<Candidate>, x: string)
    requires |hits| == 1 && hits[0].id == x
    ensures hits[0] in hits && forall c :: c in hits ==> c.id == x
  {
  }

  /** Sound and complete: an id is found exactly when the argument names it. */
  lemma FoundIffNamed(arg: string, cs: seq<Candidate>, x: string)
    requires DistinctIds(cs)
    ensures PickTarget(arg, cs) == Found(x) <==> Names(arg, cs, x)
  {
    if !IsKnown(arg, cs) {
      if Names(arg, cs, x) { NamedIsFound(arg, cs, x); }
      if PickTarget(arg, cs) == Found(x) { FoundIsNamed(arg, cs, x); }
    }
  }

  /** `hits` are what `cs` lists at these positions, one after the other. */
  predicate AreAt(hits: seq<Candidate>, cs: seq<Candidate>, at: seq<nat>) {
    && |at| == |hits| && (forall k :: 0 <= k < |at| ==> at[k] < |cs| && hits[k] == cs[at[k]])
    && (forall j, k :: 0 <= j < k < |at| ==> at[j] < at[k])
  }

  ghost predicate InOrder(hits: seq<Candidate>, cs: seq<Candidate>) {
    exists at :: AreAt(hits, cs, at)
  }

  function Later(at: seq<nat>): seq<nat> { seq(|at|, k requires 0 <= k < |at| => at[k] + 1) }

  lemma StillAt(hits: seq<Candidate>, cs: seq<Candidate>, at: seq<nat>)
    requires cs != [] && AreAt(hits, cs[1..], at)
    ensures AreAt(hits, cs, Later(at)) && AreAt([cs[0]] + hits, cs, [0] + Later(at))
  {
  }

  lemma {:induction false} HitsInOrder(arg: string, cs: seq<Candidate>) returns (at: seq<nat>)
    ensures AreAt(Hits(arg, cs), cs, at)
    decreases |cs|
  {
    if cs == [] {
      at := [];
    } else {
      var later := HitsInOrder(arg, cs[1..]);
      StillAt(Hits(arg, cs[1..]), cs, later);
      at := if IsHit(arg, cs[0]) then [0] + Later(later) else Later(later);
      assert [] + Hits(arg, cs[1..]) == Hits(arg, cs[1..]);
    }
  }

  /** Ambiguous lists all and only the matches, as listed, of which there are at least two with different
      ids. */
  lemma AmbiguousListsMatches(arg: string, cs: seq<Candidate>)
    requires DistinctIds(cs) && PickTarget(arg, cs).Ambiguous?
    ensures var hits := PickTarget(arg, cs).hits;
            && |hits| >= 2 && DistinctIds(hits) && InOrder(hits, cs) && !IsKnown(arg, cs) && IsTried(arg)
            && forall c :: c in hits <==> c in cs && IsFullId(c.id) && arg <= c.id
  {
    TriedAre(arg);
    HitsAreDistinct(arg, cs);
    var at := HitsInOrder(arg, cs);
  }

  /** Nothing is found exactly when nothing is named and no UUID matches. */
  lemma NotFoundIff(arg: string, cs: seq<Candidate>)
    ensures PickTarget(arg, cs) == NotFound <==>
              !IsKnown(arg, cs) && (IsTried(arg) ==> forall c :: c in cs ==> !IsHit(arg, c))
  {
    TriedAre(arg);
    var hits := Hits(arg, cs);
    if hits != [] { assert hits[0] in hits; }
  }

  /** An id that is no UUID is reached by its exact name only. */
  lemma OtherIdsMatchExactly(arg: string, cs: seq<Candidate>, x: string)
    requires DistinctIds(cs) && PickTarget(arg, cs) == Found(x) && !IsFullId(x)
    ensures arg == x
  {
    FoundIffNamed(arg, cs, x);
  }

  /** Typing more of an id that already resolves keeps it resolved, exactly as long as what is typed is
      not itself another known id. */
  lemma TypingMoreIsStable(arg: string, more: string, cs: seq<Candidate>, x: string)
    requires DistinctIds(cs) && PickTarget(arg, cs) == Found(x) && arg <= more <= x
    ensures PickTarget(more, cs) == Found(x) <==> more == x || !IsKnown(more, cs)
  {
    FoundIffNamed(arg, cs, x);
    FoundIffNamed(more, cs, x);
    if arg != x && more != x && !IsKnown(more, cs) {
      PrefixIsHexish(more, x);
      TriedAre(more);
      assert forall c :: c in cs && IsHit(more, c) ==> IsHit(arg, c);
    }
  }

  lemma PrefixIsHexish(s: string, x: string)
    requires IsFullId(x) && s <= x
    ensures IsHexish(s)
  {
    assert forall i :: 0 <= i < |s| ==> s[i] == x[i];
  }

  // ---------- Rewriting the argument ----------

  datatype Kind = Session | Terminal

  datatype Failure = TargetNotFound | TargetAmbiguous(hits: seq<Candidate>)

  class Command {
    var arg: string

    constructor (arg: string)
      ensures this.arg == arg
    {
      this.arg := arg;
    }

    /** `listed` is what the host lists, if it will; `agentScoped` is a caller that sees its own session only. */
    method ResolveInPlace(kind: Kind, listed: Option<seq<Candidate>>, agentScoped: bool) returns (r: Result<(), Failure>)
      modifies this
      ensures IsFullId(old(arg)) || listed.None? ==> r == Ok(()) && arg == old(arg)
      ensures !IsFullId(old(arg)) && listed.Some? ==>
        match PickTarget(old(arg), listed.value)
        case Found(id) => r == Ok(()) && arg == id
        case NotFound => arg == old(arg) && r == if kind.Session? && agentScoped then Ok(()) else Err(TargetNotFound)
        case Ambiguous(hits) => arg == old(arg) && r == Err(TargetAmbiguous(hits))
    {
      if IsFullId(arg) {
        return Ok(());
      }
      if listed.None? {
        return Ok(());
      }
      match PickTarget(arg, listed.value)
      case Found(id) =>
        arg := id;
        r := Ok(());
      case NotFound =>
        r := if kind.Session? && agentScoped then Ok(()) else Err(TargetNotFound);
      case Ambiguous(hits) =>
        r := Err(TargetAmbiguous(hits));
    }
  }

  /** A resolved argument resolves to itself, so the rewrite can be repeated. */
  lemma ResolvingTwiceIsOnce(arg: string, cs: seq<Candidate>, x: string)
    requires DistinctIds(cs) && PickTarget(arg, cs) == Found(x)
    ensures PickTarget(x, cs) == Found(x)
  {
    FoundIffNamed(arg, cs, x);
  }
}
