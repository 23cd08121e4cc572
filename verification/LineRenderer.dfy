/** The live line stream of `apps/cli/src/render.rs`: `LineRenderer` holds a tool call announced without
    arguments until its arguments, its result or the end of the turn arrive. */
module LineRenderer {
  import opened Results

  type Id = string

  /** An event by what its rendering depends on: `summary` is `input_summary` of the tool's input, and
      `shown` what `render_event` makes of the rest. */
  datatype Event =
    | ToolCallStarted(id: Id, name: string, summary: string)
    | ToolResult(id: Id, shown: Option<string>)
    | TurnEnded(line: string)
    | Other(shown: Option<string>)

  /** A printed line, with what it is about. */
  datatype Line = ToolLine(id: Id, name: string, summary: string) | Plain(text: string)

  function Text(l: Line): string {
    match l
    case ToolLine(_, name, summary) => if summary == "" then "→ " + name else "→ " + name + " " + summary
    case Plain(text) => text
  }

  function Shown(o: Option<string>): seq<Line> {
    match o case None => [] case Some(t) => [Plain(t)]
  }

  /** `render_event`: one event on its own. */
  function RenderEvent(e: Event): seq<Line> {
    match e
    case ToolCallStarted(id, name, summary) => [ToolLine(id, name, summary)]
    case ToolResult(_, shown) => Shown(shown)
    case TurnEnded(line) => [Plain(line)]
    case Other(shown) => Shown(shown)
  }

  // ---------- The renderer's memory ----------

  datatype Held = Held(id: Id, name: string)

  datatype State = State(deferred: seq<Held>, printed: set<Id>)

  predicate Holds(held: seq<Held>, id: Id) {
    exists h :: h in held && h.id == id
  }

  function Without(held: seq<Held>, id: Id): seq<Held> {
    if held == [] then []
    else if held[0].id == id then Without(held[1..], id)
    else [held[0]] + Without(held[1..], id)
  }

  function Position(held: seq<Held>, id: Id): (r: Option<nat>)
    ensures r.Some? ==> r.value < |held| && held[r.value].id == id && forall k :: 0 <= k < r.value ==> held[k].id != id
    ensures r.None? ==> !Holds(held, id)
  {
    if held == [] then None
    else if held[0].id == id then Some(0)
    else match Position(held[1..], id) case None => None case Some(k) => Some(k + 1)
  }

  function Ids(held: seq<Held>): set<Id> {
    set k | 0 <= k < |held| :: held[k].id
  }

  function Bare(h: Held): Line { ToolLine(h.id, h.name, "") }

  function BareLines(held: seq<Held>): seq<Line> {
    seq(|held|, k requires 0 <= k < |held| => Bare(held[k]))
  }

  datatype Rendered = Rendered(state: State, lines: seq<Line>)

  function Render(s: State, e: Event): Rendered {
    match e
    case ToolCallStarted(id, name, summary) =>
      if id in s.printed then Rendered(s, [])
      else if summary == "" then
        Rendered(if Holds(s.deferred, id) then s else s.(deferred := s.deferred + [Held(id, name)]), [])
      else Rendered(State(Without(s.deferred, id), s.printed + {id}), RenderEvent(e))
    case ToolResult(id, _) =>
      (match Position(s.deferred, id)
       case None => Rendered(s, RenderEvent(e))
       case Some(k) =>
         Rendered(State(s.deferred[..k] + s.deferred[k + 1..], s.printed + {id}), [Bare(s.deferred[k])] + RenderEvent(e)))
    case TurnEnded(_) => Rendered(State([], s.printed + Ids(s.deferred)), BareLines(s.deferred) + RenderEvent(e))
    case Other(_) => Rendered(s, RenderEvent(e))
  }

  class LineRenderer {
    var deferred: seq<Held>
    var printed: set<Id>

    constructor ()
      ensures Memory() == State([], {})
    {
      deferred, printed := [], {};
    }

    function Memory(): State
      reads this
    {
      State(deferred, printed)
    }

    method DropDeferred(id: Id)
      modifies this`deferred
      ensures deferred == Without(old(deferred), id)
    {
      var kept: seq<Held> := [];
      for k := 0 to |deferred|
        invariant deferred == old(deferred)
        invariant kept + Without(deferred[k..], id) == Without(deferred, id)
      {
        assert deferred[k..][1..] == deferred[k + 1..];
        if deferred[k].id != id {
          kept := kept + [deferred[k]];
        }
      }
      deferred := kept;
    }

    method Flush(id: Id) returns (lines: seq<Line>)
      modifies this
      ensures match Position(old(deferred), id)
              case None => lines == [] && Memory() == old(Memory())
              case Some(k) =>
                && lines == [Bare(old(deferred)[k])]
                && Memory() == State(old(deferred)[..k] + old(deferred)[k + 1..], old(printed) + {id})
    {
      var at := Position(deferred, id);
      if at.None? {
        return [];
      }
      var held := deferred[at.value];
      deferred := deferred[..at.value] + deferred[at.value + 1..];
      printed := printed + {held.id};
      lines := [Bare(held)];
    }

    method FlushAll() returns (lines: seq<Line>)
      modifies this
      ensures lines == BareLines(old(deferred)) && Memory() == State([], old(printed) + Ids(old(deferred)))
    {
      var held := deferred;
      deferred := [];
      lines := [];
      for k := 0 to |held|
        invariant deferred == [] && lines == BareLines(held[..k]) && printed == old(printed) + Ids(held[..k])
      {
        assert held[..k + 1] == held[..k] + [held[k]];
        assert Ids(held[..k + 1]) == Ids(held[..k]) + {held[k].id} by {
          assert forall i :: 0 <= i < k ==> held[..k + 1][i] == held[..k][i];
          assert held[..k + 1][k] == held[k];
        }
        printed := printed + {held[k].id};
        lines := lines + [Bare(held[k])];
      }
      assert held[..|held|] == held;
    }

    method Lines(e: Event) returns (lines: seq<Line>)
      modifies this
      ensures Rendered(Memory(), lines) == Render(old(Memory()), e)
    {
      match e
      case ToolCallStarted(id, name, summary) =>
        if id in printed {
          return [];
        }
        if summary == "" {
          if !Holds(deferred, id) {
            deferred := deferred + [Held(id, name)];
          }
          return [];
        }
        printed := printed + {id};
        DropDeferred(id);
        lines := RenderEvent(e);
      case ToolResult(id, _) =>
        lines := Flush(id);
        lines := lines + RenderEvent(e);
      case TurnEnded(_) =>
        lines := FlushAll();
        lines := lines + RenderEvent(e);
      case Other(_) => lines := RenderEvent(e);
    }
  }

  // ---------- A whole run ----------

  function After(es: seq<Event>, n: nat): State
    requires n <= |es|
  {
    if n == 0 then State([], {}) else Render(After(es, n - 1), es[n - 1]).state
  }

  /** What event `i` prints. */
  function LinesAt(es: seq<Event>, i: nat): seq<Line>
    requires i < |es|
  {
    Render(After(es, i), es[i]).lines
  }

  function Concat<T>(parts: seq<seq<T>>): seq<T> {
    if parts == [] then [] else Concat(parts[..|parts| - 1]) + parts[|parts| - 1]
  }

  /** What the first `n` events print. */
  function Output(es: seq<Event>, n: nat): seq<Line>
    requires n <= |es|
  {
    Concat(seq(n, i requires 0 <= i < n => LinesAt(es, i)))
  }

  // ---------- When a tool call should be printed ----------

  predicate Announces(e: Event, id: Id) { e.ToolCallStarted? && e.id == id && e.summary == "" }

  predicate Completes(e: Event, id: Id) { e.ToolCallStarted? && e.id == id && e.summary != "" }

  predicate Settles(e: Event, id: Id) { e.TurnEnded? || (e.ToolResult? && e.id == id) }

  predicate Announced(es: seq<Event>, n: nat, id: Id)
    requires n <= |es|
  {
    exists i :: 0 <= i < n && Announces(es[i], id)
  }

  /** Event `i` makes the call visible: it brings the arguments, or it settles an announced call. */
  predicate Shows(es: seq<Event>, i: nat, id: Id)
    requires i < |es|
  {
    Completes(es[i], id) || (Announced(es, i, id) && Settles(es[i], id))
  }

  predicate ShownBefore(es: seq<Event>, n: nat, id: Id)
    requires n <= |es|
  {
    exists i :: 0 <= i < n && Shows(es, i, id)
  }

  /** The earliest such event: where the call's one line belongs. */
  predicate ShowsFirst(es: seq<Event>, i: nat, id: Id)
    requires i < |es|
  {
    Shows(es, i, id) && !ShownBefore(es, i, id)
  }

  /** `name` is what the call was called when it was first announced. */
  predicate FirstName(es: seq<Event>, n: nat, id: Id, name: string)
    requires n <= |es|
  {
    exists i :: 0 <= i < n && Announces(es[i], id) && es[i].name == name && !Announced(es, i, id)
  }

  // ---------- The memory is what it should be ----------

  ghost predicate Distinct(held: seq<Held>) {
    forall i, j :: 0 <= i < |held| && 0 <= j < |held| && held[i].id == held[j].id ==> i == j
  }

  ghost predicate Remembers(es: seq<Event>, n: nat, s: State)
    requires n <= |es|
  {
    && Distinct(s.deferred)
    && (forall id :: id in s.printed <==> ShownBefore(es, n, id))
    && (forall id :: Holds(s.deferred, id) <==> Announced(es, n, id) && !ShownBefore(es, n, id))
    && (forall k :: 0 <= k < |s.deferred| ==> FirstName(es, n, s.deferred[k].id, s.deferred[k].name))
  }

  lemma {:induction false} WithoutIs(held: seq<Held>, id: Id)
    ensures forall h :: h in Without(held, id) <==> h in held && h.id != id
    decreases |held|
  {
    if held != [] {
      assert held == [held[0]] + held[1..];
      WithoutIs(held[1..], id);
    }
  }

  lemma {:induction false} WithoutDistinct(held: seq<Held>, id: Id)
    requires Distinct(held)
    ensures Distinct(Without(held, id))
    decreases |held|
  {
    if held != [] {
      var rest := held[1..];
      assert forall i :: 0 <= i < |rest| ==> rest[i] == held[i + 1];
      WithoutDistinct(rest, id);
      WithoutIs(rest, id);
      var w := Without(rest, id);
      assert forall k :: 0 <= k < |w| ==> w[k] in w;
    }
  }

  lemma RemoveAt(held: seq<Held>, k: nat)
    requires Distinct(held) && k < |held|
    ensures held[..k] + held[k + 1..] == Without(held, held[k].id)
    decreases k
  {
    if k == 0 {
      NothingToDrop(held[1..], held[0].id);
    } else {
      assert forall i :: 0 <= i < |held[1..]| ==> held[1..][i] == held[i + 1];
      RemoveAt(held[1..], k - 1);
      assert held[..k] + held[k + 1..] == [held[0]] + (held[1..][..k - 1] + held[1..][k..]);
    }
  }

  lemma {:induction false} NothingToDrop(held: seq<Held>, id: Id)
    requires forall k :: 0 <= k < |held| ==> held[k].id != id
    ensures Without(held, id) == held
    decreases |held|
  {
    if held != [] { NothingToDrop(held[1..], id); }
  }

  lemma NextEvent(es: seq<Event>, n: nat, id: Id)
    requires n < |es|
    ensures Announced(es, n + 1, id) <==> Announced(es, n, id) || Announces(es[n], id)
    ensures ShownBefore(es, n + 1, id) <==> ShownBefore(es, n, id) || Shows(es, n, id)
    ensures forall name :: FirstName(es, n, id, name) ==> FirstName(es, n + 1, id, name)
  {
  }

  /** The three ways the memory changes: one call printed, all held calls printed, one call held. */
  lemma PrintedOne(es: seq<Event>, n: nat, s: State, id: Id)
    requires n < |es| && Remembers(es, n, s) && !es[n].TurnEnded? && Shows(es, n, id)
    requires !(es[n].ToolCallStarted? && es[n].summary == "")
    ensures Remembers(es, n + 1, State(Without(s.deferred, id), s.printed + {id}))
  {
    WithoutIs(s.deferred, id);
    WithoutDistinct(s.deferred, id);
    var kept := Without(s.deferred, id);
    forall other
      ensures Holds(kept, other) <==> Holds(s.deferred, other) && other != id
    {
    }
    assert forall k :: 0 <= k < |kept| ==> kept[k] in kept;
    forall other
      ensures Announced(es, n + 1, other) <==> Announced(es, n, other)
      ensures ShownBefore(es, n + 1, other) <==> ShownBefore(es, n, other) || other == id
    {
      NextEvent(es, n, other);
    }
    forall k | 0 <= k < |kept|
      ensures FirstName(es, n + 1, kept[k].id, kept[k].name)
    {
      assert kept[k] in s.deferred;
      NextEvent(es, n, kept[k].id);
    }
  }

  lemma PrintedAll(es: seq<Event>, n: nat, s: State)
    requires n < |es| && Remembers(es, n, s) && es[n].TurnEnded?
    ensures Remembers(es, n + 1, State([], s.printed + Ids(s.deferred)))
  {
    var t := State([], s.printed + Ids(s.deferred));
    forall id
      ensures id in t.printed <==> ShownBefore(es, n + 1, id)
      ensures !Holds(t.deferred, id) && (Announced(es, n + 1, id) ==> ShownBefore(es, n + 1, id))
    {
      NextEvent(es, n, id);
      assert id in Ids(s.deferred) <==> Holds(s.deferred, id);
      assert Shows(es, n, id) <==> Announced(es, n, id);
    }
  }

  lemma HeldOne(es: seq<Event>, n: nat, s: State)
    requires n < |es| && Remembers(es, n, s) && es[n].ToolCallStarted? && es[n].summary == ""
    ensures Remembers(es, n + 1, Render(s, es[n]).state)
  {
    var id, t := es[n].id, Render(s, es[n]).state;
    forall other
      ensures Announced(es, n + 1, other) <==> Announced(es, n, other) || other == id
      ensures ShownBefore(es, n + 1, other) <==> ShownBefore(es, n, other)
    {
      NextEvent(es, n, other);
    }
    if t != s {
      var h := Held(id, es[n].name);
      assert !Announced(es, n, id) && Announces(es[n], id);
      assert FirstName(es, n + 1, id, es[n].name);
      forall other
        ensures Holds(t.deferred, other) <==> Holds(s.deferred, other) || other == id
      {
        assert t.deferred[|s.deferred|] == h;
        assert forall k :: 0 <= k < |s.deferred| ==> t.deferred[k] == s.deferred[k];
      }
    }
    forall k | 0 <= k < |s.deferred|
      ensures FirstName(es, n + 1, s.deferred[k].id, s.deferred[k].name)
    {
      NextEvent(es, n, s.deferred[k].id);
    }
  }

  lemma Unchanged(es: seq<Event>, n: nat, s: State)
    requires n < |es| && Remembers(es, n, s)
    requires forall id :: !Announces(es[n], id) && (Shows(es, n, id) ==> id in s.printed)
    ensures Remembers(es, n + 1, s)
  {
  }

  lemma RenderRemembers(es: seq<Event>, n: nat, s: State)
    requires n < |es| && Remembers(es, n, s)
    ensures Remembers(es, n + 1, Render(s, es[n]).state)
  {
    match es[n]
    case ToolCallStarted(id, name, summary) =>
      if summary == "" {
        HeldOne(es, n, s);
      } else if id in s.printed {
        Unchanged(es, n, s);
      } else {
        PrintedOne(es, n, s, id);
      }
    case ToolResult(id, _) =>
      var at := Position(s.deferred, id);
      if at.Some? {
        assert Holds(s.deferred, id);
        RemoveAt(s.deferred, at.value);
        PrintedOne(es, n, s, id);
      } else {
        Unchanged(es, n, s);
      }
    case TurnEnded(_) => PrintedAll(es, n, s);
    case Other(_) => Unchanged(es, n, s);
  }

  /** After any events: the printed ids are those already shown, the held ones those announced and not
      yet shown, each held once under the name it was first given. */
  lemma {:induction false} MemoryIsRight(es: seq<Event>, n: nat)
    requires n <= |es|
    ensures Remembers(es, n, After(es, n))
    decreases n
  {
    if n == 0 {
      NothingRemembered(es);
    } else {
      MemoryIsRight(es, n - 1);
      OneMoreRemembered(es, n - 1);
    }
  }

  lemma OneMoreRemembered(es: seq<Event>, n: nat)
    requires n < |es| && Remembers(es, n, After(es, n))
    ensures Remembers(es, n + 1, After(es, n + 1))
  {
    RenderRemembers(es, n, After(es, n));
  }

  lemma NothingRemembered(es: seq<Event>)
    ensures Remembers(es, 0, State([], {}))
  {
  }

  lemma HeldAndPrintedAreDisjoint(es: seq<Event>, n: nat)
    requires n <= |es|
    ensures var s := After(es, n); Distinct(s.deferred) && Ids(s.deferred) !! s.printed
  {
    MemoryIsRight(es, n);
    var s := After(es, n);
    assert forall id :: id in Ids(s.deferred) ==> Holds(s.deferred, id);
  }

  // ---------- Exactly one line per call ----------

  function LinesFor(lines: seq<Line>, id: Id): nat {
    if lines == [] then 0
    else LinesFor(lines[..|lines| - 1], id) +
         (if lines[|lines| - 1].ToolLine? && lines[|lines| - 1].id == id then 1 else 0)
  }

  lemma {:induction false} LinesForConcat(a: seq<Line>, b: seq<Line>, id: Id)
    ensures LinesFor(a + b, id) == LinesFor(a, id) + LinesFor(b, id)
    decreases |b|
  {
    if b == [] {
      assert a + b == a;
    } else {
      assert (a + b)[..|a + b| - 1] == a + b[..|b| - 1];
      LinesForConcat(a, b[..|b| - 1], id);
    }
  }

  lemma {:induction false} BareCount(held: seq<Held>, id: Id)
    requires Distinct(held)
    ensures LinesFor(BareLines(held), id) == if Holds(held, id) then 1 else 0
    decreases |held|
  {
    if held != [] {
      var front, last := held[..|held| - 1], held[|held| - 1];
      assert forall i :: 0 <= i < |front| ==> front[i] == held[i];
      BareCount(front, id);
      assert BareLines(held)[..|held| - 1] == BareLines(front);
      assert Holds(held, id) <==> Holds(front, id) || last.id == id;
      assert last.id == id ==> !Holds(front, id);
    }
  }

  lemma PlainCount(o: Option<string>, id: Id)
    ensures LinesFor(Shown(o), id) == 0
  {
  }

  /** One line at the first event that shows the call, none at any other. */
  lemma OneLineAt(es: seq<Event>, i: nat, id: Id)
    requires i < |es|
    ensures LinesFor(LinesAt(es, i), id) == if ShowsFirst(es, i, id) then 1 else 0
  {
    var s, e := After(es, i), es[i];
    MemoryIsRight(es, i);
    LinesForConcat([], RenderEvent(e), id);
    match e
    case ToolCallStarted(x, name, summary) =>
    case ToolResult(x, shown) =>
      PlainCount(shown, id);
      var at := Position(s.deferred, x);
      if at.Some? {
        LinesForConcat([Bare(s.deferred[at.value])], RenderEvent(e), id);
        assert Holds(s.deferred, x);
      }
    case TurnEnded(line) =>
      PlainCount(Some(line), id);
      BareCount(s.deferred, id);
      LinesForConcat(BareLines(s.deferred), RenderEvent(e), id);
    case Other(shown) => PlainCount(shown, id);
  }

  /** Over every run a tool call has one line if it was ever completed, or announced and then settled,
      and otherwise none: never a second one, never a call dropped. */
  lemma {:induction false} OneLinePerCall(es: seq<Event>, n: nat, id: Id)
    requires n <= |es|
    ensures LinesFor(Output(es, n), id) == if ShownBefore(es, n, id) then 1 else 0
    decreases n
  {
    if n > 0 {
      OneLinePerCall(es, n - 1, id);
      OneMoreEvent(es, n - 1, id, Output(es, n - 1));
      OutputGrows(es, n - 1);
    }
  }

  lemma OutputGrows(es: seq<Event>, n: nat)
    requires n < |es|
    ensures Output(es, n + 1) == Output(es, n) + LinesAt(es, n)
  {
    var parts := seq(n + 1, i requires 0 <= i < n + 1 => LinesAt(es, i));
    assert parts[..n] == seq(n, i requires 0 <= i < n => LinesAt(es, i));
  }

  lemma OneMoreEvent(es: seq<Event>, i: nat, id: Id, out: seq<Line>)
    requires i < |es| && LinesFor(out, id) == if ShownBefore(es, i, id) then 1 else 0
    ensures LinesFor(out + LinesAt(es, i), id) == if ShownBefore(es, i + 1, id) then 1 else 0
  {
    OneLineAt(es, i, id);
    NextEvent(es, i, id);
    LinesForConcat(out, LinesAt(es, i), id);
  }

  /** What that line says: the arguments if they came in time, else the name first announced. */
  lemma LineSaysWhatIsKnown(es: seq<Event>, i: nat, l: Line)
    requires i < |es| && l in LinesAt(es, i) && l.ToolLine?
    ensures ShowsFirst(es, i, l.id)
    ensures if Completes(es[i], l.id) then l == ToolLine(l.id, es[i].name, es[i].summary) && Text(l) == "→ " + es[i].name + " " + es[i].summary
            else l.summary == "" && FirstName(es, i, l.id, l.name) && Text(l) == "→ " + l.name
  {
    var s, e := After(es, i), es[i];
    MemoryIsRight(es, i);
    match e
    case ToolCallStarted(x, name, summary) =>
    case ToolResult(x, shown) =>
      var at := Position(s.deferred, x);
      assert l !in RenderEvent(e);
      assert at.Some?;
      assert l == Bare(s.deferred[at.value]);
      assert Holds(s.deferred, x);
    case TurnEnded(line) =>
      var k :| 0 <= k < |s.deferred| && l == Bare(s.deferred[k]);
      assert Holds(s.deferred, l.id);
    case Other(shown) => assert false;
  }

  /** The held calls an event settles, as lines. */
  function Flushed(s: State, e: Event): seq<Line> {
    match e
    case ToolResult(id, _) =>
      (match Position(s.deferred, id) case None => [] case Some(k) => [Bare(s.deferred[k])])
    case TurnEnded(_) => BareLines(s.deferred)
    case _ => []
  }

  lemma FlushedThenSaid(s: State, e: Event)
    requires !e.ToolCallStarted?
    ensures Render(s, e).lines == Flushed(s, e) + PlainLines(Said(e))
  {
    match e
    case ToolResult(_, shown) => assert Shown(shown) == PlainLines(Said(e));
    case TurnEnded(line) => assert [Plain(line)] == PlainLines(Said(e));
    case Other(shown) => assert Shown(shown) == PlainLines(Said(e));
  }

  lemma FlushedAreBare(s: State, e: Event, l: Line)
    requires l in Flushed(s, e)
    ensures l.ToolLine? && l.summary == ""
  {
  }

  /** Whatever an event flushes comes ahead of its own lines: these stand last and complete, and each
      line before them is the first and only one of a call the event settles, bare, under the name first
      announced. An announcement flushes nothing, and may be silent. */
  lemma FlushedLinesComeFirst(es: seq<Event>, i: nat) returns (flushed: seq<Line>)
    requires i < |es|
    ensures match es[i]
            case ToolCallStarted(id, name, summary) => LinesAt(es, i) == [] || LinesAt(es, i) == [ToolLine(id, name, summary)]
            case _ => LinesAt(es, i) == flushed + PlainLines(Said(es[i]))
    ensures forall l :: l in flushed ==> IsFlushed(es, i, l)
  {
    if es[i].ToolCallStarted? {
      flushed := [];
    } else {
      flushed := Flushed(After(es, i), es[i]);
      FlushedThenSaid(After(es, i), es[i]);
      forall l | l in flushed
        ensures IsFlushed(es, i, l)
      {
        FlushedAreBare(After(es, i), es[i], l);
        LineSaysWhatIsKnown(es, i, l);
      }
    }
  }

  function PlainLines(texts: seq<string>): seq<Line> {
    seq(|texts|, k requires 0 <= k < |texts| => Plain(texts[k]))
  }

  /** What an event has to say besides tool calls. */
  function Said(e: Event): seq<string> {
    match e
    case ToolCallStarted(_, _, _) => []
    case ToolResult(_, shown) => if shown == None then [] else [shown.value]
    case TurnEnded(line) => [line]
    case Other(shown) => if shown == None then [] else [shown.value]
  }

  ghost predicate IsFlushed(es: seq<Event>, i: nat, l: Line)
    requires i < |es|
  {
    l.ToolLine? && l.summary == "" && ShowsFirst(es, i, l.id) && FirstName(es, i, l.id, l.name)
  }

  // ---------- Everything else is the stateless stream ----------

  function PlainOnly(lines: seq<Line>): seq<string> {
    if lines == [] then []
    else PlainOnly(lines[..|lines| - 1]) +
         (if lines[|lines| - 1].Plain? then [lines[|lines| - 1].text] else [])
  }

  lemma {:induction false} PlainConcat(a: seq<Line>, b: seq<Line>)
    ensures PlainOnly(a + b) == PlainOnly(a) + PlainOnly(b)
    decreases |b|
  {
    if b == [] {
      assert a + b == a;
    } else {
      assert (a + b)[..|a + b| - 1] == a + b[..|b| - 1];
      PlainConcat(a, b[..|b| - 1]);
    }
  }

  lemma {:induction false} BareIsNotPlain(lines: seq<Line>)
    requires forall k :: 0 <= k < |lines| ==> lines[k].ToolLine?
    ensures PlainOnly(lines) == []
    decreases |lines|
  {
    if lines != [] { BareIsNotPlain(lines[..|lines| - 1]); }
  }

  function PlainParts(parts: seq<seq<Line>>): seq<seq<string>> {
    seq(|parts|, i requires 0 <= i < |parts| => PlainOnly(parts[i]))
  }

  lemma {:induction false} PlainOfConcat(parts: seq<seq<Line>>)
    ensures PlainOnly(Concat(parts)) == Concat(PlainParts(parts))
    decreases |parts|
  {
    if parts != [] {
      var front := parts[..|parts| - 1];
      PlainOfConcat(front);
      PlainConcat(Concat(front), parts[|parts| - 1]);
      assert PlainParts(parts)[..|parts| - 1] == PlainParts(front);
    }
  }

  /** What the first `n` events have to say. */
  function AllSaid(es: seq<Event>, n: nat): seq<string>
    requires n <= |es|
  {
    Concat(seq(n, i requires 0 <= i < n => Said(es[i])))
  }

  /** Nothing else is lost, added or reordered: apart from tool-call lines the output is what the events
      say, event after event. */
  lemma EverythingIsSaid(es: seq<Event>, n: nat)
    requires n <= |es|
    ensures PlainOnly(Output(es, n)) == AllSaid(es, n)
  {
    var parts := seq(n, i requires 0 <= i < n => LinesAt(es, i));
    PlainOfConcat(parts);
    forall i | 0 <= i < n
      ensures PlainOnly(parts[i]) == Said(es[i])
    {
      LinesAreSaid(es, i);
    }
    assert PlainParts(parts) == seq(n, i requires 0 <= i < n => Said(es[i]));
  }

  lemma LinesAreSaid(es: seq<Event>, i: nat)
    requires i < |es|
    ensures PlainOnly(LinesAt(es, i)) == Said(es[i])
  {
    EventIsSaid(After(es, i), es[i]);
  }

  lemma EventIsSaid(s: State, e: Event)
    ensures PlainOnly(Render(s, e).lines) == Said(e)
  {
    PlainPartIsStateless(s, e);
    match e
    case ToolCallStarted(id, name, summary) => BareIsNotPlain(RenderEvent(e));
    case ToolResult(_, shown) => PlainOfShown(shown);
    case TurnEnded(line) => PlainOfShown(Some(line));
    case Other(shown) => PlainOfShown(shown);
  }

  lemma PlainOfShown(o: Option<string>)
    ensures PlainOnly(Shown(o)) == if o == None then [] else [o.value]
  {
    if o.Some? { assert [Plain(o.value)][..0] == []; }
  }

  /** The stream rendered event by event, with no memory. */
  function Stateless(es: seq<Event>): seq<Line> {
    Concat(seq(|es|, i requires 0 <= i < |es| => RenderEvent(es[i])))
  }

  /** Apart from tool-call lines, the stream is the stateless one. */
  lemma OnlyToolLinesDiffer(es: seq<Event>)
    ensures PlainOnly(Output(es, |es|)) == PlainOnly(Stateless(es))
  {
    var ours := seq(|es|, i requires 0 <= i < |es| => LinesAt(es, i));
    var theirs := seq(|es|, i requires 0 <= i < |es| => RenderEvent(es[i]));
    PlainOfConcat(ours);
    PlainOfConcat(theirs);
    forall i | 0 <= i < |es|
      ensures PlainOnly(ours[i]) == PlainOnly(theirs[i])
    {
      PlainPartIsStateless(After(es, i), es[i]);
    }
    assert PlainParts(ours) == PlainParts(theirs);
  }

  lemma PlainPartIsStateless(s: State, e: Event)
    ensures PlainOnly(Render(s, e).lines) == PlainOnly(RenderEvent(e))
  {
    match e
    case ToolCallStarted(x, name, summary) => BareIsNotPlain(RenderEvent(e));
    case ToolResult(x, shown) =>
      var at := Position(s.deferred, x);
      if at.Some? {
        var flushed := [Bare(s.deferred[at.value])];
        BareIsNotPlain(flushed);
        PlainConcat(flushed, RenderEvent(e));
      }
    case TurnEnded(line) =>
      BareIsNotPlain(BareLines(s.deferred));
      PlainConcat(BareLines(s.deferred), RenderEvent(e));
    case Other(shown) =>
  }
}
