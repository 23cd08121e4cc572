/** `balanced_span` of `apps/cli/src/output_schema.rs`: find the text of a JSON object or array
    inside prose by counting one kind of bracket and skipping strings. */
module SpanScanner {
  import opened Results
  import opened JsonText

  // ---------- The automaton ----------

  datatype Scan = Scan(depth: int, inString: bool, escaped: bool)

  function Closer(open: char): char { if open == '{' then '}' else ']' }

  predicate IsOpener(c: char) { c == '{' || c == '[' }

  function Step(open: char, s: Scan, c: char): Scan {
    if s.inString then
      if s.escaped then s.(escaped := false)
      else if c == '\\' then s.(escaped := true)
      else if c == '"' then s.(inString := false)
      else s
    else if c == '"' then s.(inString := true)
    else if c == open then s.(depth := s.depth + 1)
    else if c == Closer(open) then s.(depth := s.depth - 1)
    else s
  }

  function Shift(n: nat, r: Option<nat>): Option<nat> {
    match r case None => None case Some(k) => Some(n + k)
  }

  /** How many characters of `text` are read until a closing bracket brings the depth to zero. */
  function CloseAt(open: char, s: Scan, text: string): (r: Option<nat>)
    ensures r.Some? ==> 0 < r.value <= |text|
    decreases |text|
  {
    if text == [] then None
    else
      var next := Step(open, s, text[0]);
      if next.depth < s.depth && next.depth == 0 then Some(1)
      else Shift(1, CloseAt(open, next, text[1..]))
  }

  function FirstOpener(text: string): (r: Option<nat>)
    ensures r.Some? ==> r.value < |text| && IsOpener(text[r.value]) && NoOpener(text[..r.value])
    ensures r.None? ==> NoOpener(text)
  {
    if text == [] then None
    else if IsOpener(text[0]) then Some(0)
    else
      var r := Shift(1, FirstOpener(text[1..]));
      assert text == [text[0]] + text[1..];
      assert r.Some? ==> text[..r.value] == [text[0]] + text[1..][..r.value - 1];
      r
  }

  predicate NoOpener(text: string) {
    forall i :: 0 <= i < |text| ==> text[i] != '{' && text[i] != '['
  }

  const OUTSIDE := Scan(0, false, false)

  function BalancedSpan(text: string): Option<string> {
    match FirstOpener(text)
    case None => None
    case Some(start) =>
      match CloseAt(text[start], OUTSIDE, text[start..])
      case None => None
      case Some(n) => Some(text[start..start + n])
  }

  // ---------- What the span is, for any text ----------

  /** The automaton after all of `text`, started outside any string at depth zero. */
  function After(open: char, s: Scan, text: string): Scan
    decreases |text|
  {
    if text == [] then s else Step(open, After(open, s, text[..|text| - 1]), text[|text| - 1])
  }

  lemma {:induction false} AfterFirst(open: char, s: Scan, text: string)
    requires text != []
    ensures After(open, s, text) == After(open, Step(open, s, text[0]), text[1..])
    decreases |text|
  {
    var front, last := text[..|text| - 1], text[|text| - 1];
    if |text| == 1 {
      assert front == [];
    } else {
      AfterFirst(open, s, front);
      assert text[1..][..|text| - 2] == front[1..];
    }
  }

  /** Starting above zero (or on an opening bracket), `CloseAt` is the first prefix of depth zero. */
  lemma {:induction false} CloseAtIsFirstZero(open: char, s: Scan, text: string)
    requires IsOpener(open) && s.depth >= 0
    requires s.depth > 0 || (text != [] && text[0] == open && !s.inString)
    ensures match CloseAt(open, s, text)
            case Some(n) =>
              && 0 < n <= |text| && After(open, s, text[..n]).depth == 0
              && forall e :: 0 < e < n ==> After(open, s, text[..e]).depth > 0
            case None => forall e :: 0 < e <= |text| ==> After(open, s, text[..e]).depth > 0
    decreases |text|
  {
    if text != [] {
      var next := Step(open, s, text[0]);
      var rest := text[1..];
      forall e | 0 < e <= |text|
        ensures After(open, s, text[..e]) == After(open, next, rest[..e - 1])
      {
        AfterFirst(open, s, text[..e]);
        assert text[..e][1..] == rest[..e - 1];
      }
      if next.depth < s.depth && next.depth == 0 {
        assert rest[..0] == [];
      } else {
        CloseAtIsFirstZero(open, next, rest);
        var n := CloseAt(open, next, rest);
        forall e | 0 < e <= (if n.Some? then n.value else |text|) && e <= |text|
          ensures After(open, s, text[..e]).depth > 0
        {
          if e == 1 { assert rest[..0] == []; } else { assert After(open, next, rest[..e - 1]).depth > 0; }
        }
      }
    }
  }

  /** `text[start..end]` runs from the first bracket of `text` to where the depth first returns to zero. */
  ghost predicate IsShortestSpan(text: string, start: int, end: int) {
    && 0 <= start < end <= |text| && IsOpener(text[start]) && NoOpener(text[..start])
    && After(text[start], OUTSIDE, text[start..end]).depth == 0
    && forall e :: start < e < end ==> After(text[start], OUTSIDE, text[start..e]).depth > 0
  }

  lemma FirstOpenerIs(text: string, start: nat)
    requires start < |text| && IsOpener(text[start]) && NoOpener(text[..start])
    ensures FirstOpener(text) == Some(start)
    decreases |text|
  {
    if start > 0 {
      assert !IsOpener(text[..start][0]);
      assert text[1..][..start - 1] == text[..start][1..];
      FirstOpenerIs(text[1..], start - 1);
    }
  }

  lemma TailSpans(text: string, start: nat)
    requires start < |text|
    ensures forall e :: start < e <= |text| ==> text[start..e] == text[start..][..e - start]
  {
  }

  /** Some span is returned exactly when one exists, and it is the shortest. */
  lemma SpanIsShortest(text: string)
    ensures match BalancedSpan(text)
            case Some(span) => exists i, j :: IsShortestSpan(text, i, j) && span == text[i..j]
            case None => !exists i, j :: IsShortestSpan(text, i, j)
  {
    forall i, j | IsShortestSpan(text, i, j)
      ensures BalancedSpan(text) == Some(text[i..j])
    {
      SpanIsUnique(text, i, j);
    }
    if BalancedSpan(text).Some? {
      var start := FirstOpener(text).value;
      CloseAtIsFirstZero(text[start], OUTSIDE, text[start..]);
      TailSpans(text, start);
      var n := CloseAt(text[start], OUTSIDE, text[start..]).value;
      assert IsShortestSpan(text, start, start + n);
    }
  }

  lemma SpanIsUnique(text: string, i: int, j: int)
    requires IsShortestSpan(text, i, j)
    ensures BalancedSpan(text) == Some(text[i..j])
  {
    FirstOpenerIs(text, i);
    CloseAtIsFirstZero(text[i], OUTSIDE, text[i..]);
    TailSpans(text, i);
    var n := CloseAt(text[i], OUTSIDE, text[i..]);
    assert After(text[i], OUTSIDE, text[i..][..j - i]).depth == 0;
    if n.Some? {
      assert After(text[i], OUTSIDE, text[i..][..n.value]).depth == 0;
      assert text[i..][..n.value] == text[i..i + n.value];
    }
  }

  // ---------- JSON text keeps the depth ----------

  function Outside(depth: nat): Scan { Scan(depth, false, false) }

  function Inside(depth: nat): Scan { Scan(depth, true, false) }

  /** The automaton after `text`, or `None` when the depth returns to zero on the way. */
  function Pass(open: char, s: Scan, text: string): Option<Scan>
    decreases |text|
  {
    if text == [] then Some(s)
    else
      var next := Step(open, s, text[0]);
      if next.depth < s.depth && next.depth == 0 then None else Pass(open, next, text[1..])
  }

  /** Reading `text` from `s` leads back to `s`. */
  predicate Neutral(open: char, s: Scan, text: string) {
    Pass(open, s, text) == Some(s)
  }

  lemma {:induction false} PassConcat(open: char, s: Scan, a: string, b: string)
    requires Pass(open, s, a).Some?
    ensures Pass(open, s, a + b) == Pass(open, Pass(open, s, a).value, b)
    decreases |a|
  {
    if a == [] {
      assert a + b == b;
    } else {
      PassConcat(open, Step(open, s, a[0]), a[1..], b);
      assert (a + b)[1..] == a[1..] + b;
    }
  }

  lemma {:induction false} CloseAfterPass(open: char, s: Scan, a: string, rest: string)
    requires Pass(open, s, a).Some?
    ensures CloseAt(open, s, a + rest) == Shift(|a|, CloseAt(open, Pass(open, s, a).value, rest))
    decreases |a|
  {
    if a == [] {
      assert a + rest == rest;
    } else {
      CloseAfterPass(open, Step(open, s, a[0]), a[1..], rest);
      assert (a + rest)[1..] == a[1..] + rest;
    }
  }

  lemma Join(open: char, s: Scan, a: string, b: string)
    requires Neutral(open, s, a) && Neutral(open, s, b)
    ensures Neutral(open, s, a + b)
  {
    PassConcat(open, s, a, b);
  }

  /** Characters that mean nothing to the automaton outside a string. */
  predicate IsQuiet(s: string) {
    forall i :: 0 <= i < |s| ==> IsQuietChar(s[i])
  }

  predicate IsQuietChar(c: char) {
    c != '"' && c != '{' && c != '}' && c != '[' && c != ']'
  }

  lemma {:induction false} QuietIsNeutral(open: char, depth: nat, s: string)
    requires IsOpener(open) && IsQuiet(s)
    ensures Neutral(open, Outside(depth), s)
    decreases |s|
  {
    if s != [] {
      assert IsQuietChar(s[0]);
      QuietIsNeutral(open, depth, s[1..]);
    }
  }

  lemma BlankIsQuiet(s: string)
    requires IsBlank(s)
    ensures IsQuiet(s)
  {
  }

  lemma DigitsAreQuiet(s: string)
    requires AllDigits(s)
    ensures IsQuiet(s)
  {
  }

  lemma NumberIsQuiet(n: Number)
    requires IsNumber(n)
    ensures IsQuiet(NumberText(n))
  {
    DigitsAreQuiet(n.whole);
    if n.frac != [] {
      DigitsAreQuiet(n.frac[1..]);
      assert n.frac == [n.frac[0]] + n.frac[1..];
    }
    if n.exp != [] {
      if AllDigits(n.exp[1..]) {
        DigitsAreQuiet(n.exp[1..]);
        assert n.exp == [n.exp[0]] + n.exp[1..];
      } else {
        DigitsAreQuiet(n.exp[2..]);
        assert n.exp == [n.exp[0], n.exp[1]] + n.exp[2..];
      }
    }
  }

  lemma {:induction false} PlainIsNeutral(open: char, depth: nat, s: string)
    requires forall i :: 0 <= i < |s| ==> s[i] != '"' && s[i] != '\\'
    ensures Neutral(open, Inside(depth), s)
    decreases |s|
  {
    if s != [] { PlainIsNeutral(open, depth, s[1..]); }
  }

  lemma PieceIsNeutral(open: char, depth: nat, p: Piece)
    requires IsPiece(p)
    ensures Neutral(open, Inside(depth), PieceText(p))
  {
    match p
    case Plain(c) => PlainIsNeutral(open, depth, [c]);
    case Short(code) => EscapeIsNeutral(open, depth, code);
    case Hex(digits) =>
      EscapeIsNeutral(open, depth, 'u');
      PlainIsNeutral(open, depth, digits);
      Join(open, Inside(depth), "\\u", digits);
  }

  /** An escape covers the one character after the backslash, whatever it is. */
  lemma EscapeIsNeutral(open: char, depth: nat, code: char)
    ensures Neutral(open, Inside(depth), "\\" + [code])
  {
    var text := "\\" + [code];
    assert text[1..] == [code];
    assert Pass(open, Scan(depth, true, true), [code]) == Some(Inside(depth));
  }

  lemma {:induction false} PiecesAreNeutral(open: char, depth: nat, ps: seq<Piece>)
    requires ArePieces(ps)
    ensures Neutral(open, Inside(depth), PiecesText(ps))
    decreases |ps|
  {
    if ps != [] {
      PieceIsNeutral(open, depth, ps[0]);
      PiecesAreNeutral(open, depth, ps[1..]);
      Join(open, Inside(depth), PieceText(ps[0]), PiecesText(ps[1..]));
    }
  }

  lemma StringIsNeutral(open: char, depth: nat, ps: seq<Piece>)
    requires IsOpener(open) && ArePieces(ps)
    ensures Neutral(open, Outside(depth), StringText(ps))
  {
    var body := "\"" + PiecesText(ps);
    PiecesAreNeutral(open, depth, ps);
    PassConcat(open, Outside(depth), "\"", PiecesText(ps));
    PassConcat(open, Outside(depth), body, "\"");
  }

  /** Depth between the brackets of a value that starts with `bracket`: only one kind is counted. */
  function Within(open: char, bracket: char, depth: nat): nat {
    if open == bracket then depth + 1 else depth
  }

  lemma BracketedIsNeutral(open: char, bracket: char, depth: nat, body: string)
    requires IsOpener(open) && IsOpener(bracket) && depth > 0
    requires Neutral(open, Outside(Within(open, bracket, depth)), body)
    ensures Neutral(open, Outside(depth), [bracket] + body + [Closer(bracket)])
  {
    PassConcat(open, Outside(depth), [bracket], body);
    PassConcat(open, Outside(depth), [bracket] + body, [Closer(bracket)]);
  }

  /** Below the outermost bracket, a whole value leaves the automaton where it was. */
  lemma {:induction false} ValueIsNeutral(open: char, depth: nat, v: Value)
    requires IsOpener(open) && depth > 0 && IsValue(v)
    ensures Neutral(open, Outside(depth), Text(v))
    decreases v, 0
  {
    match v
    case Word(t) => QuietIsNeutral(open, depth, t);
    case Num(n) =>
      NumberIsQuiet(n);
      QuietIsNeutral(open, depth, NumberText(n));
    case Str(ps) => StringIsNeutral(open, depth, ps);
    case Array(blank, items) =>
      ItemsAreNeutral(open, Within(open, '[', depth), items);
      ArrayBody(open, Within(open, '[', depth), v);
      BracketedValue(open, '[', depth, v);
    case Object(blank, members) =>
      MembersAreNeutral(open, Within(open, '{', depth), members);
      ObjectBody(open, Within(open, '{', depth), v);
      BracketedValue(open, '{', depth, v);
  }

  lemma BracketedValue(open: char, bracket: char, depth: nat, v: Value)
    requires IsOpener(open) && depth > 0
    requires (bracket == '[' && v.Array?) || (bracket == '{' && v.Object?)
    requires Neutral(open, Outside(Within(open, bracket, depth)), Body(v))
    ensures Neutral(open, Outside(depth), Text(v))
  {
    BracketedIsNeutral(open, bracket, depth, Body(v));
    BodyInBrackets(v);
  }

  lemma BodyInBrackets(v: Value)
    requires v.Array? || v.Object?
    ensures var bracket := if v.Array? then '[' else '{';
            Text(v) == [bracket] + Body(v) + [Closer(bracket)]
  {
  }

  /** What stands between the brackets. */
  function Body(v: Value): string
    requires v.Array? || v.Object?
  {
    match v
    case Array(blank, items) => blank + ItemsText(items)
    case Object(blank, members) => blank + MembersText(members)
  }

  lemma ArrayBody(open: char, depth: nat, v: Value)
    requires IsOpener(open) && v.Array? && IsValue(v)
    requires Neutral(open, Outside(depth), ItemsText(v.items))
    ensures Neutral(open, Outside(depth), Body(v))
  {
    BlankIsQuiet(v.blank);
    QuietIsNeutral(open, depth, v.blank);
    Join(open, Outside(depth), v.blank, ItemsText(v.items));
  }

  lemma ObjectBody(open: char, depth: nat, v: Value)
    requires IsOpener(open) && v.Object? && IsValue(v)
    requires Neutral(open, Outside(depth), MembersText(v.members))
    ensures Neutral(open, Outside(depth), Body(v))
  {
    BlankIsQuiet(v.blank);
    QuietIsNeutral(open, depth, v.blank);
    Join(open, Outside(depth), v.blank, MembersText(v.members));
  }

  lemma {:induction false} ItemIsNeutral(open: char, depth: nat, it: Item)
    requires IsOpener(open) && depth > 0 && IsItem(it)
    ensures Neutral(open, Outside(depth), ItemText(it))
    decreases it, 1
  {
    var s := Outside(depth);
    BlankIsQuiet(it.before);
    BlankIsQuiet(it.after);
    QuietIsNeutral(open, depth, it.before);
    ValueIsNeutral(open, depth, it.value);
    QuietIsNeutral(open, depth, it.after);
    Join(open, s, it.before, Text(it.value));
    Join(open, s, it.before + Text(it.value), it.after);
  }

  lemma {:induction false} ItemsAreNeutral(open: char, depth: nat, items: seq<Item>)
    requires IsOpener(open) && depth > 0 && AreItems(items)
    ensures Neutral(open, Outside(depth), ItemsText(items))
    decreases items, 2
  {
    if items != [] {
      var s := Outside(depth);
      ItemIsNeutral(open, depth, items[0]);
      var tail := if |items| == 1 then "" else "," + ItemsText(items[1..]);
      if |items| > 1 {
        ItemsAreNeutral(open, depth, items[1..]);
        QuietIsNeutral(open, depth, ",");
        Join(open, s, ",", ItemsText(items[1..]));
      }
      Join(open, s, ItemText(items[0]), tail);
    }
  }

  lemma KeyIsNeutral(open: char, depth: nat, m: Member)
    requires IsOpener(open) && IsBlank(m.before) && ArePieces(m.key) && IsBlank(m.afterKey)
    ensures Neutral(open, Outside(depth), m.before + StringText(m.key) + m.afterKey + ":")
  {
    var s := Outside(depth);
    BlankIsQuiet(m.before);
    BlankIsQuiet(m.afterKey);
    QuietIsNeutral(open, depth, m.before);
    StringIsNeutral(open, depth, m.key);
    QuietIsNeutral(open, depth, m.afterKey);
    QuietIsNeutral(open, depth, ":");
    Join(open, s, m.before, StringText(m.key));
    Join(open, s, m.before + StringText(m.key), m.afterKey);
    Join(open, s, m.before + StringText(m.key) + m.afterKey, ":");
  }

  lemma {:induction false} MembersAreNeutral(open: char, depth: nat, ms: seq<Member>)
    requires IsOpener(open) && depth > 0 && AreMembers(ms)
    ensures Neutral(open, Outside(depth), MembersText(ms))
    decreases ms, 2
  {
    if ms != [] {
      var s, m := Outside(depth), ms[0];
      var head := m.before + StringText(m.key) + m.afterKey + ":";
      KeyIsNeutral(open, depth, m);
      ItemIsNeutral(open, depth, m.item);
      Join(open, s, head, ItemText(m.item));
      var tail := if |ms| == 1 then "" else "," + MembersText(ms[1..]);
      if |ms| > 1 {
        MembersAreNeutral(open, depth, ms[1..]);
        QuietIsNeutral(open, depth, ",");
        Join(open, s, ",", MembersText(ms[1..]));
      }
      Join(open, s, head + ItemText(m.item), tail);
    }
  }

  lemma CloserCloses(bracket: char, suffix: string)
    requires IsOpener(bracket)
    ensures CloseAt(bracket, Outside(1), [Closer(bracket)] + suffix) == Some(1)
  {
    assert ([Closer(bracket)] + suffix)[0] == Closer(bracket);
  }

  lemma ClosesAtEnd(bracket: char, body: string, suffix: string)
    requires IsOpener(bracket) && Neutral(bracket, Outside(1), body)
    ensures CloseAt(bracket, OUTSIDE, [bracket] + body + ([Closer(bracket)] + suffix)) == Some(|body| + 2)
  {
    var head := [bracket] + body;
    assert Pass(bracket, OUTSIDE, [bracket]) == Some(Outside(1));
    PassConcat(bracket, OUTSIDE, [bracket], body);
    CloseAfterPass(bracket, OUTSIDE, head, [Closer(bracket)] + suffix);
    CloserCloses(bracket, suffix);
  }

  lemma ClosesAtEndOfValue(v: Value, suffix: string)
    requires IsValue(v) && (v.Array? || v.Object?)
    ensures IsOpener(Text(v)[0]) && CloseAt(Text(v)[0], OUTSIDE, Text(v) + suffix) == Some(|Text(v)|)
  {
    var bracket := if v.Array? then '[' else '{';
    if v.Array? {
      ItemsAreNeutral(bracket, 1, v.items);
      ArrayBody(bracket, 1, v);
    } else {
      MembersAreNeutral(bracket, 1, v.members);
      ObjectBody(bracket, 1, v);
    }
    ClosesAtEnd(bracket, Body(v), suffix);
    BodyInBrackets(v);
    assert Text(v) + suffix == [bracket] + Body(v) + ([Closer(bracket)] + suffix);
  }

  /** Any serialization of any object or array, after prose without a bracket and before anything at
      all, is found exactly. */
  lemma JsonSpanIsFound(prefix: string, v: Value, suffix: string)
    requires IsValue(v) && (v.Array? || v.Object?) && NoOpener(prefix)
    ensures BalancedSpan(prefix + Text(v) + suffix) == Some(Text(v))
  {
    var text, start := prefix + Text(v) + suffix, |prefix|;
    ClosesAtEndOfValue(v, suffix);
    assert text[start..] == Text(v) + suffix;
    assert text[start] == Text(v)[0];
    assert text[..start] == prefix;
    FirstOpenerIs(text, start);
    assert text[start..start + |Text(v)|] == Text(v);
  }

  // ---------- Any text, in tokens ----------

  /** A text outside strings, character by character, and its strings as wholes; in a string a backslash
      takes the next character with it. */
  datatype Token = Bare(c: char) | Quoted(bites: seq<Bite>)

  datatype Bite = One(c: char) | Escaped(c: char)

  predicate AreBites(bs: seq<Bite>) {
    forall i :: 0 <= i < |bs| ==> bs[i].One? ==> bs[i].c != '"' && bs[i].c != '\\'
  }

  predicate IsToken(t: Token) {
    match t case Bare(c) => c != '"' case Quoted(bites) => AreBites(bites)
  }

  predicate AreTokens(ts: seq<Token>) {
    forall i :: 0 <= i < |ts| ==> IsToken(ts[i])
  }

  function BiteText(b: Bite): string {
    match b case One(c) => [c] case Escaped(c) => "\\" + [c]
  }

  function BitesText(bs: seq<Bite>): string {
    if bs == [] then "" else BiteText(bs[0]) + BitesText(bs[1..])
  }

  function TokenText(t: Token): string {
    match t case Bare(c) => [c] case Quoted(bites) => "\"" + BitesText(bites) + "\""
  }

  function TokensText(ts: seq<Token>): string {
    if ts == [] then "" else TokensText(ts[..|ts| - 1]) + TokenText(ts[|ts| - 1])
  }

  /** Brackets of the one kind opened and not closed, strings not counted. */
  function Balance(open: char, ts: seq<Token>): int {
    if ts == [] then 0 else Balance(open, ts[..|ts| - 1]) + Weight(open, ts[|ts| - 1])
  }

  function Weight(open: char, t: Token): int {
    if t == Bare(open) then 1 else if t == Bare(if open == '{' then '}' else ']') then -1 else 0
  }

  /** What a text may end in after its last token: a string that is never closed. */
  datatype Tail = NoTail | Unclosed(bites: seq<Bite>, dangling: bool)

  predicate IsTail(t: Tail) { t.Unclosed? ==> AreBites(t.bites) }

  function TailText(t: Tail): string {
    match t case NoTail => "" case Unclosed(bites, dangling) => "\"" + BitesText(bites) + (if dangling then "\\" else "")
  }

  lemma {:induction false} BitesAreNeutral(open: char, depth: nat, bs: seq<Bite>)
    requires AreBites(bs)
    ensures Neutral(open, Inside(depth), BitesText(bs))
    decreases |bs|
  {
    if bs != [] {
      if bs[0].One? { PlainIsNeutral(open, depth, [bs[0].c]); } else { EscapeIsNeutral(open, depth, bs[0].c); }
      BitesAreNeutral(open, depth, bs[1..]);
      Join(open, Inside(depth), BiteText(bs[0]), BitesText(bs[1..]));
    }
  }

  lemma QuotedIsNeutral(open: char, depth: nat, bs: seq<Bite>)
    requires IsOpener(open) && AreBites(bs)
    ensures Neutral(open, Outside(depth), TokenText(Quoted(bs)))
  {
    var body := "\"" + BitesText(bs);
    BitesAreNeutral(open, depth, bs);
    PassConcat(open, Outside(depth), "\"", BitesText(bs));
    PassConcat(open, Outside(depth), body, "\"");
  }

  /** The balance stays above zero all the way, from the first token on. */
  predicate StaysOpen(open: char, ts: seq<Token>) {
    forall k :: 0 < k <= |ts| ==> Balance(open, ts[..k]) > 0
  }

  lemma TokenPasses(open: char, depth: nat, t: Token)
    requires IsOpener(open) && IsToken(t) && depth + Weight(open, t) > 0
    ensures Pass(open, Outside(depth), TokenText(t)) == Some(Outside(depth + Weight(open, t)))
  {
    match t
    case Bare(c) => assert Pass(open, Step(open, Outside(depth), c), []) == Some(Step(open, Outside(depth), c));
    case Quoted(bites) => QuotedIsNeutral(open, depth, bites);
  }

  lemma Snoc(ts: seq<Token>, t: Token)
    ensures TokensText(ts + [t]) == TokensText(ts) + TokenText(t)
  {
    assert (ts + [t])[..|ts|] == ts;
  }

  lemma {:induction false} TokensPass(open: char, ts: seq<Token>)
    requires IsOpener(open) && AreTokens(ts) && StaysOpen(open, ts)
    ensures Balance(open, ts) >= 0 && Pass(open, OUTSIDE, TokensText(ts)) == Some(Outside(Balance(open, ts)))
    decreases |ts|
  {
    if ts != [] {
      var front, last := ts[..|ts| - 1], ts[|ts| - 1];
      assert forall k :: 0 < k <= |front| ==> front[..k] == ts[..k];
      TokensPass(open, front);
      assert ts[..|ts|] == ts && IsToken(last);
      TokenPasses(open, Balance(open, front), last);
      PassOn(open, Balance(open, front), TokensText(front), Balance(open, ts), TokenText(last));
    }
  }

  lemma PassOn(open: char, depth: nat, a: string, depth': nat, b: string)
    requires Pass(open, OUTSIDE, a) == Some(Outside(depth)) && Pass(open, Outside(depth), b) == Some(Outside(depth'))
    ensures Pass(open, OUTSIDE, a + b) == Some(Outside(depth'))
  {
    PassConcat(open, OUTSIDE, a, b);
  }

  lemma TailPasses(open: char, depth: nat, t: Tail)
    requires IsOpener(open) && IsTail(t)
    ensures Pass(open, Outside(depth), TailText(t)).Some?
  {
    if t.Unclosed? {
      BitesAreNeutral(open, depth, t.bites);
      PassConcat(open, Outside(depth), "\"", BitesText(t.bites));
      PassConcat(open, Outside(depth), "\"" + BitesText(t.bites), if t.dangling then "\\" else "");
    }
  }

  /** The tokens run from an opening bracket to where as many of its kind are closed as were opened. */
  ghost predicate IsClosedRun(ts: seq<Token>) {
    && AreTokens(ts) && ts != [] && ts[0].Bare? && IsOpener(ts[0].c)
    && Balance(ts[0].c, ts) == 0 && StaysOpen(ts[0].c, ts[..|ts| - 1])
  }

  lemma RunCloses(ts: seq<Token>, suffix: string)
    requires IsClosedRun(ts)
    ensures CloseAt(ts[0].c, OUTSIDE, TokensText(ts) + suffix) == Some(|TokensText(ts)|)
  {
    var open, front, last := ts[0].c, ts[..|ts| - 1], ts[|ts| - 1];
    TokensPass(open, front);
    assert front != [] ==> front[..|front|] == front;
    assert TokensText(ts) + suffix == TokensText(front) + (TokenText(last) + suffix);
    CloseAfterPass(open, OUTSIDE, TokensText(front), TokenText(last) + suffix);
  }

  lemma {:induction false} FirstToken(ts: seq<Token>)
    requires ts != [] && ts[0].Bare?
    ensures TokensText(ts) != "" && TokensText(ts)[0] == ts[0].c
    decreases |ts|
  {
    var front := ts[..|ts| - 1];
    if front == [] { assert ts == [ts[0]]; } else { FirstToken(front); }
  }

  /** In any text at all: after a first part without brackets, what is returned is the run of tokens in
      which the brackets of the first kind balance, whatever follows it. */
  lemma ClosedRunIsFound(prefix: string, ts: seq<Token>, suffix: string)
    requires NoOpener(prefix) && IsClosedRun(ts)
    ensures BalancedSpan(prefix + TokensText(ts) + suffix) == Some(TokensText(ts))
  {
    var text := prefix + TokensText(ts) + suffix;
    FirstToken(ts);
    assert text[..|prefix|] == prefix && text[|prefix|..] == TokensText(ts) + suffix;
    FirstOpenerIs(text, |prefix|);
    RunCloses(ts, suffix);
    assert text[|prefix|..|prefix| + |TokensText(ts)|] == TokensText(ts);
  }

  lemma RunStaysOpen(open: char, ts: seq<Token>, tail: Tail)
    requires IsOpener(open) && AreTokens(ts) && IsTail(tail) && StaysOpen(open, ts)
    ensures CloseAt(open, OUTSIDE, TokensText(ts) + TailText(tail)) == None
  {
    TokensPass(open, ts);
    CloseAfterPass(open, OUTSIDE, TokensText(ts), TailText(tail));
    TailPasses(open, Balance(open, ts), tail);
    PassedIsOpen(open, Outside(Balance(open, ts)), TailText(tail));
  }

  lemma PassedIsOpen(open: char, s: Scan, text: string)
    requires Pass(open, s, text).Some?
    ensures CloseAt(open, s, text) == None
  {
    CloseAfterPass(open, s, text, "");
    assert text + "" == text;
  }

  /** And nothing is returned from a text that ends before they balance, in a string or not. */
  lemma OpenRunIsNotFound(prefix: string, ts: seq<Token>, tail: Tail)
    requires NoOpener(prefix) && AreTokens(ts) && IsTail(tail)
    requires ts != [] && ts[0].Bare? && IsOpener(ts[0].c) && StaysOpen(ts[0].c, ts)
    ensures BalancedSpan(prefix + (TokensText(ts) + TailText(tail))) == None
  {
    FirstToken(ts);
    RunStaysOpen(ts[0].c, ts, tail);
    NothingCloses(prefix, TokensText(ts), TailText(tail));
  }

  lemma NothingCloses(prefix: string, run: string, tail: string)
    requires NoOpener(prefix) && run != "" && IsOpener(run[0]) && CloseAt(run[0], OUTSIDE, run + tail) == None
    ensures BalancedSpan(prefix + (run + tail)) == None
  {
    var text := prefix + (run + tail);
    assert text[..|prefix|] == prefix && text[|prefix|..] == run + tail;
    FirstOpenerIs(text, |prefix|);
  }

  // ---------- Every text is made of tokens ----------

  /** From behind a quotation mark: the rest of the string, and the text after it. */
  lemma {:induction false} SplitString(text: string) returns (bites: seq<Bite>, closed: bool, dangling: bool, rest: string)
    ensures AreBites(bites)
    ensures text == BitesText(bites) + if closed then "\"" + rest else if dangling then "\\" else ""
    ensures closed ==> |rest| < |text|
    decreases |text|
  {
    if text == "" {
      bites, closed, dangling, rest := [], false, false, "";
    } else if text[0] == '"' {
      bites, closed, dangling, rest := [], true, false, text[1..];
    } else if text == "\\" {
      bites, closed, dangling, rest := [], false, true, "";
    } else {
      var first := if text[0] == '\\' then Escaped(text[1]) else One(text[0]);
      var more;
      more, closed, dangling, rest := SplitString(text[|BiteText(first)|..]);
      bites := [first] + more;
      assert text == BiteText(first) + text[|BiteText(first)|..];
      assert bites[1..] == more;
    }
  }

  lemma Associate(a: string, b: string, c: string)
    ensures a + b + c == a + (b + c)
  {
  }

  lemma {:induction false} OneMoreToken(t: Token, ts: seq<Token>)
    ensures TokensText([t] + ts) == TokenText(t) + TokensText(ts)
    decreases |ts|
  {
    if ts == [] {
      assert [t] + ts == [] + [t];
      Snoc([], t);
    } else {
      var front, last := ts[..|ts| - 1], ts[|ts| - 1];
      assert [t] + ts == [t] + front + [last] && ts == front + [last];
      OneMoreToken(t, front);
      Snoc([t] + front, last);
      Snoc(front, last);
      Associate(TokenText(t), TokensText(front), TokenText(last));
    }
  }

  lemma TokenFirst(text: string, t: Token, rest: string, more: seq<Token>, tail: string)
    requires text == TokenText(t) + rest && rest == TokensText(more) + tail
    requires IsToken(t) && AreTokens(more)
    ensures text == TokensText([t] + more) + tail && AreTokens([t] + more)
  {
    OneMoreToken(t, more);
    Associate(TokenText(t), TokensText(more), tail);
  }

  lemma BareFirst(text: string)
    requires text != ""
    ensures text == TokenText(Bare(text[0])) + text[1..]
  {
  }

  lemma StringFirst(text: string, bites: seq<Bite>, rest: string)
    requires text != "" && text[0] == '"' && text[1..] == BitesText(bites) + ("\"" + rest)
    ensures text == TokenText(Quoted(bites)) + rest
  {
    StringRest(text, BitesText(bites), rest);
  }

  lemma StringRest(text: string, body: string, rest: string)
    requires text != "" && text[0] == '"' && text[1..] == body + ("\"" + rest)
    ensures text == "\"" + body + "\"" + rest
  {
    assert text == [text[0]] + text[1..];
  }

  /** So the two laws above leave out no text with a bracket in it. */
  lemma {:induction false} EveryTextIsTokens(text: string) returns (ts: seq<Token>, tail: Tail)
    ensures AreTokens(ts) && IsTail(tail) && text == TokensText(ts) + TailText(tail)
    decreases |text|
  {
    if text == "" {
      ts, tail := [], NoTail;
    } else if text[0] != '"' {
      var more;
      more, tail := EveryTextIsTokens(text[1..]);
      ts := [Bare(text[0])] + more;
      BareFirst(text);
      TokenFirst(text, Bare(text[0]), text[1..], more, TailText(tail));
    } else {
      var bites, closed, dangling, rest := SplitString(text[1..]);
      if closed {
        var more;
        more, tail := EveryTextIsTokens(rest);
        ts := [Quoted(bites)] + more;
        StringFirst(text, bites, rest);
        TokenFirst(text, Quoted(bites), rest, more, TailText(tail));
      } else {
        ts, tail := [], Unclosed(bites, dangling);
        UnclosedIs(text, bites, dangling);
      }
    }
  }

  lemma UnclosedIs(text: string, bites: seq<Bite>, dangling: bool)
    requires text != "" && text[0] == '"' && text[1..] == BitesText(bites) + if dangling then "\\" else ""
    ensures text == TokensText([]) + TailText(Unclosed(bites, dangling))
  {
    assert text == [text[0]] + text[1..];
  }

  // ---------- The loop ----------

  method FindOpener(text: string) returns (r: Option<nat>)
    ensures r == FirstOpener(text)
  {
    for i := 0 to |text|
      invariant NoOpener(text[..i])
    {
      if IsOpener(text[i]) {
        FirstOpenerIs(text, i);
        return Some(i);
      }
      assert text[..i + 1] == text[..i] + [text[i]];
    }
    assert text[..|text|] == text;
    return None;
  }

  predicate Closes(open: char, s: Scan, c: char) {
    var next := Step(open, s, c);
    next.depth < s.depth && next.depth == 0
  }

  lemma OneStep(open: char, s: Scan, text: string, start: nat, i: nat, whole: Option<nat>)
    requires start <= i < |text| && whole == Shift(i - start, CloseAt(open, s, text[i..]))
    ensures whole == if Closes(open, s, text[i]) then Some(i + 1 - start)
                     else Shift(i + 1 - start, CloseAt(open, Step(open, s, text[i]), text[i + 1..]))
  {
    assert text[i..][1..] == text[i + 1..];
  }

  /** The scan from the first bracket on: how many characters the span has. */
  method ScanToClose(text: string, start: nat) returns (r: Option<nat>)
    requires start < |text| && IsOpener(text[start])
    ensures r == CloseAt(text[start], OUTSIDE, text[start..])
  {
    var open := text[start];
    var close := Closer(open);
    var depth: nat := 0;
    var inString, escaped := false, false;
    ghost var whole, scan := CloseAt(open, OUTSIDE, text[start..]), OUTSIDE;
    for i := start to |text|
      invariant scan == Scan(depth, inString, escaped)
      invariant if i == start then !inString && depth == 0 else depth > 0
      invariant whole == Shift(i - start, CloseAt(open, scan, text[i..]))
    {
      OneStep(open, scan, text, start, i, whole);
      scan := Step(open, scan, text[i]);
      if inString {
        if escaped {
          escaped := false;
        } else if text[i] == '\\' {
          escaped := true;
        } else if text[i] == '"' {
          inString := false;
        }
        continue;
      }
      if text[i] == '"' {
        inString := true;
      } else if text[i] == open {
        depth := depth + 1;
      } else if text[i] == close {
        depth := depth - 1;
        if depth == 0 {
          return Some(i + 1 - start);
        }
      }
    }
    return None;
  }

  method ScanBalancedSpan(text: string) returns (r: Option<string>)
    ensures r == BalancedSpan(text)
  {
    var start := FindOpener(text);
    if start.None? {
      return None;
    }
    var length := ScanToClose(text, start.value);
    r := if length.None? then None else Some(text[start.value..start.value + length.value]);
  }
}
