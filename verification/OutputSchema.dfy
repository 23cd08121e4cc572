/** `apps/cli/src/output_schema.rs`: pull a JSON value out of an agent's prose, and re-prompt the
    agent a bounded number of times until the value satisfies a schema. The JSON parser and the
    schema validator are parameters. */
module OutputSchema {
  import opened Results
  import opened JsonText
  import opened SpanScanner
  import CorrectionLoop

  // ---------- Fenced blocks ----------

  predicate IsFenceAt(s: string, i: nat) {
    i + 3 <= |s| && s[i] == '`' && s[i + 1] == '`' && s[i + 2] == '`'
  }

  /** The first three backticks in a row. */
  function FindFence(s: string): (r: Option<nat>)
    ensures r.Some? ==> r.value + 3 <= |s|
  {
    if |s| < 3 then None else if IsFenceAt(s, 0) then Some(0) else Shift(1, FindFence(s[1..]))
  }

  function FindNewline(s: string): (r: Option<nat>)
    ensures r.Some? ==> r.value < |s|
  {
    if s == [] then None else if s[0] == '\n' then Some(0) else Shift(1, FindNewline(s[1..]))
  }

  /** `n` is where the first fence stands. */
  ghost predicate IsFirstFence(s: string, n: nat) {
    IsFenceAt(s, n) && forall i :: 0 <= i < n ==> !IsFenceAt(s, i)
  }

  lemma {:induction false} FindFenceIsFirst(s: string)
    ensures match FindFence(s) case Some(n) => IsFirstFence(s, n) case None => forall i :: 0 <= i ==> !IsFenceAt(s, i)
    ensures forall n :: 0 <= n && IsFirstFence(s, n) ==> FindFence(s) == Some(n)
    decreases |s|
  {
    if |s| >= 3 && !IsFenceAt(s, 0) {
      FindFenceIsFirst(s[1..]);
      assert forall i :: 1 <= i ==> IsFenceAt(s, i) == IsFenceAt(s[1..], i - 1);
    }
  }

  lemma {:induction false} FindNewlineIsFirst(s: string)
    ensures match FindNewline(s)
            case Some(n) => s[n] == '\n' && forall i :: 0 <= i < n ==> s[i] != '\n'
            case None => forall i :: 0 <= i < |s| ==> s[i] != '\n'
    decreases |s|
  {
    if s != [] && s[0] != '\n' {
      FindNewlineIsFirst(s[1..]);
      assert forall i :: 1 <= i < |s| ==> s[i] == s[1..][i - 1];
    }
  }

  /** Where the first closed fence of a text has its body, and where the text goes on. */
  datatype Fence = Fence(body: string, rest: string)

  function NextFence(text: string): (r: Option<Fence>)
    ensures r.Some? ==> |r.value.rest| < |text|
  {
    match FindFence(text)
    case None => None
    case Some(open) =>
      var afterFence := text[open + 3..];
      match FindNewline(afterFence)
      case None => None
      case Some(start) =>
        var body := afterFence[start + 1..];
        match FindFence(body)
        case None => None
        case Some(close) => Some(Fence(body[..close], body[close + 3..]))
  }

  function FencedBlocks(text: string): seq<string>
    decreases |text|
  {
    match NextFence(text)
    case None => []
    case Some(f) => [f.body] + FencedBlocks(f.rest)
  }

  lemma OneMoreBlock(blocks: seq<string>, rest: string, f: Fence)
    requires NextFence(rest) == Some(f)
    ensures blocks + FencedBlocks(rest) == blocks + [f.body] + FencedBlocks(f.rest)
  {
    assert FencedBlocks(rest) == [f.body] + FencedBlocks(f.rest);
    assert blocks + ([f.body] + FencedBlocks(f.rest)) == blocks + [f.body] + FencedBlocks(f.rest);
  }

  method SplitFencedBlocks(text: string) returns (blocks: seq<string>)
    ensures blocks == FencedBlocks(text)
  {
    blocks := [];
    var rest := text;
    while true
      invariant blocks + FencedBlocks(rest) == FencedBlocks(text)
      decreases |rest|
    {
      var next := NextFence(rest);
      if next.None? {
        break;
      }
      OneMoreBlock(blocks, rest, next.value);
      blocks := blocks + [next.value.body];
      rest := next.value.rest;
    }
  }

  /** One fenced block as an agent writes it, with the prose before it. */
  datatype Block = Block(prose: string, info: string, body: string)

  function PrintBlock(b: Block): string {
    b.prose + "```" + b.info + "\n" + b.body + "```"
  }

  function Print(blocks: seq<Block>, tail: string): string {
    if blocks == [] then tail else PrintBlock(blocks[0]) + Print(blocks[1..], tail)
  }

  function Bodies(blocks: seq<Block>): seq<string> {
    if blocks == [] then [] else [blocks[0].body] + Bodies(blocks[1..])
  }

  /** A fence right after `s` is the first one: `s` holds none and does not end in a backtick. */
  predicate IsFenceless(s: string) {
    FindFence(s) == None && (s == [] || s[|s| - 1] != '`')
  }

  predicate IsBlock(b: Block) {
    IsFenceless(b.prose) && IsFenceless(b.body) && FindNewline(b.info) == None
  }

  predicate AreBlocks(blocks: seq<Block>) {
    forall i :: 0 <= i < |blocks| ==> IsBlock(blocks[i])
  }

  lemma FenceAfter(s: string, rest: string)
    requires IsFenceless(s)
    ensures FindFence(s + "```" + rest) == Some(|s|)
  {
    var t := s + "```" + rest;
    FindFenceIsFirst(s);
    assert IsFenceAt(t, |s|);
    forall i | 0 <= i < |s|
      ensures !IsFenceAt(t, i)
    {
      assert !IsFenceAt(s, i);
      if i + 3 > |s| { assert t[|s| - 1] == s[|s| - 1]; }
    }
    assert IsFirstFence(t, |s|);
    FindFenceIsFirst(t);
  }

  lemma NewlineAfter(info: string, rest: string)
    requires FindNewline(info) == None
    ensures FindNewline(info + "\n" + rest) == Some(|info|)
  {
    var t := info + "\n" + rest;
    FindNewlineIsFirst(info);
    FindNewlineIsFirst(t);
    assert t[|info|] == '\n';
    assert forall i :: 0 <= i < |info| ==> t[i] == info[i];
  }

  lemma NextFenceIs(text: string, open: nat, start: nat, close: nat)
    requires FindFence(text) == Some(open) && FindNewline(text[open + 3..]) == Some(start)
    requires FindFence(text[open + 3..][start + 1..]) == Some(close)
    ensures var body := text[open + 3..][start + 1..];
            NextFence(text) == Some(Fence(body[..close], body[close + 3..]))
  {
  }

  lemma NextFenceOfPrinted(b: Block, rest: string)
    requires IsBlock(b)
    ensures NextFence(PrintBlock(b) + rest) == Some(Fence(b.body, rest))
  {
    var inner := b.body + "```" + rest;
    var afterFence := b.info + "\n" + inner;
    var text := b.prose + "```" + afterFence;
    FenceAfter(b.prose, afterFence);
    assert text[|b.prose| + 3..] == afterFence;
    NewlineAfter(b.info, inner);
    assert afterFence[|b.info| + 1..] == inner;
    FenceAfter(b.body, rest);
    assert inner[..|b.body|] == b.body && inner[|b.body| + 3..] == rest;
    NextFenceIs(text, |b.prose|, |b.info|, |b.body|);
    Assembled(b, text, afterFence, inner, rest);
  }

  /** Splitting undoes printing: the bodies come back, in order, none missed and none invented. */
  lemma {:induction false} FencedBlocksUndoPrint(blocks: seq<Block>, tail: string)
    requires AreBlocks(blocks) && FindFence(tail) == None
    ensures FencedBlocks(Print(blocks, tail)) == Bodies(blocks)
    decreases |blocks|
  {
    if blocks != [] {
      assert IsBlock(blocks[0]);
      NextFenceOfPrinted(blocks[0], Print(blocks[1..], tail));
      FencedBlocksUndoPrint(blocks[1..], tail);
    }
  }

  /** Every text is a printing of the blocks found in it, up to a tail with no closed fence. */
  lemma {:induction false} FencedBlocksComeFromText(text: string) returns (blocks: seq<Block>, tail: string)
    ensures text == Print(blocks, tail) && Bodies(blocks) == FencedBlocks(text) && NextFence(tail) == None
    ensures forall i :: 0 <= i < |blocks| ==>
              FindFence(blocks[i].prose) == FindFence(blocks[i].body) == FindNewline(blocks[i].info) == None
    decreases |text|
  {
    match NextFence(text) {
      case None =>
        blocks, tail := [], text;
      case Some(f) =>
        var b := BlockOfFence(text, f);
        var more, end := FencedBlocksComeFromText(f.rest);
        blocks, tail := [b] + more, end;
        assert blocks[1..] == more;
    }
  }

  lemma BlockOfFence(text: string, f: Fence) returns (b: Block)
    requires NextFence(text) == Some(f)
    ensures text == PrintBlock(b) + f.rest && b.body == f.body
    ensures FindFence(b.prose) == FindFence(b.body) == FindNewline(b.info) == None
  {
    var open := FindFence(text).value;
    var afterFence := text[open + 3..];
    var start := FindNewline(afterFence).value;
    var inner := afterFence[start + 1..];
    b := Block(text[..open], afterFence[..start], f.body);
    FencePrefix(text, open);
    FencePrefix(inner, |f.body|);
    NewlinePrefix(afterFence, start);
    Assembled(b, text, afterFence, inner, f.rest);
  }

  lemma Assembled(b: Block, text: string, afterFence: string, inner: string, rest: string)
    requires text == b.prose + "```" + afterFence
    requires afterFence == b.info + "\n" + inner
    requires inner == b.body + "```" + rest
    ensures text == PrintBlock(b) + rest
  {
    assert text == b.prose + "```" + (b.info + ("\n" + (b.body + ("```" + rest))));
  }

  lemma NewlinePrefix(s: string, n: nat)
    requires FindNewline(s) == Some(n)
    ensures FindNewline(s[..n]) == None && s == s[..n] + "\n" + s[n + 1..]
  {
    FindNewlineIsFirst(s);
    FindNewlineIsFirst(s[..n]);
    assert forall i :: 0 <= i < n ==> s[..n][i] == s[i];
  }

  lemma FencePrefix(s: string, n: nat)
    requires FindFence(s) == Some(n)
    ensures FindFence(s[..n]) == None && s == s[..n] + "```" + s[n + 3..]
  {
    FindFenceIsFirst(s);
    FindFenceIsFirst(s[..n]);
    assert forall i :: 0 <= i && IsFenceAt(s[..n], i) ==> i < n && IsFenceAt(s, i);
  }

  // ---------- Trimming ----------

  /** The characters with the Unicode White_Space property. */
  predicate IsSpace(c: char) {
    '\t' <= c <= '\r' || c == ' ' || c == '\U{85}' || c == '\U{A0}' || c == '\U{1680}' ||
    '\U{2000}' <= c <= '\U{200A}' || c == '\U{2028}' || c == '\U{2029}' || c == '\U{202F}' ||
    c == '\U{205F}' || c == '\U{3000}'
  }

  predicate IsAllSpace(s: string) {
    forall i :: 0 <= i < |s| ==> IsSpace(s[i])
  }

  function TrimStart(s: string): string {
    if s != [] && IsSpace(s[0]) then TrimStart(s[1..]) else s
  }

  function TrimEnd(s: string): string {
    if s != [] && IsSpace(s[|s| - 1]) then TrimEnd(s[..|s| - 1]) else s
  }

  function Trim(s: string): string { TrimEnd(TrimStart(s)) }

  predicate IsTrimmed(s: string) {
    s != [] && !IsSpace(s[0]) && !IsSpace(s[|s| - 1])
  }

  lemma {:induction false} TrimStartOf(before: string, s: string)
    requires IsAllSpace(before) && (s == [] || !IsSpace(s[0]))
    ensures TrimStart(before + s) == s
    decreases |before|
  {
    if before == [] {
      assert before + s == s;
    } else {
      assert (before + s)[1..] == before[1..] + s;
      TrimStartOf(before[1..], s);
    }
  }

  lemma {:induction false} TrimEndOf(s: string, after: string)
    requires IsAllSpace(after) && (s == [] || !IsSpace(s[|s| - 1]))
    ensures TrimEnd(s + after) == s
    decreases |after|
  {
    if after == [] {
      assert s + after == s;
    } else {
      assert (s + after)[..|s + after| - 1] == s + after[..|after| - 1];
      TrimEndOf(s, after[..|after| - 1]);
    }
  }

  lemma TrimOf(before: string, s: string, after: string)
    requires IsAllSpace(before) && IsAllSpace(after) && IsTrimmed(s)
    ensures Trim(before + s + after) == s
  {
    assert before + s + after == before + (s + after);
    TrimStartOf(before, s + after);
    TrimEndOf(s, after);
  }

  lemma {:induction false} TrimStartSplits(s: string) returns (before: string)
    ensures s == before + TrimStart(s) && IsAllSpace(before)
    ensures TrimStart(s) != [] ==> !IsSpace(TrimStart(s)[0])
    decreases |s|
  {
    before := [];
    if s != [] && IsSpace(s[0]) {
      before := TrimStartSplits(s[1..]);
      before := [s[0]] + before;
    }
  }

  lemma {:induction false} TrimEndSplits(s: string) returns (after: string)
    ensures s == TrimEnd(s) + after && IsAllSpace(after)
    ensures TrimEnd(s) != [] ==> !IsSpace(TrimEnd(s)[|TrimEnd(s)| - 1])
    decreases |s|
  {
    after := [];
    if s != [] && IsSpace(s[|s| - 1]) {
      after := TrimEndSplits(s[..|s| - 1]);
      after := after + [s[|s| - 1]];
    }
  }

  /** Trimming takes whitespace off both ends, all of it and nothing else. */
  lemma TrimTakesTheSpace(s: string) returns (before: string, after: string)
    ensures s == before + Trim(s) + after && IsAllSpace(before) && IsAllSpace(after)
    ensures if IsAllSpace(s) then Trim(s) == "" else IsTrimmed(Trim(s))
  {
    before := TrimStartSplits(s);
    after := TrimEndSplits(TrimStart(s));
    var t := Trim(s);
    if t == [] {
      assert s == before + after;
    } else {
      assert TrimStart(s)[0] == t[0];
      assert s[|before|] == t[0];
    }
  }

  /** The White_Space characters, written out. */
  const SPACES: string := "\t\n\U{B}\U{C}\r \U{85}\U{A0}\U{1680}\U{2000}\U{2001}\U{2002}\U{2003}\U{2004}\U{2005}\U{2006}\U{2007}\U{2008}\U{2009}\U{200A}\U{2028}\U{2029}\U{202F}\U{205F}\U{3000}"

  lemma SpacesAre(c: char)
    ensures IsSpace(c) <==> c in SPACES
  {
  }

  // ---------- Extraction ----------

  /** The first block whose trimmed body parses. */
  function FirstParsed<J>(parse: string -> Option<J>, blocks: seq<string>): Option<J> {
    if blocks == [] then None
    else if parse(Trim(blocks[0])).Some? then parse(Trim(blocks[0]))
    else FirstParsed(parse, blocks[1..])
  }

  function ExtractJson<J>(parse: string -> Option<J>, text: string): Option<J> {
    var trimmed := Trim(text);
    if parse(trimmed).Some? then parse(trimmed)
    else
      var fenced := FirstParsed(parse, FencedBlocks(trimmed));
      if fenced.Some? then fenced
      else match BalancedSpan(trimmed) case None => None case Some(span) => parse(span)
  }

  method Extract<J>(parse: string -> Option<J>, text: string) returns (r: Option<J>)
    ensures r == ExtractJson(parse, text)
  {
    var trimmed := Trim(text);
    if parse(trimmed).Some? {
      return parse(trimmed);
    }
    var blocks := SplitFencedBlocks(trimmed);
    for i := 0 to |blocks|
      invariant FirstParsed(parse, blocks) == FirstParsed(parse, blocks[i..])
    {
      assert blocks[i..][1..] == blocks[i + 1..];
      if parse(Trim(blocks[i])).Some? {
        return parse(Trim(blocks[i]));
      }
    }
    var span := ScanBalancedSpan(trimmed);
    r := if span.None? then None else parse(span.value);
  }

  lemma {:induction false} FirstParsedIs<J>(parse: string -> Option<J>, blocks: seq<string>, k: nat)
    requires k < |blocks| && parse(Trim(blocks[k])).Some?
    requires forall i :: 0 <= i < k ==> parse(Trim(blocks[i])).None?
    ensures FirstParsed(parse, blocks) == parse(Trim(blocks[k]))
    decreases |blocks|
  {
    if k > 0 { FirstParsedIs(parse, blocks[1..], k - 1); }
  }

  lemma {:induction false} NoneParsed<J>(parse: string -> Option<J>, blocks: seq<string>)
    requires forall i :: 0 <= i < |blocks| ==> parse(Trim(blocks[i])).None?
    ensures FirstParsed(parse, blocks) == None
    decreases |blocks|
  {
    if blocks != [] { NoneParsed(parse, blocks[1..]); }
  }

  lemma {:induction false} BodyAt(blocks: seq<Block>, k: nat)
    requires k < |blocks|
    ensures |Bodies(blocks)| == |blocks| && Bodies(blocks)[k] == blocks[k].body
    decreases |blocks|
  {
    BodyCount(blocks);
    if k > 0 { BodyAt(blocks[1..], k - 1); }
  }

  lemma {:induction false} BodyCount(blocks: seq<Block>)
    ensures |Bodies(blocks)| == |blocks|
    decreases |blocks|
  {
    if blocks != [] { BodyCount(blocks[1..]); }
  }

  lemma NumberIsTrimmed(n: Number)
    requires IsNumber(n)
    ensures IsTrimmed(NumberText(n))
  {
    var t := NumberText(n);
    assert IsDigit(n.whole[0]) && IsDigit(n.whole[|n.whole| - 1]);
    assert t[0] == if n.negative then '-' else n.whole[0];
    if n.exp != [] {
      assert t[|t| - 1] == n.exp[|n.exp| - 1];
      assert AllDigits(n.exp[1..]) ==> IsDigit(n.exp[1..][|n.exp| - 2]);
      assert !AllDigits(n.exp[1..]) ==> IsDigit(n.exp[2..][|n.exp| - 3]);
    } else if n.frac != [] {
      assert t[|t| - 1] == n.frac[|n.frac| - 1];
      assert IsDigit(n.frac[1..][|n.frac| - 2]);
    }
  }

  /** No serialization of any value begins or ends in whitespace. */
  lemma JsonTextIsTrimmed(v: Value)
    requires IsValue(v)
    ensures IsTrimmed(Text(v))
  {
    match v
    case Word(t) =>
    case Num(n) => NumberIsTrimmed(n);
    case Str(ps) =>
    case Array(_, _) => BodyInBrackets(v);
    case Object(_, _) => BodyInBrackets(v);
  }

  /** A message that is a value of any kind, with whitespace around it or not, yields that value. */
  lemma WholeJsonIsExtracted<J>(parse: string -> Option<J>, before: string, v: Value, value: J, after: string)
    requires IsValue(v) && parse(Text(v)) == Some(value) && IsAllSpace(before) && IsAllSpace(after)
    ensures ExtractJson(parse, before + Text(v) + after) == Some(value)
  {
    JsonTextIsTrimmed(v);
    TrimOf(before, Text(v), after);
  }

  ghost predicate IsFirstToParse<J>(parse: string -> Option<J>, blocks: seq<string>, k: nat) {
    k < |blocks| && parse(Trim(blocks[k])).Some? && forall i :: 0 <= i < k ==> parse(Trim(blocks[i])).None?
  }

  ghost predicate NoneParses<J>(parse: string -> Option<J>, blocks: seq<string>) {
    forall i :: 0 <= i < |blocks| ==> parse(Trim(blocks[i])).None?
  }

  /** What is extracted from any text: the text as a whole if it parses, else the first fenced block that
      does, else the shortest balanced span if there is one and it does, else nothing. */
  lemma ExtractionIs<J>(parse: string -> Option<J>, text: string)
    ensures var t, blocks := Trim(text), FencedBlocks(Trim(text));
            var r := ExtractJson(parse, text);
            && (parse(t).Some? ==> r == parse(t))
            && (parse(t).None? ==>
                  && (forall k: nat :: IsFirstToParse(parse, blocks, k) ==> r == parse(Trim(blocks[k])))
                  && (NoneParses(parse, blocks) ==>
                        && (forall i, j :: IsShortestSpan(t, i, j) ==> r == parse(t[i..j]))
                        && ((forall i, j :: !IsShortestSpan(t, i, j)) ==> r == None)))
  {
    var t, blocks := Trim(text), FencedBlocks(Trim(text));
    forall k: nat | IsFirstToParse(parse, blocks, k)
      ensures FirstParsed(parse, blocks) == parse(Trim(blocks[k]))
    {
      FirstParsedIs(parse, blocks, k);
    }
    if NoneParses(parse, blocks) {
      NoneParsed(parse, blocks);
      SpanIsShortest(t);
      forall i, j | IsShortestSpan(t, i, j)
        ensures BalancedSpan(t) == Some(t[i..j])
      {
        SpanIsUnique(t, i, j);
      }
    }
  }

  /** A value fenced with only whitespace around it, among any prose and other blocks, is the one
      extracted when the message as a whole and the blocks before it are not JSON. */
  lemma FencedJsonIsExtracted<J>(parse: string -> Option<J>, v: Value, value: J, blocks: seq<Block>, tail: string,
                                 k: nat, before: string, after: string, text: string)
    requires IsValue(v) && parse(Text(v)) == Some(value)
    requires AreBlocks(blocks) && FindFence(tail) == None && Trim(text) == Print(blocks, tail)
    requires k < |blocks| && blocks[k].body == before + Text(v) + after && IsAllSpace(before) && IsAllSpace(after)
    requires parse(Trim(text)).None?
    requires forall i :: 0 <= i < k ==> parse(Trim(blocks[i].body)).None?
    ensures ExtractJson(parse, text) == Some(value)
  {
    FencedBlocksUndoPrint(blocks, tail);
    forall i | 0 <= i < |blocks|
      ensures |Bodies(blocks)| == |blocks| && Bodies(blocks)[i] == blocks[i].body
    {
      BodyAt(blocks, i);
    }
    JsonTextIsTrimmed(v);
    TrimOf(before, Text(v), after);
    FirstParsedIs(parse, Bodies(blocks), k);
  }

  /** A bare value in prose is extracted when nothing more trusted parses. */
  lemma BareJsonIsExtracted<J>(parse: string -> Option<J>, prefix: string, v: Value, value: J, suffix: string, text: string)
    requires IsValue(v) && (v.Array? || v.Object?) && parse(Text(v)) == Some(value)
    requires NoOpener(prefix) && Trim(text) == prefix + Text(v) + suffix
    requires parse(Trim(text)).None?
    requires forall i :: 0 <= i < |FencedBlocks(Trim(text))| ==> parse(Trim(FencedBlocks(Trim(text))[i])).None?
    ensures ExtractJson(parse, text) == Some(value)
  {
    NoneParsed(parse, FencedBlocks(Trim(text)));
    JsonSpanIsFound(prefix, v, suffix);
  }

  // ---------- The answer of a transcript, and the loop over it ----------

  /** A transcript entry, by the one thing read from it: the text of an assistant message. */
  datatype Entry = Assistant(text: string) | OtherEntry

  function Spoken(e: Entry): string {
    match e case Assistant(t) => Trim(t) case OtherEntry => ""
  }

  predicate IsLastSpoken(entries: seq<Entry>, i: int, text: string) {
    && 0 <= i < |entries| && text == Spoken(entries[i])
    && (forall j :: i < j < |entries| ==> Spoken(entries[j]) == "")
  }

  function LastAssistantText(entries: seq<Entry>): (r: Option<string>)
    ensures r.None? <==> forall i :: 0 <= i < |entries| ==> Spoken(entries[i]) == ""
    ensures r.Some? ==> r.value != "" && exists i :: IsLastSpoken(entries, i, r.value)
  {
    if entries == [] then None
    else
      var last := Spoken(entries[|entries| - 1]);
      if last != "" then
        assert IsLastSpoken(entries, |entries| - 1, last);
        Some(last)
      else
        var front := entries[..|entries| - 1];
        var r := LastAssistantText(front);
        assert entries == front + [entries[|entries| - 1]];
        assert r.Some? ==> forall i :: IsLastSpoken(front, i, r.value) ==> IsLastSpoken(entries, i, r.value);
        r
  }

  predicate IsSilent(e: Entry) { e.OtherEntry? || IsAllSpace(e.text) }

  lemma SilentSaysNothing(e: Entry)
    ensures IsSilent(e) <==> Spoken(e) == ""
  {
    if e.Assistant? {
      var before, after := TrimTakesTheSpace(e.text);
    }
  }

  lemma OneMoreEntry(entries: seq<Entry>, e: Entry)
    ensures LastAssistantText(entries + [e]) == if Spoken(e) == "" then LastAssistantText(entries) else Some(Spoken(e))
  {
    assert (entries + [e])[..|entries + [e]| - 1] == entries;
  }

  lemma {:induction false} SilenceIsSkipped(entries: seq<Entry>, rest: seq<Entry>)
    requires forall i :: 0 <= i < |rest| ==> IsSilent(rest[i])
    ensures LastAssistantText(entries + rest) == LastAssistantText(entries)
    decreases |rest|
  {
    if rest == [] {
      assert entries + rest == entries;
    } else {
      var front, last := rest[..|rest| - 1], rest[|rest| - 1];
      assert entries + rest == entries + front + [last];
      SilentSaysNothing(last);
      OneMoreEntry(entries + front, last);
      SilenceIsSkipped(entries, front);
    }
  }

  /** The last assistant message that is not blank is the one read, without the whitespace around it,
      whatever stands before and whatever silent entries follow. */
  lemma LastWordsAreRead(front: seq<Entry>, before: string, t: string, after: string, rest: seq<Entry>)
    requires IsTrimmed(t) && IsAllSpace(before) && IsAllSpace(after)
    requires forall i :: 0 <= i < |rest| ==> IsSilent(rest[i])
    ensures LastAssistantText(front + [Assistant(before + t + after)] + rest) == Some(t)
  {
    TrimOf(before, t, after);
    OneMoreEntry(front, Assistant(before + t + after));
    SilenceIsSkipped(front + [Assistant(before + t + after)], rest);
  }

  lemma NothingToRead(entries: seq<Entry>)
    ensures LastAssistantText(entries) == None <==> forall i :: 0 <= i < |entries| ==> IsSilent(entries[i])
  {
    forall i | 0 <= i < |entries|
      ensures IsSilent(entries[i]) <==> Spoken(entries[i]) == ""
    {
      SilentSaysNothing(entries[i]);
    }
  }

  function Answer<J>(parse: string -> Option<J>, entries: seq<Entry>): Option<J> {
    match LastAssistantText(entries) case None => None case Some(t) => ExtractJson(parse, t)
  }

  method Enforce<J(!new)>(parse: string -> Option<J>, check: J -> seq<string>, host: CorrectionLoop.Host<seq<Entry>>)
    returns (r: Result<J, CorrectionLoop.Failure>, prompts: seq<CorrectionLoop.Correction>)
    ensures CorrectionLoop.Corrects(entries => Answer(parse, entries), check, host, prompts)
    ensures CorrectionLoop.IsVerdict(entries => Answer(parse, entries), check, host, |prompts|, r)
  {
    r, prompts := CorrectionLoop.Enforce(entries => Answer(parse, entries), check, host);
  }
}
