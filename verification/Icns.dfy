/** The icns reader of `xtask/src/icon.rs`: the square PNG members of an icon file, and the choice of
    the one to scale from. */
module Icns {
  import opened Results
  import opened Bytes

  /** `&icns[start..end]`, a PNG of the given width. */
  datatype Member = Member(width: nat, start: nat, end: nat)

  const MAGIC: seq<Byte> := [0x69, 0x63, 0x6E, 0x73]                              // icns
  const SIGNATURE: seq<Byte> := [0x89, 0x50, 0x4E, 0x47, 0x0D, 0x0A, 0x1A, 0x0A]  // section 5.2 of ISO/IEC 15948

  /** The width of a square PNG: both dimensions stand at fixed offsets of its IHDR chunk (section 11.2.2). */
  function PngWidth(body: seq<Byte>): Option<nat> {
    if |body| < 24 || body[..8] != SIGNATURE then None
    else if ReadBE(body, 16) == ReadBE(body, 20) then Some(ReadBE(body, 16))
    else None
  }

  // ---------- Chunks ----------

  predicate HasHeader(icns: seq<Byte>) { |icns| >= 8 && icns[..4] == MAGIC }

  predicate IsChunkAt(icns: seq<Byte>, at: nat) { at + 8 <= |icns| }

  function LengthAt(icns: seq<Byte>, at: nat): nat
    requires IsChunkAt(icns, at)
  {
    ReadBE(icns, at + 4)
  }

  /** The declared length covers the chunk's own header and stays inside the file. */
  predicate IsSound(icns: seq<Byte>, at: nat)
    requires IsChunkAt(icns, at)
  {
    8 <= LengthAt(icns, at) && at + LengthAt(icns, at) <= |icns|
  }

  function MemberAt(icns: seq<Byte>, at: nat): seq<Member>
    requires IsChunkAt(icns, at) && IsSound(icns, at)
  {
    var end := at + LengthAt(icns, at);
    MemberOf(PngWidth(icns[at + 8..end]), at + 8, end)
  }

  function MemberOf(width: Option<nat>, start: nat, end: nat): seq<Member> {
    match width case None => [] case Some(w) => [Member(w, start, end)]
  }

  /** The members from `at` on, or the offset of the first malformed chunk. */
  function MembersFrom(icns: seq<Byte>, at: nat): Result<seq<Member>, nat>
    decreases |icns| - at
  {
    if !IsChunkAt(icns, at) then Ok([])
    else if !IsSound(icns, at) then Err(at)
    else
      match MembersFrom(icns, at + LengthAt(icns, at))
      case Err(bad) => Err(bad)
      case Ok(ms) => Ok(MemberAt(icns, at) + ms)
  }

  datatype IcnsError = NotIcns | Malformed(at: nat)

  function PngMembers(icns: seq<Byte>): Result<seq<Member>, IcnsError> {
    if !HasHeader(icns) then Err(NotIcns)
    else match MembersFrom(icns, 8) case Err(bad) => Err(Malformed(bad)) case Ok(ms) => Ok(ms)
  }

  /** `members` already found, and what is found after them. */
  function Prepend(members: seq<Member>, r: Result<seq<Member>, nat>): Result<seq<Member>, nat> {
    match r case Err(bad) => Err(bad) case Ok(ms) => Ok(members + ms)
  }

  lemma OneMoreMember(icns: seq<Byte>, at: nat, members: seq<Member>)
    requires IsChunkAt(icns, at) && IsSound(icns, at)
    ensures Prepend(members, MembersFrom(icns, at)) ==
            Prepend(members + MemberAt(icns, at), MembersFrom(icns, at + LengthAt(icns, at)))
  {
    match MembersFrom(icns, at + LengthAt(icns, at))
    case Err(_) =>
    case Ok(ms) => assert members + (MemberAt(icns, at) + ms) == members + MemberAt(icns, at) + ms;
  }

  lemma NothingBefore(r: Result<seq<Member>, nat>)
    ensures Prepend([], r) == r
  {
    match r case Err(_) => case Ok(ms) => assert [] + ms == ms;
  }

  method ReadPngMembers(icns: seq<Byte>) returns (r: Result<seq<Member>, IcnsError>)
    ensures r == PngMembers(icns)
  {
    if |icns| < 8 || icns[..4] != MAGIC {
      return Err(NotIcns);
    }
    var members: seq<Member> := [];
    var offset := 8;
    ghost var whole := MembersFrom(icns, 8);
    NothingBefore(whole);
    while offset + 8 <= |icns|
      invariant whole == Prepend(members, MembersFrom(icns, offset))
      decreases |icns| - offset
    {
      var length := LengthAt(icns, offset);
      if length < 8 || offset + length > |icns| {
        return Err(Malformed(offset));
      }
      OneMoreMember(icns, offset, members);
      var width := PngWidth(icns[offset + 8..offset + length]);
      if width.Some? {
        members := members + [Member(width.value, offset + 8, offset + length)];
      } else {
        assert members + [] == members;
      }
      offset := offset + length;
    }
    assert members + [] == members;
    r := Ok(members);
  }

  // ---------- On arbitrary bytes ----------

  /** The chunk at `at` has a length of at least its own header and ends inside the file. */
  predicate IsWhole(icns: seq<Byte>, at: nat) {
    at + 8 <= |icns| && 8 <= ReadBE(icns, at + 4) <= |icns| - at
  }

  /** `to` is where some chunk header is looked for after stepping over sound chunks from `at`. */
  predicate Reaches(icns: seq<Byte>, at: nat, to: nat)
    decreases |icns| - at
  {
    at == to || (IsWhole(icns, at) && Reaches(icns, at + ReadBE(icns, at + 4), to))
  }

  ghost predicate IsMalformed(icns: seq<Byte>, at: nat, bad: nat) {
    Reaches(icns, at, bad) && bad + 8 <= |icns| && !IsWhole(icns, bad)
  }

  lemma {:induction false} MembersFromFails(icns: seq<Byte>, at: nat)
    ensures MembersFrom(icns, at).Err? ==> IsMalformed(icns, at, MembersFrom(icns, at).error)
    ensures MembersFrom(icns, at).Ok? ==> forall bad: nat :: !IsMalformed(icns, at, bad)
    decreases |icns| - at
  {
    if IsChunkAt(icns, at) && IsSound(icns, at) {
      var next := at + LengthAt(icns, at);
      MembersFromFails(icns, next);
      assert forall bad: nat :: IsMalformed(icns, at, bad) ==> IsMalformed(icns, next, bad);
    }
  }

  /** Reading fails exactly for a bad header or a malformed chunk among those it gets to. */
  lemma FailsIffMalformed(icns: seq<Byte>)
    ensures PngMembers(icns).Err? <==>
              || |icns| < 8 || icns[..4] != [0x69, 0x63, 0x6E, 0x73]
              || exists bad: nat :: IsMalformed(icns, 8, bad)
    ensures forall bad :: PngMembers(icns) == Err(Malformed(bad)) ==> IsMalformed(icns, 8, bad)
  {
    MembersFromFails(icns, 8);
  }

  /** A slice of the file past `from`, a square PNG of the width recorded. */
  predicate IsSlice(icns: seq<Byte>, from: nat, m: Member) {
    from + 8 <= m.start <= m.end <= |icns| && PngWidth(icns[m.start..m.end]) == Some(m.width)
  }

  ghost predicate InOrder(ms: seq<Member>) {
    forall i, j :: 0 <= i < j < |ms| ==> ms[i].end <= ms[j].start
  }

  ghost predicate AreSlices(icns: seq<Byte>, from: nat, ms: seq<Member>) {
    (forall m :: m in ms ==> IsSlice(icns, from, m)) && InOrder(ms)
  }

  lemma OrderJoins(m: Member, ms: seq<Member>)
    requires InOrder(ms) && forall n :: n in ms ==> m.end <= n.start
    ensures InOrder([m] + ms)
  {
  }

  lemma SlicesJoin(icns: seq<Byte>, at: nat, next: nat, ms: seq<Member>)
    requires IsChunkAt(icns, at) && IsSound(icns, at) && next == at + LengthAt(icns, at) && AreSlices(icns, next, ms)
    ensures AreSlices(icns, at, MemberAt(icns, at) + ms)
  {
    forall m | m in ms
      ensures IsSlice(icns, at, m) && next <= m.start
    {
      assert IsSlice(icns, next, m);
    }
    match PngWidth(icns[at + 8..next])
    case None => assert MemberAt(icns, at) + ms == ms;
    case Some(w) => OrderJoins(Member(w, at + 8, next), ms);
  }

  lemma {:induction false} MembersAreSlices(icns: seq<Byte>, at: nat)
    ensures MembersFrom(icns, at).Ok? ==> AreSlices(icns, at, MembersFrom(icns, at).value)
    decreases |icns| - at
  {
    if IsChunkAt(icns, at) && IsSound(icns, at) {
      var next := at + LengthAt(icns, at);
      MembersAreSlices(icns, next);
      if MembersFrom(icns, next).Ok? { SlicesJoin(icns, at, next, MembersFrom(icns, next).value); }
    }
  }

  /** On success the members are disjoint slices of the file, in order, each a square PNG of its width. */
  lemma MembersAreDisjointPngs(icns: seq<Byte>)
    ensures PngMembers(icns).Ok? ==> AreSlices(icns, 8, PngMembers(icns).value)
  {
    MembersAreSlices(icns, 8);
  }

  // ---------- On files made of chunks ----------

  datatype Chunk = Chunk(kind: seq<Byte>, body: seq<Byte>)

  predicate IsChunk(c: Chunk) { |c.kind| == 4 && |c.body| + 8 < U32 }

  predicate AreChunks(cs: seq<Chunk>) { forall i :: 0 <= i < |cs| ==> IsChunk(cs[i]) }

  function EncodeChunk(c: Chunk): seq<Byte>
    requires IsChunk(c)
  {
    c.kind + BE(|c.body| + 8) + c.body
  }

  function EncodeChunks(cs: seq<Chunk>): seq<Byte>
    requires AreChunks(cs)
  {
    if cs == [] then [] else EncodeChunk(cs[0]) + EncodeChunks(cs[1..])
  }

  /** The header's own length field is never read. */
  function Encode(total: seq<Byte>, cs: seq<Chunk>): seq<Byte>
    requires |total| == 4 && AreChunks(cs)
  {
    [0x69, 0x63, 0x6E, 0x73] + total + EncodeChunks(cs)
  }

  function SquarePngs(cs: seq<Chunk>): seq<seq<Byte>> {
    if cs == [] then []
    else (if PngWidth(cs[0].body).Some? then [cs[0].body] else []) + SquarePngs(cs[1..])
  }

  function Bodies(icns: seq<Byte>, ms: seq<Member>): seq<seq<Byte>>
    requires forall m :: m in ms ==> m.start <= m.end <= |icns|
  {
    if ms == [] then [] else [icns[ms[0].start..ms[0].end]] + Bodies(icns, ms[1..])
  }

  lemma ChunkReadsBack(icns: seq<Byte>, at: nat, c: Chunk, rest: seq<Byte>)
    requires IsChunk(c) && at <= |icns| && icns[at..] == EncodeChunk(c) + rest
    ensures IsChunkAt(icns, at) && LengthAt(icns, at) == |EncodeChunk(c)| && IsSound(icns, at)
    ensures icns[at + 8..at + |EncodeChunk(c)|] == c.body && icns[at + |EncodeChunk(c)|..] == rest
  {
    var tail, length := icns[at..], BE(|c.body| + 8);
    assert tail[4..8] == length[0..4];
    assert icns[at + 4..at + 8] == tail[4..8];
    ReadSame(icns, at + 4, length, 0);
    assert tail[8..|EncodeChunk(c)|] == c.body && tail[|EncodeChunk(c)|..] == rest;
  }

  lemma BodiesJoin(icns: seq<Byte>, first: seq<Member>, ms: seq<Member>)
    requires |first| <= 1 && forall m :: m in first + ms ==> m.start <= m.end <= |icns|
    requires forall m :: m in first ==> m.start <= m.end <= |icns|
    requires forall m :: m in ms ==> m.start <= m.end <= |icns|
    ensures Bodies(icns, first + ms) == Bodies(icns, first) + Bodies(icns, ms)
  {
    if first == [] {
      assert first + ms == ms;
    } else {
      assert (first + ms)[1..] == ms && first[1..] == [];
    }
  }

  /** Reading from `at` on succeeds and yields these bodies. */
  ghost predicate ReadsAs(icns: seq<Byte>, at: nat, bodies: seq<seq<Byte>>) {
    var r := MembersFrom(icns, at);
    r.Ok? && (forall m :: m in r.value ==> m.start <= m.end <= |icns|) && Bodies(icns, r.value) == bodies
  }

  /** The file goes on with these chunks, and nothing else, from `at`. */
  predicate GoesOnWith(icns: seq<Byte>, at: nat, cs: seq<Chunk>)
    requires AreChunks(cs)
  {
    at <= |icns| && icns[at..] == EncodeChunks(cs)
  }

  lemma {:induction false} ChunksReadBack(icns: seq<Byte>, at: nat, cs: seq<Chunk>)
    requires AreChunks(cs) && GoesOnWith(icns, at, cs)
    ensures ReadsAs(icns, at, SquarePngs(cs))
    decreases |cs|
  {
    if cs == [] {
      NoChunksLeft(icns, at);
    } else {
      var next := FirstChunk(icns, at, cs);
      ChunksReadBack(icns, next, cs[1..]);
      OneChunkMore(icns, at, next, cs);
    }
  }

  lemma NoChunksLeft(icns: seq<Byte>, at: nat)
    requires GoesOnWith(icns, at, [])
    ensures ReadsAs(icns, at, [])
  {
    assert |icns[at..]| == |icns| - at;
  }

  /** The first chunk, as it stands in the file. */
  predicate Holds(icns: seq<Byte>, at: nat, next: nat, c: Chunk) {
    && IsChunkAt(icns, at) && IsSound(icns, at) && next == at + LengthAt(icns, at)
    && icns[at + 8..next] == c.body
  }

  lemma FirstChunk(icns: seq<Byte>, at: nat, cs: seq<Chunk>) returns (next: nat)
    requires AreChunks(cs) && cs != [] && GoesOnWith(icns, at, cs)
    ensures Holds(icns, at, next, cs[0]) && GoesOnWith(icns, next, cs[1..])
  {
    next := at + |EncodeChunk(cs[0])|;
    ChunkReadsBack(icns, at, cs[0], EncodeChunks(cs[1..]));
  }

  lemma OneBody(icns: seq<Byte>, width: Option<nat>, start: nat, end: nat)
    requires start <= end <= |icns|
    ensures var ms := MemberOf(width, start, end);
            && (forall m :: m in ms ==> m.start <= m.end <= |icns|)
            && Bodies(icns, ms) == if width.Some? then [icns[start..end]] else []
  {
  }

  lemma OneChunkMore(icns: seq<Byte>, at: nat, next: nat, cs: seq<Chunk>)
    requires cs != [] && Holds(icns, at, next, cs[0])
    requires ReadsAs(icns, next, SquarePngs(cs[1..]))
    ensures ReadsAs(icns, at, SquarePngs(cs))
  {
    var first, ms := MemberAt(icns, at), MembersFrom(icns, next).value;
    OneBody(icns, PngWidth(cs[0].body), at + 8, next);
    BodiesJoin(icns, first, ms);
  }

  /** Reading a file of chunks gives back exactly the bodies that are square PNGs, in order. */
  lemma ReadingUndoesEncoding(total: seq<Byte>, cs: seq<Chunk>)
    requires |total| == 4 && AreChunks(cs)
    ensures var icns := Encode(total, cs);
            var r := PngMembers(icns);
            r.Ok? && (forall m :: m in r.value ==> m.start <= m.end <= |icns|) && Bodies(icns, r.value) == SquarePngs(cs)
  {
    assert Encode(total, cs)[8..] == EncodeChunks(cs);
    ChunksReadBack(Encode(total, cs), 8, cs);
    assert Encode(total, cs)[..4] == MAGIC;
  }

  // ---------- On files of known content ----------

  /** What a chunk holds: a PNG, by the width and height of its header (sections 5.2 and 11.2.2 of
      ISO/IEC 15948), or anything else. `head` is the length and type of the header chunk, never read. */
  datatype Content =
    | Png(head: seq<Byte>, width: nat, height: nat, rest: seq<Byte>)
    | Foreign(bytes: seq<Byte>)

  predicate IsContent(c: Content) {
    match c
    case Png(head, width, height, _) => |head| == 8 && width < U32 && height < U32
    case Foreign(bytes) => |bytes| < 24 || bytes[..8] != [0x89, 0x50, 0x4E, 0x47, 0x0D, 0x0A, 0x1A, 0x0A]
  }

  function ContentBytes(c: Content): seq<Byte>
    requires IsContent(c)
  {
    match c
    case Png(head, width, height, rest) =>
      [0x89, 0x50, 0x4E, 0x47, 0x0D, 0x0A, 0x1A, 0x0A] + head + BE(width) + BE(height) + rest
    case Foreign(bytes) => bytes
  }

  predicate IsSquare(c: Content) { c.Png? && c.width == c.height }

  lemma ReadWithin(s: seq<Byte>, at: nat, n: nat)
    requires n < U32 && at + 4 <= |s| && s[at..at + 4] == BE(n)
    ensures ReadBE(s, at) == n
  {
    assert BE(n)[0..4] == BE(n);
    ReadSame(s, at, BE(n), 0);
  }

  /** Exactly the square PNGs have a width, and it is theirs. */
  lemma WidthOfContent(c: Content)
    requires IsContent(c)
    ensures PngWidth(ContentBytes(c)) == if IsSquare(c) then Some(c.width) else None
  {
    if c.Png? {
      var s := ContentBytes(c);
      assert s[..8] == SIGNATURE && s[16..20] == BE(c.width) && s[20..24] == BE(c.height);
      ReadWithin(s, 16, c.width);
      ReadWithin(s, 20, c.height);
    }
  }

  /** Any bytes at all are the bytes of some content, so `Content` leaves out no chunk. */
  lemma AnythingIsContent(body: seq<Byte>) returns (c: Content)
    ensures IsContent(c) && ContentBytes(c) == body
  {
    if |body| < 24 || body[..8] != SIGNATURE {
      c := Foreign(body);
    } else {
      c := Png(body[8..16], ReadBE(body, 16), ReadBE(body, 20), body[24..]);
      Rewritten(body, 16);
      Rewritten(body, 20);
      assert body == body[..8] + body[8..16] + body[16..20] + body[20..24] + body[24..];
    }
  }

  lemma Rewritten(s: seq<Byte>, at: nat)
    requires at + 4 <= |s|
    ensures ReadBE(s, at) < U32 && BE(ReadBE(s, at)) == s[at..at + 4]
  {
    var n2: nat := s[at] as int * 0x100 + s[at + 1] as int;
    var n1: nat := n2 * 0x100 + s[at + 2] as int;
    LastByte(s[at] as int, s[at + 1]);
    LastByte(n2, s[at + 2]);
    LastByte(n1, s[at + 3]);
    assert s[at..at + 4] == [s[at], s[at + 1], s[at + 2], s[at + 3]];
  }

  lemma LastByte(n: nat, b: Byte)
    ensures (n * 0x100 + b as int) / 0x100 == n && (n * 0x100 + b as int) % 0x100 == b as int
  {
  }

  predicate AreContents(cs: seq<Content>) {
    forall i :: 0 <= i < |cs| ==> IsContent(cs[i])
  }

  function Squares(cs: seq<Content>): seq<Content> {
    if cs == [] then [] else (if IsSquare(cs[0]) then [cs[0]] else []) + Squares(cs[1..])
  }

  /** `cs` holds these contents, one to a chunk, of whatever kinds. */
  predicate Holding(cs: seq<Chunk>, contents: seq<Content>)
    requires AreContents(contents)
  {
    |cs| == |contents| && forall i :: 0 <= i < |cs| ==> cs[i].body == ContentBytes(contents[i])
  }

  ghost predicate AreBytesOf(bodies: seq<seq<Byte>>, cs: seq<Content>) {
    && AreContents(cs) && |bodies| == |cs|
    && forall k :: 0 <= k < |cs| ==> IsSquare(cs[k]) && bodies[k] == ContentBytes(cs[k])
  }

  lemma {:induction false} SquaresAreSquarePngs(cs: seq<Chunk>, contents: seq<Content>)
    requires AreContents(contents) && Holding(cs, contents)
    ensures AreBytesOf(SquarePngs(cs), Squares(contents))
    decreases |cs|
  {
    if cs != [] {
      var c := contents[0];
      assert IsContent(c);
      WidthOfContent(c);
      SquaresAreSquarePngs(cs[1..], contents[1..]);
      OneMoreSquare(SquarePngs(cs[1..]), Squares(contents[1..]), c);
    }
  }

  lemma OneMoreSquare(bodies: seq<seq<Byte>>, cs: seq<Content>, c: Content)
    requires AreBytesOf(bodies, cs) && IsContent(c)
    ensures IsSquare(c) ==> AreBytesOf([ContentBytes(c)] + bodies, [c] + cs)
    ensures AreBytesOf([] + bodies, [] + cs)
  {
    assert [] + bodies == bodies && [] + cs == cs;
  }

  lemma {:induction false} BodyAt(icns: seq<Byte>, ms: seq<Member>, k: nat)
    requires forall m :: m in ms ==> m.start <= m.end <= |icns|
    ensures |Bodies(icns, ms)| == |ms|
    ensures k < |ms| ==> Bodies(icns, ms)[k] == icns[ms[k].start..ms[k].end]
    decreases |ms|
  {
    if ms != [] {
      BodyAt(icns, ms[1..], if k > 0 then k - 1 else 0);
    }
  }

  /** `m` is where this PNG stands in the file, with its width. */
  predicate IsMemberFor(icns: seq<Byte>, m: Member, c: Content)
    requires IsContent(c)
  {
    m.start <= m.end <= |icns| && icns[m.start..m.end] == ContentBytes(c) && c.Png? && m.width == c.width == c.height
  }

  lemma MemberIsFor(icns: seq<Byte>, ms: seq<Member>, squares: seq<Content>, k: nat)
    requires AreSlices(icns, 8, ms) && (forall m :: m in ms ==> m.start <= m.end <= |icns|)
    requires AreBytesOf(Bodies(icns, ms), squares)
    ensures |ms| == |squares| && (k < |ms| ==> IsMemberFor(icns, ms[k], squares[k]))
  {
    BodyAt(icns, ms, k);
    if k < |ms| {
      assert IsSlice(icns, 8, ms[k]);
      WidthOfContent(squares[k]);
    }
  }

  /** Reading a file of any contents finds exactly the square PNGs among them, in order, each where it
      stands and with the width its header says. */
  lemma ReadingFindsTheSquares(total: seq<Byte>, cs: seq<Chunk>, contents: seq<Content>)
    requires |total| == 4 && AreChunks(cs) && AreContents(contents) && Holding(cs, contents)
    ensures var icns, squares := Encode(total, cs), Squares(contents);
            var r := PngMembers(icns);
            && r.Ok? && |r.value| == |squares|
            && forall k :: 0 <= k < |squares| ==> IsContent(squares[k]) && IsMemberFor(icns, r.value[k], squares[k])
  {
    var icns := Encode(total, cs);
    ReadingUndoesEncoding(total, cs);
    MembersAreDisjointPngs(icns);
    SquaresAreSquarePngs(cs, contents);
    var ms := PngMembers(icns).value;
    MemberIsFor(icns, ms, Squares(contents), 0);
    forall k | 0 <= k < |ms|
      ensures IsMemberFor(icns, ms[k], Squares(contents)[k])
    {
      MemberIsFor(icns, ms, Squares(contents), k);
    }
  }

  // ---------- The member to scale from ----------

  /** The narrowest member at least `size` wide (the first of equals), if there is one. */
  function Narrowest(ms: seq<Member>, size: nat): (r: Option<Member>)
    ensures r.None? <==> forall m :: m in ms ==> m.width < size
    ensures r.Some? ==> r.value in ms && r.value.width >= size &&
                        forall m :: m in ms && m.width >= size ==> r.value.width <= m.width
  {
    if ms == [] then None
    else
      var rest := Narrowest(ms[1..], size);
      assert ms == [ms[0]] + ms[1..];
      if ms[0].width >= size && (rest.None? || ms[0].width <= rest.value.width) then Some(ms[0]) else rest
  }

  function Widest(ms: seq<Member>): (r: Member)
    requires ms != []
    ensures r in ms && forall m :: m in ms ==> m.width <= r.width
  {
    if |ms| == 1 then ms[0]
    else
      var rest := Widest(ms[1..]);
      assert ms == [ms[0]] + ms[1..];
      if ms[0].width <= rest.width then rest else ms[0]
  }

  /** Never scale up while something larger is there; never fail while anything is there. */
  function BestSource(ms: seq<Member>, size: nat): (r: Member)
    requires ms != []
    ensures r in ms
    ensures r.width < size ==> forall m :: m in ms ==> m.width <= r.width
    ensures r.width >= size ==> forall m :: m in ms && m.width >= size ==> r.width <= m.width
  {
    var fit := Narrowest(ms, size);
    if fit.Some? then fit.value else Widest(ms)
  }

  /** Among equals the first of those wide enough is taken, and the last of the widest. */
  predicate IsChoice(ms: seq<Member>, size: nat, i: nat) {
    i < |ms| && forall j :: 0 <= j < |ms| && j != i ==>
      if ms[i].width >= size then ms[j].width < size || ms[i].width < ms[j].width || (ms[i].width == ms[j].width && i < j)
      else ms[j].width < ms[i].width || (ms[j].width == ms[i].width && j < i)
  }

  lemma {:induction false} BestSourceIsTheChoice(ms: seq<Member>, size: nat) returns (i: nat)
    requires ms != []
    ensures IsChoice(ms, size, i) && BestSource(ms, size) == ms[i]
    decreases |ms|
  {
    if |ms| == 1 {
      i := 0;
      assert ms[1..] == [];
    } else {
      var rest := ms[1..];
      i := BestSourceIsTheChoice(rest, size);
      var first := ms[0].width;
      i := if first >= size && (rest[i].width < size || first <= rest[i].width) then 0
           else if first < size && rest[i].width < first then 0
           else i + 1;
      assert forall j :: 1 <= j < |ms| ==> ms[j] == rest[j - 1];
    }
  }
}
