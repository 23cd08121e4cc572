/** The credentials of `apps/desktop/src/remote_control.rs`: the table a listener authenticates agents
    against must be the one `chat_credentials` induces, whatever order chats are spawned, renamed and
    ended and local access is switched off and on. */
module ChatCredentials {
  import opened Results

  type SessionId = string
  type Label = string

  /** `file`: the credential was also written to its owner-only file, named after the label (here `tag`). */
  datatype Credential = Credential(tag: Label, secret: string, file: bool)

  /** A row of the listener's table: the secret to prove, and the session proving it earns. */
  datatype Entry = Entry(secret: string, claim: SessionId)

  type Chats = map<SessionId, Credential>
  type Table = map<Label, Entry>

  datatype State = State(chats: Chats, local: Option<Table>, files: set<Label>)

  function Labels(chats: Chats): set<Label> {
    set id | id in chats :: chats[id].tag
  }

  function FileLabels(chats: Chats): set<Label> {
    set id | id in chats && chats[id].file :: chats[id].tag
  }

  /** The table a fresh listener gets: one row per chat, pointing at the chat. */
  ghost function Induced(chats: Chats): Table {
    map l | l in Labels(chats) :: var id :| id in chats && chats[id].tag == l; Entry(chats[id].secret, id)
  }

  // ---------- What each operation does to the state ----------

  function Remove<K, V>(m: map<K, V>, k: K): map<K, V> { m - {k} }

  /** `Mint` replaces the chat's credential and revokes the one it had; without a listener it does nothing. */
  function Mint(s: State, id: SessionId, c: Credential): State {
    match s.local
    case None => s
    case Some(table) =>
      var granted := table[c.tag := Entry(c.secret, id)];
      var files := if c.file then s.files + {c.tag} else s.files;
      if id in s.chats
      then State(s.chats[id := c], Some(Remove(granted, s.chats[id].tag)),
                 if s.chats[id].file then files - {s.chats[id].tag} else files)
      else State(s.chats[id := c], Some(granted), files)
  }

  function Bound(table: Table, tag: Label, id: SessionId): Table {
    if tag in table then table[tag := table[tag].(claim := id)] else table
  }

  function Rekey(s: State, was: SessionId, becomes: SessionId): State {
    if was !in s.chats then s
    else
      var c := s.chats[was];
      State(Remove(s.chats, was)[becomes := c],
            if s.local.Some? then Some(Bound(s.local.value, c.tag, becomes)) else None,
            s.files)
  }

  function Revoke(s: State, id: SessionId): State {
    if id !in s.chats then s
    else
      var c := s.chats[id];
      State(Remove(s.chats, id),
            if s.local.Some? then Some(Remove(s.local.value, c.tag)) else None,
            if c.file then s.files - {c.tag} else s.files)
  }

  ghost function Started(s: State): State { s.(local := Some(Induced(s.chats))) }

  function Stopped(s: State): State { s.(local := None) }

  // ---------- Agreement ----------

  /** No two chats share a credential label. */
  ghost predicate Distinct(chats: Chats) {
    forall i, j :: i in chats && j in chats && chats[i].tag == chats[j].tag ==> i == j
  }

  /** The listener's table, if there is one, and the credential files are those of the chats. */
  ghost predicate Agrees(s: State) {
    && Distinct(s.chats)
    && (s.local.Some? ==> s.local.value == Induced(s.chats))
    && s.files == FileLabels(s.chats)
  }

  lemma InducedAt(chats: Chats, id: SessionId)
    requires Distinct(chats) && id in chats
    ensures chats[id].tag in Induced(chats) && Induced(chats)[chats[id].tag] == Entry(chats[id].secret, id)
  {
  }

  /** A table with one right row per chat and no other row is the induced one. */
  lemma IsInduced(chats: Chats, table: Table)
    requires Distinct(chats)
    requires forall id :: id in chats ==> chats[id].tag in table && table[chats[id].tag] == Entry(chats[id].secret, id)
    requires forall l :: l in table ==> l in Labels(chats)
    ensures table == Induced(chats)
  {
    assert table.Keys == Labels(chats);
  }

  predicate IsFresh(s: State, tag: Label) {
    tag !in Labels(s.chats) && tag !in s.files
  }

  /** A credential for a chat that has none. */
  lemma AddAgrees(s: State, id: SessionId, c: Credential)
    requires Agrees(s) && s.local.Some? && IsFresh(s, c.tag) && id !in s.chats
    ensures Agrees(Mint(s, id, c))
  {
    var t := Mint(s, id, c);
    AddLabels(s.chats, id, c);
    assert forall i :: i in s.chats ==> s.chats[i].tag in Labels(s.chats);
    forall i | i in t.chats
      ensures t.chats[i].tag in t.local.value && t.local.value[t.chats[i].tag] == Entry(t.chats[i].secret, i)
    {
      if i != id { InducedAt(s.chats, i); }
    }
    IsInduced(t.chats, t.local.value);
  }

  lemma AddLabels(chats: Chats, id: SessionId, c: Credential)
    requires id !in chats
    ensures Labels(chats[id := c]) == Labels(chats) + {c.tag}
    ensures FileLabels(chats[id := c]) == FileLabels(chats) + (if c.file then {c.tag} else {})
  {
    var t := chats[id := c];
    assert t[id] == c;
    assert forall i :: i in chats ==> t[i] == chats[i];
    forall l | l in FileLabels(chats)
      ensures l in FileLabels(t)
    {
      var i :| i in chats && chats[i].file && chats[i].tag == l;
      assert t[i] == chats[i];
    }
    forall l | l in Labels(chats)
      ensures l in Labels(t)
    {
      var i :| i in chats && chats[i].tag == l;
      assert t[i] == chats[i];
    }
  }

  /** Minting over a credential is revoking it and minting, as far as the outcome goes. */
  lemma MintIsRevokeAndAdd(s: State, id: SessionId, c: Credential)
    requires Agrees(s) && IsFresh(s, c.tag)
    ensures Mint(s, id, c) == Mint(Revoke(s, id), id, c) || s.local.None?
  {
    if id in s.chats && s.local.Some? {
      assert s.chats[id].tag in Labels(s.chats);
      var t, u := Mint(s, id, c), Mint(Revoke(s, id), id, c);
      assert t.chats == u.chats;
      assert t.local.value == u.local.value;
      assert t.files == u.files;
    }
  }

  lemma MintAgrees(s: State, id: SessionId, c: Credential)
    requires Agrees(s) && IsFresh(s, c.tag)
    ensures Agrees(Mint(s, id, c))
  {
    if s.local.Some? {
      RevokeAgrees(s, id);
      MintIsRevokeAndAdd(s, id, c);
      AddAgrees(Revoke(s, id), id, c);
    }
  }

  lemma RevokeLabels(s: State, id: SessionId)
    requires Agrees(s) && id in s.chats
    ensures Labels(Revoke(s, id).chats) == Labels(s.chats) - {s.chats[id].tag}
    ensures FileLabels(Revoke(s, id).chats) == FileLabels(s.chats) - {s.chats[id].tag}
  {
    var t := Revoke(s, id);
    assert forall i :: i in t.chats ==> t.chats[i] == s.chats[i];
    assert forall i :: i in s.chats && i != id ==> i in t.chats;
  }

  lemma RevokeAgrees(s: State, id: SessionId)
    requires Agrees(s)
    ensures Agrees(Revoke(s, id))
  {
    if id in s.chats {
      var t := Revoke(s, id);
      RevokeLabels(s, id);
      if t.local.Some? {
        forall i | i in t.chats
          ensures t.chats[i].tag in t.local.value && t.local.value[t.chats[i].tag] == Entry(t.chats[i].secret, i)
        {
          InducedAt(s.chats, i);
        }
        IsInduced(t.chats, t.local.value);
      }
    }
  }

  /** The rename lands on another chat's id, and that chat's credential still leaves something behind:
      a live row in the table or a file. */
  predicate Displaces(s: State, was: SessionId, becomes: SessionId) {
    && was in s.chats && becomes in s.chats && was != becomes
    && (s.local.Some? || s.chats[becomes].file)
  }

  lemma RekeyTable(s: State, was: SessionId, becomes: SessionId)
    requires Agrees(s) && s.local.Some? && was in s.chats && (becomes !in s.chats || was == becomes)
    ensures Rekey(s, was, becomes).local.value == Induced(Rekey(s, was, becomes).chats)
  {
    var t := Rekey(s, was, becomes);
    InducedAt(s.chats, was);
    forall i | i in t.chats
      ensures t.chats[i].tag in t.local.value && t.local.value[t.chats[i].tag] == Entry(t.chats[i].secret, i)
    {
      if i != becomes { InducedAt(s.chats, i); }
    }
    forall l | l in t.local.value
      ensures l in Labels(t.chats)
    {
      var i :| i in s.chats && s.chats[i].tag == l;
      assert t.chats[if i == was then becomes else i].tag == l;
    }
    IsInduced(t.chats, t.local.value);
  }

  lemma RekeyFiles(s: State, was: SessionId, becomes: SessionId)
    requires Agrees(s) && was in s.chats && (becomes !in s.chats || was == becomes || !s.chats[becomes].file)
    ensures FileLabels(Rekey(s, was, becomes).chats) == s.files
  {
    var t := Rekey(s, was, becomes);
    forall l | l in FileLabels(s.chats)
      ensures l in FileLabels(t.chats)
    {
      var i :| i in s.chats && s.chats[i].file && s.chats[i].tag == l;
      assert t.chats[if i == was then becomes else i] == s.chats[i];
    }
    assert t.chats[becomes] == s.chats[was];
    assert forall i :: i in t.chats && i != becomes ==> t.chats[i] == s.chats[i];
  }

  lemma RekeyLosesLabel(s: State, was: SessionId, becomes: SessionId)
    requires Agrees(s) && Displaces(s, was, becomes)
    ensures s.chats[becomes].tag !in Labels(Rekey(s, was, becomes).chats)
    ensures s.chats[becomes].tag !in FileLabels(Rekey(s, was, becomes).chats)
  {
  }

  /** A rename keeps the agreement exactly when it displaces nothing. */
  lemma RekeyAgreesIff(s: State, was: SessionId, becomes: SessionId)
    requires Agrees(s)
    ensures Agrees(Rekey(s, was, becomes)) <==> !Displaces(s, was, becomes)
  {
    if Displaces(s, was, becomes) {
      RekeyLosesLabel(s, was, becomes);
      assert s.chats[becomes].file ==> s.chats[becomes].tag in s.files;
      if s.local.Some? {
        InducedAt(s.chats, becomes);
        assert s.chats[becomes].tag in Rekey(s, was, becomes).local.value;
      } else {
        assert s.chats[becomes].tag in Rekey(s, was, becomes).files;
      }
    } else if was in s.chats {
      RekeyKeepsDistinct(s, was, becomes);
      if s.local.Some? { RekeyTable(s, was, becomes); }
      RekeyFiles(s, was, becomes);
    }
  }

  lemma RekeyKeepsDistinct(s: State, was: SessionId, becomes: SessionId)
    requires Agrees(s) && was in s.chats
    ensures Distinct(Rekey(s, was, becomes).chats)
  {
  }

  // ---------- Any run ----------

  datatype Step =
    | DoMint(id: SessionId, credential: Credential)
    | DoRekey(was: SessionId, becomes: SessionId)
    | DoRevoke(id: SessionId)
    | DoStart
    | DoStop

  ghost function Next(s: State, step: Step): State {
    match step
    case DoMint(id, c) => Mint(s, id, c)
    case DoRekey(was, becomes) => Rekey(s, was, becomes)
    case DoRevoke(id) => Revoke(s, id)
    case DoStart => Started(s)
    case DoStop => Stopped(s)
  }

  ghost function Run(s: State, steps: seq<Step>): State
    decreases |steps|
  {
    if steps == [] then s else Run(Next(s, steps[0]), steps[1..])
  }

  /** The random label is fresh, and a rename displaces no other chat's credential. */
  predicate IsProperStep(s: State, step: Step) {
    && (step.DoMint? ==> IsFresh(s, step.credential.tag))
    && (step.DoRekey? ==> !Displaces(s, step.was, step.becomes))
  }

  ghost predicate IsProper(s: State, steps: seq<Step>)
    decreases |steps|
  {
    steps == [] || (IsProperStep(s, steps[0]) && IsProper(Next(s, steps[0]), steps[1..]))
  }

  lemma NextAgrees(s: State, step: Step)
    requires Agrees(s) && IsProperStep(s, step)
    ensures Agrees(Next(s, step))
  {
    match step
    case DoMint(id, c) => MintAgrees(s, id, c);
    case DoRekey(was, becomes) => RekeyAgreesIff(s, was, becomes);
    case DoRevoke(id) => RevokeAgrees(s, id);
    case DoStart =>
    case DoStop =>
  }

  lemma {:induction false} RunAgrees(s: State, steps: seq<Step>)
    requires Agrees(s) && IsProper(s, steps)
    ensures Agrees(Run(s, steps))
    decreases |steps|
  {
    if steps != [] {
      NextAgrees(s, steps[0]);
      RunAgrees(Next(s, steps[0]), steps[1..]);
    }
  }

  const BOOT := State(map[], None, {})

  /** Local access goes on and two chats get a credential each. */
  function Rivals(a: SessionId, ca: Credential, b: SessionId, cb: Credential): seq<Step> {
    [DoStart, DoMint(a, ca), DoMint(b, cb)]
  }

  /** A proper run can come to a rename that displaces: whatever the two ids, renaming one chat onto the
      other after this leaves a row behind that no chat owns. */
  lemma RivalsDisplace(a: SessionId, ca: Credential, b: SessionId, cb: Credential)
    requires a != b && ca.tag != cb.tag
    ensures var s := Run(BOOT, Rivals(a, ca, b, cb));
            IsProper(BOOT, Rivals(a, ca, b, cb)) && Displaces(s, a, b) && !Agrees(Rekey(s, a, b))
  {
    var s1 := Next(BOOT, DoStart);
    var s2 := Next(s1, DoMint(a, ca));
    var s3 := Next(s2, DoMint(b, cb));
    TwoSteps(s1, DoMint(a, ca), DoMint(b, cb));
    assert Rivals(a, ca, b, cb)[1..] == [DoMint(a, ca), DoMint(b, cb)];
    assert IsFresh(s1, ca.tag) && IsFresh(s2, cb.tag) && IsProperStep(BOOT, DoStart);
    RunAgrees(BOOT, Rivals(a, ca, b, cb));
    RekeyAgreesIff(s3, a, b);
  }

  lemma TwoSteps(s: State, x: Step, y: Step)
    ensures Run(s, [x, y]) == Next(Next(s, x), y)
    ensures IsProperStep(s, x) && IsProperStep(Next(s, x), y) ==> IsProper(s, [x, y])
  {
    assert [x, y][1..] == [y];
    assert Run(Next(s, x), [y]) == Next(Next(s, x), y);
  }

  // ---------- What an agent's credential earns ----------

  /** The session a caller gets that names `tag` and proves `secret`. */
  function Earns(s: State, tag: Label, secret: string): Option<SessionId> {
    if s.local.Some? && tag in s.local.value && s.local.value[tag].secret == secret
    then Some(s.local.value[tag].claim) else None
  }

  lemma EarnsIff(s: State, tag: Label, secret: string, id: SessionId)
    requires Agrees(s) && s.local.Some?
    ensures Earns(s, tag, secret) == Some(id) <==> id in s.chats && s.chats[id].tag == tag && s.chats[id].secret == secret
  {
    if id in s.chats { InducedAt(s.chats, id); }
    if tag in s.local.value {
      var i :| i in s.chats && s.chats[i].tag == tag;
      InducedAt(s.chats, i);
    }
  }

  /** After any proper run, with a listener up, a credential earns exactly the chat it belongs to now. */
  lemma CredentialEarnsItsChat(steps: seq<Step>, tag: Label, secret: string, id: SessionId)
    requires IsProper(BOOT, steps) && Run(BOOT, steps).local.Some?
    ensures var s := Run(BOOT, steps);
            Earns(s, tag, secret) == Some(id) <==>
              id in s.chats && s.chats[id].tag == tag && s.chats[id].secret == secret
  {
    RunAgrees(BOOT, steps);
    EarnsIff(Run(BOOT, steps), tag, secret, id);
  }

  /** After a mint the new secret, and no other under its label, earns the chat; the chat's old
      credential earns nothing, and any other what it earned; a file is left exactly if one was written.
      Without a listener nothing is minted. */
  lemma MintEarns(s: State, id: SessionId, c: Credential, tag: Label, secret: string)
    requires Agrees(s) && IsFresh(s, c.tag)
    ensures s.local.None? ==> Mint(s, id, c) == s
    ensures s.local.Some? ==>
              && (c.tag in Mint(s, id, c).files <==> c.file)
              && Earns(Mint(s, id, c), tag, secret) ==
                 if tag == c.tag then (if secret == c.secret then Some(id) else None)
                 else if Earns(s, tag, secret) == Some(id) then None
                 else Earns(s, tag, secret)
  {
    if s.local.Some? { EarnsIff(s, tag, secret, id); }
    if id in s.chats && s.local.Some? {
      assert s.chats[id].tag in Labels(s.chats);
      InducedAt(s.chats, id);
    }
  }

  /** A rename that displaces nothing moves what the one chat's credential earns, and nothing else. */
  lemma RekeyEarns(s: State, was: SessionId, becomes: SessionId, tag: Label, secret: string)
    requires Agrees(s) && !Displaces(s, was, becomes)
    ensures var earned := Earns(s, tag, secret);
            Earns(Rekey(s, was, becomes), tag, secret) == if earned == Some(was) then Some(becomes) else earned
    ensures Rekey(s, was, becomes).files == s.files
  {
    if s.local.Some? {
      EarnsIff(s, tag, secret, was);
      if was in s.chats { InducedAt(s.chats, was); }
    }
  }

  /** A revoked chat's credential earns nothing and leaves no file; any other earns what it did. */
  lemma RevokeEarns(s: State, id: SessionId, tag: Label, secret: string)
    requires Agrees(s)
    ensures var earned := Earns(s, tag, secret);
            Earns(Revoke(s, id), tag, secret) == if earned == Some(id) then None else earned
    ensures id in s.chats ==> s.chats[id].tag !in Revoke(s, id).files
  {
    if s.local.Some? {
      EarnsIff(s, tag, secret, id);
      if id in s.chats { InducedAt(s.chats, id); }
    }
  }

  /** Where one step leaves the credential of chat `id`: it goes along with a rename, until it is
      revoked, replaced by a new one, or dropped by a rename onto its chat's id. */
  function FollowOne(s: State, id: SessionId, step: Step): Option<SessionId> {
    match step
    case DoMint(x, _) => if x == id && s.local.Some? then None else Some(id)
    case DoRekey(was, becomes) =>
      if was == id then Some(becomes) else if becomes == id && was in s.chats then None else Some(id)
    case DoRevoke(x) => if x == id then None else Some(id)
    case DoStart => Some(id)
    case DoStop => Some(id)
  }

  ghost function Follow(s: State, id: SessionId, steps: seq<Step>): Option<SessionId>
    decreases |steps|
  {
    if steps == [] then Some(id)
    else
      match FollowOne(s, id, steps[0])
      case None => None
      case Some(j) => Follow(Next(s, steps[0]), j, steps[1..])
  }

  ghost predicate NeverMints(steps: seq<Step>, tag: Label) {
    forall i :: 0 <= i < |steps| && steps[i].DoMint? ==> steps[i].credential.tag != tag
  }

  lemma LostStep(s: State, step: Step, tag: Label)
    requires tag !in Labels(s.chats) && (step.DoMint? ==> step.credential.tag != tag)
    ensures tag !in Labels(Next(s, step).chats)
  {
    var t := Next(s, step);
    forall i | i in t.chats
      ensures t.chats[i].tag != tag
    {
      assert i in s.chats ==> s.chats[i].tag in Labels(s.chats);
      if step.DoRekey? && step.was in s.chats { assert s.chats[step.was].tag in Labels(s.chats); }
    }
  }

  lemma {:induction false} LostStaysLost(s: State, steps: seq<Step>, tag: Label)
    requires NeverMints(steps, tag) && tag !in Labels(s.chats)
    ensures tag !in Labels(Run(s, steps).chats)
    decreases |steps|
  {
    if steps != [] {
      LostStep(s, steps[0], tag);
      LostStaysLost(Next(s, steps[0]), steps[1..], tag);
    }
  }

  lemma FollowStep(s: State, id: SessionId, step: Step)
    requires Distinct(s.chats) && id in s.chats && (step.DoMint? ==> step.credential.tag != s.chats[id].tag)
    ensures var t := Next(s, step);
            match FollowOne(s, id, step)
            case Some(j) => j in t.chats && t.chats[j] == s.chats[id]
            case None => s.chats[id].tag !in Labels(t.chats)
  {
    var t := Next(s, step);
    if FollowOne(s, id, step).None? {
      forall i | i in t.chats
        ensures t.chats[i].tag != s.chats[id].tag
      {
      }
    }
  }

  lemma FollowedEarns(s: State, id: SessionId)
    requires Agrees(s) && s.local.Some? && id in s.chats
    ensures Earns(s, s.chats[id].tag, s.chats[id].secret) == Some(id)
  {
    InducedAt(s.chats, id);
  }

  /** The chat's credential is where `Follow` says, or it is nobody's. */
  lemma {:induction false} FollowRun(s: State, id: SessionId, steps: seq<Step>)
    requires Agrees(s) && IsProper(s, steps) && id in s.chats && NeverMints(steps, s.chats[id].tag)
    ensures var t := Run(s, steps);
            match Follow(s, id, steps)
            case Some(j) => j in t.chats && t.chats[j] == s.chats[id]
            case None => s.chats[id].tag !in Labels(t.chats)
    decreases |steps|
  {
    if steps != [] {
      var t, rest := Next(s, steps[0]), steps[1..];
      assert steps[0].DoMint? ==> steps[0].credential.tag != s.chats[id].tag;
      FollowStep(s, id, steps[0]);
      NextAgrees(s, steps[0]);
      match FollowOne(s, id, steps[0])
      case Some(j) => FollowRun(t, j, rest);
      case None => LostStaysLost(t, rest, s.chats[id].tag);
    }
  }

  /** Over any proper run, with restarts, renames and other chats in between: whenever a listener is up
      the secret a chat was spawned with earns exactly the id its chat has come to have, and nothing once
      it has been revoked or replaced. */
  lemma CredentialFollowsItsChat(s: State, id: SessionId, steps: seq<Step>)
    requires Agrees(s) && IsProper(s, steps) && id in s.chats && NeverMints(steps, s.chats[id].tag)
    requires Run(s, steps).local.Some?
    ensures Earns(Run(s, steps), s.chats[id].tag, s.chats[id].secret) == Follow(s, id, steps)
  {
    RunAgrees(s, steps);
    FollowRun(s, id, steps);
    if Follow(s, id, steps).Some? { FollowedEarns(Run(s, steps), Follow(s, id, steps).value); }
  }

  /** The same from the spawn on: what a mint hands the agent earns the id its chat comes to have. */
  lemma SpawnedSecretFollowsItsChat(s: State, id: SessionId, c: Credential, steps: seq<Step>)
    requires Agrees(s) && s.local.Some? && IsFresh(s, c.tag)
    requires IsProper(Mint(s, id, c), steps) && NeverMints(steps, c.tag) && Run(Mint(s, id, c), steps).local.Some?
    ensures Earns(Run(Mint(s, id, c), steps), c.tag, c.secret) == Follow(Mint(s, id, c), id, steps)
  {
    MintAgrees(s, id, c);
    MintEarns(s, id, c, c.tag, c.secret);
    EarnsIff(Mint(s, id, c), c.tag, c.secret, id);
    CredentialFollowsItsChat(Mint(s, id, c), id, steps);
  }

  /** Switching local access off and on changes what no credential earns. */
  lemma RestartKeepsCredentials(s: State, tag: Label, secret: string)
    requires Agrees(s) && s.local.Some?
    ensures Earns(Started(Stopped(s)), tag, secret) == Earns(s, tag, secret)
    ensures Earns(Stopped(s), tag, secret) == None
  {
    assert Started(Stopped(s)).local == s.local;
  }
}
