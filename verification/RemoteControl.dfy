/** The fields of `apps/desktop/src/remote_control.rs` that credentials and the host role live in, and
    the methods that update them, over the local listener's credential table
    (`crates/remote-local/src/serve.rs`). */
module RemoteControl {
  import opened Results
  import opened ChatCredentials

  /** The running listener, by its session credentials. */
  class Listener {
    var table: Table

    constructor ()
      ensures table == map[]
    {
      table := map[];
    }

    /** A fresh credential is scoped to its own label until it is bound. */
    method GrantSession(tag: Label, secret: string)
      modifies this
      ensures table == old(table)[tag := Entry(secret, tag)]
    {
      table := table[tag := Entry(secret, tag)];
    }

    method BindSession(tag: Label, id: SessionId)
      modifies this
      ensures tag !in old(table) ==> table == old(table)
      ensures tag in old(table) ==> table == old(table)[tag := Entry(old(table)[tag].secret, id)]
    {
      if tag in table {
        table := table[tag := table[tag].(claim := id)];
      }
    }

    method RestoreSession(tag: Label, secret: string, id: SessionId)
      modifies this
      ensures table == old(table)[tag := Entry(secret, id)]
    {
      table := table[tag := Entry(secret, id)];
    }

    method RevokeSession(tag: Label)
      modifies this
      ensures table == Remove(old(table), tag)
    {
      table := Remove(table, tag);
    }
  }

  /** What `try_acquire_as` answers about the data directory's lock. */
  datatype Acquire = Acquired | AlreadyRunning | Unreadable

  class RemoteControl {
    var confineChat: bool
    var localEnabled: bool
    var local: Listener?
    var holdsHostLock: bool
    var chats: Chats
    /** Labels whose credential file exists. */
    var files: set<Label>

    constructor (confineChat: bool)
      ensures Snapshot() == BOOT && !holdsHostLock && this.confineChat == confineChat
    {
      this.confineChat := confineChat;
      localEnabled := false;
      local := null;
      holdsHostLock := false;
      chats := map[];
      files := {};
    }

    function Snapshot(): State
      reads this, if local == null then {} else {local}
    {
      State(chats, if local == null then None else Some(local.table), files)
    }

    /** `tag` and `secret` are the random label and token; `file` is whether the file could be written. */
    method MintChatCredential(id: SessionId, tag: Label, secret: string, file: bool) returns (access: Option<Credential>)
      requires IsFresh(Snapshot(), tag)
      modifies this`chats, this`files, if local == null then {} else {local}
      ensures access == if confineChat && old(Snapshot()).local.Some? then Some(Credential(tag, secret, file)) else None
      ensures Snapshot() == if confineChat then Mint(old(Snapshot()), id, Credential(tag, secret, file)) else old(Snapshot())
    {
      if !confineChat || local == null {
        return None;
      }
      var credential := Credential(tag, secret, file);
      local.GrantSession(tag, secret);
      local.BindSession(tag, id);
      assert local.table == old(local.table)[tag := Entry(secret, id)];
      if file {
        files := files + {tag};
      }
      var previous := if id in chats then Some(chats[id]) else None;
      chats := chats[id := credential];
      if previous.Some? {
        local.RevokeSession(previous.value.tag);
        if previous.value.file {
          files := files - {previous.value.tag};
        }
      }
      access := Some(credential);
    }

    method RekeySession(was: SessionId, becomes: SessionId)
      modifies this`chats, if local == null then {} else {local}
      ensures Snapshot() == Rekey(old(Snapshot()), was, becomes)
    {
      if was in chats {
        var credential := chats[was];
        chats := Remove(chats, was);
        if local != null {
          local.BindSession(credential.tag, becomes);
        }
        chats := chats[becomes := credential];
      }
    }

    method RevokeChatCredential(id: SessionId)
      modifies this`chats, this`files, if local == null then {} else {local}
      ensures Snapshot() == Revoke(old(Snapshot()), id)
    {
      if id !in chats {
        return;
      }
      var credential := chats[id];
      chats := Remove(chats, id);
      if local != null {
        local.RevokeSession(credential.tag);
      }
      if credential.file {
        files := files - {credential.tag};
      }
    }

    /** Re-claiming a role already held succeeds whatever the lock file says. */
    method ClaimHostRole(outcome: Acquire) returns (ok: bool)
      modifies this`holdsHostLock
      ensures ok == holdsHostLock == (old(holdsHostLock) || outcome == Acquired)
    {
      if holdsHostLock {
        return true;
      }
      match outcome
      case Acquired =>
        holdsHostLock := true;
        ok := true;
      case AlreadyRunning => ok := false;
      case Unreadable => ok := false;
    }

    /** `ready`: there is a data directory and a runtime; `binds`: the socket could be bound. */
    method StartLocal(ready: bool, outcome: Acquire, binds: bool)
      requires Distinct(chats)
      modifies this`localEnabled, this`holdsHostLock, this`local
      ensures localEnabled
      ensures holdsHostLock == (old(holdsHostLock) || (ready && outcome == Acquired))
      ensures Snapshot() == if ready && holdsHostLock && binds then Started(old(Snapshot())) else old(Snapshot())
    {
      localEnabled := true;
      if !ready {
        return;
      }
      var claimed := ClaimHostRole(outcome);
      if !claimed || !binds {
        return;
      }
      var handle := new Listener();
      ghost var before := chats;
      var todo := chats.Keys;
      while todo != {}
        invariant chats == before && todo <= chats.Keys
        invariant holdsHostLock && localEnabled && local == old(local) && Snapshot() == old(Snapshot())
        invariant forall id :: id in chats && id !in todo ==>
                    chats[id].tag in handle.table && handle.table[chats[id].tag] == Entry(chats[id].secret, id)
        invariant forall l :: l in handle.table ==> l in Labels(chats)
        decreases todo
      {
        var id :| id in todo;
        handle.RestoreSession(chats[id].tag, chats[id].secret, id);
        todo := todo - {id};
      }
      IsInduced(chats, handle.table);
      local := handle;
    }

    method StopLocal()
      modifies this`localEnabled, this`local, this`holdsHostLock
      ensures !localEnabled && !holdsHostLock && Snapshot() == Stopped(old(Snapshot()))
    {
      localEnabled := false;
      local := null;
      holdsHostLock := false;
    }
  }
}
