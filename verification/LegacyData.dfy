/** `adopt_from` of `apps/desktop/src/app_paths.rs`: move what an older build left in another directory,
    over a file system any of whose operations may fail. */
module LegacyData {
  import opened Results

  type Name = string

  datatype Entry = File(bytes: string) | Folder(tree: string)

  type Dir = map<Name, Entry>

  /** The two directories; `None` is a directory that does not exist. */
  datatype Disk = Disk(legacy: Option<Dir>, current: Option<Dir>)

  /** Which operations fail, by the entry being looked at (each is looked at once). A failed operation
      changes nothing. */
  datatype Faults = Faults(
    unlisted: set<Name>,        // directory entries that cannot be read
    badRead: set<Name>,         // either copy of a file cannot be read
    badRemove: set<Name>,
    badMkdir: set<Name>,        // creating the current directory
    badRename: set<Name>,
    badRmdir: bool)             // removing the legacy directory

  const NO_FAULTS := Faults({}, {}, {}, {}, {}, false)

  function Contents(d: Option<Dir>): Dir { if d.Some? then d.value else map[] }

  // ---------- The operations ----------

  /** A regular file with the same bytes on both sides. */
  predicate SameFile(a: Entry, b: Entry) { a.File? && b.File? && a == b }

  class FileSystem {
    var legacy: Option<Dir>
    var current: Option<Dir>
    const faults: Faults

    constructor (disk: Disk, faults: Faults)
      ensures State() == disk && this.faults == faults
    {
      legacy, current := disk.legacy, disk.current;
      this.faults := faults;
    }

    function State(): Disk
      reads this
    {
      Disk(legacy, current)
    }

    predicate Exists(name: Name)
      reads this
    {
      name in Contents(current)
    }

    /** `fs::read` on both copies and the comparison of what they hold. */
    function ReadsSame(name: Name): bool
      reads this
      requires name in Contents(legacy) && name in Contents(current)
    {
      name !in faults.badRead && SameFile(Contents(legacy)[name], Contents(current)[name])
    }

    method RemoveFile(name: Name)
      requires name in Contents(legacy)
      modifies this`legacy
      ensures legacy == if name in faults.badRemove then old(legacy) else Some(old(legacy).value - {name})
    {
      if name !in faults.badRemove {
        legacy := Some(legacy.value - {name});
      }
    }

    method CreateCurrent(name: Name) returns (ok: bool)
      modifies this`current
      ensures ok == (name !in faults.badMkdir)
      ensures current == if ok && old(current).None? then Some(map[]) else old(current)
    {
      ok := name !in faults.badMkdir;
      if ok && current.None? {
        current := Some(map[]);
      }
    }

    method Rename(name: Name) returns (ok: bool)
      requires name in Contents(legacy) && current.Some?
      modifies this
      ensures ok == (name !in faults.badRename)
      ensures State() == if ok then Disk(Some(old(legacy).value - {name}), Some(old(current).value[name := old(legacy).value[name]]))
                         else old(State())
    {
      ok := name !in faults.badRename;
      if ok {
        current := Some(current.value[name := legacy.value[name]]);
        legacy := Some(legacy.value - {name});
      }
    }

    method RemoveLegacy()
      modifies this`legacy
      ensures legacy == if old(legacy) == Some(map[]) && !faults.badRmdir then None else old(legacy)
    {
      if legacy.Some? && legacy.value == map[] && !faults.badRmdir {
        legacy := None;
      }
    }

    /** `listing` is the order in which the directory is read. */
    method AdoptFrom(listing: seq<Name>) returns (moved: seq<Name>)
      requires IsListing(listing, legacy)
      modifies this
      ensures Adopted(State(), moved) == Adopt(old(State()), faults, listing)
    {
      moved := [];
      if legacy.None? {
        return;
      }
      ghost var start := State();
      assert listing[0..] == listing;
      assert forall j :: 0 <= j < |listing| ==> listing[j] in listing;
      for i := 0 to |listing|
        invariant legacy.Some? && forall j :: i <= j < |listing| ==> listing[j] in legacy.value
        invariant Loop(start, faults, listing, []) == Loop(State(), faults, listing[i..], moved)
      {
        var name := listing[i];
        assert listing[i..][1..] == listing[i + 1..] && listing[i..][0] == name;
        if name in faults.unlisted {
          continue;
        }
        if Exists(name) {
          if ReadsSame(name) {
            RemoveFile(name);
          }
          continue;
        }
        var made := CreateCurrent(name);
        if !made {
          return;
        }
        var renamed := Rename(name);
        if renamed {
          moved := moved + [name];
        }
      }
      RemoveLegacy();
    }
  }

  /** Each entry of the directory is listed once. */
  ghost predicate IsListing(listing: seq<Name>, legacy: Option<Dir>) {
    && (forall n :: n in listing <==> n in Contents(legacy))
    && (forall i, j :: 0 <= i < j < |listing| ==> listing[i] != listing[j])
  }

  // ---------- The run as a function ----------

  datatype Adopted = Adopted(disk: Disk, moved: seq<Name>)

  /** One entry; `None` when the run stops because the current directory cannot be made. */
  function AdoptOne(d: Disk, f: Faults, name: Name, moved: seq<Name>): Option<Adopted> {
    var from, cur := Contents(d.legacy), Contents(d.current);
    if name in f.unlisted || name !in from then Some(Adopted(d, moved))
    else if name in cur then
      if name !in f.badRead && SameFile(from[name], cur[name]) && name !in f.badRemove
      then Some(Adopted(Disk(Some(from - {name}), d.current), moved))
      else Some(Adopted(d, moved))
    else if name in f.badMkdir then None
    else if name in f.badRename then Some(Adopted(Disk(d.legacy, Some(cur)), moved))
    else Some(Adopted(Disk(Some(from - {name}), Some(cur[name := from[name]])), moved + [name]))
  }

  function Loop(d: Disk, f: Faults, listing: seq<Name>, moved: seq<Name>): Adopted
    decreases |listing|
  {
    if listing == [] then
      Adopted(if d.legacy == Some(map[]) && !f.badRmdir then d.(legacy := None) else d, moved)
    else
      match AdoptOne(d, f, listing[0], moved)
      case None => Adopted(d, moved)
      case Some(a) => Loop(a.disk, f, listing[1..], a.moved)
  }

  function Adopt(d: Disk, f: Faults, listing: seq<Name>): Adopted {
    if d.legacy.None? then Adopted(d, []) else Loop(d, f, listing, [])
  }

  // ---------- Nothing is lost ----------

  /** `b` is `a` after some entries went from legacy to current, and some copies were dropped. */
  ghost predicate Conserves(a: Disk, b: Disk) {
    var l, c, l', c' := Contents(a.legacy), Contents(a.current), Contents(b.legacy), Contents(b.current);
    && (forall n :: n in c ==> n in c' && c'[n] == c[n])
    && (forall n :: n in l ==> (n in l' && l'[n] == l[n]) || (n in c' && c'[n] == l[n]))
    && (forall n :: n in l' ==> n in l && l'[n] == l[n])
    && (forall n :: n in c' && n !in c ==> n in l && n !in l')
  }

  /** What has been reported as moved is what is in current now and was not before. */
  ghost predicate Reports(a: Disk, b: Disk, moved: seq<Name>) {
    && (forall n :: n in moved <==> n in Contents(b.current) && n !in Contents(a.current))
    && (forall i, j :: 0 <= i < j < |moved| ==> moved[i] != moved[j])
  }

  lemma OneConserves(start: Disk, d: Disk, f: Faults, name: Name, moved: seq<Name>)
    requires Conserves(start, d) && Reports(start, d, moved)
    ensures match AdoptOne(d, f, name, moved)
            case None => true
            case Some(a) => Conserves(start, a.disk) && Reports(start, a.disk, a.moved)
  {
  }

  lemma {:induction false} LoopConserves(start: Disk, d: Disk, f: Faults, listing: seq<Name>, moved: seq<Name>)
    requires Conserves(start, d) && Reports(start, d, moved)
    ensures var r := Loop(d, f, listing, moved); Conserves(start, r.disk) && Reports(start, r.disk, r.moved)
    decreases |listing|
  {
    if listing != [] {
      OneConserves(start, d, f, listing[0], moved);
      match AdoptOne(d, f, listing[0], moved)
      case None =>
      case Some(a) => LoopConserves(start, a.disk, f, listing[1..], a.moved);
    }
  }

  /** Under any pattern of failures: no entry of current changes, every legacy entry is still there or is
      in current under its name with its content, what is reported as moved is exactly what was added,
      and the legacy directory goes only when nothing is left in it. */
  lemma NothingIsLost(d: Disk, f: Faults, listing: seq<Name>)
    ensures var r := Adopt(d, f, listing);
            && Conserves(d, r.disk) && Reports(d, r.disk, r.moved)
            && (d.legacy.Some? && r.disk.legacy.None? ==>
                  forall n :: n in d.legacy.value ==> n in Contents(r.disk.current) && Contents(r.disk.current)[n] == d.legacy.value[n])
            && (d.current.Some? ==> r.disk.current.Some?)
  {
    LoopConserves(d, d, f, listing, []);
    LoopKeepsCurrent(d, f, listing, []);
  }

  lemma {:induction false} LoopKeepsCurrent(d: Disk, f: Faults, listing: seq<Name>, moved: seq<Name>)
    ensures d.current.Some? ==> Loop(d, f, listing, moved).disk.current.Some?
    decreases |listing|
  {
    if listing != [] {
      match AdoptOne(d, f, listing[0], moved)
      case None =>
      case Some(a) => LoopKeepsCurrent(a.disk, f, listing[1..], a.moved);
    }
  }

  // ---------- What becomes of each entry ----------

  /** The run ends at this entry: it should move, and the current directory cannot be made. */
  predicate Halts(f: Faults, cur: Dir, n: Name) { n !in f.unlisted && n !in cur && n in f.badMkdir }

  predicate Moves(f: Faults, cur: Dir, n: Name) { n !in f.unlisted && n !in cur && n !in f.badRename }

  /** A copy that current has too, and that can be seen to be the same and removed. */
  predicate Drops(f: Faults, l: Dir, cur: Dir, n: Name)
    requires n in l
  {
    n !in f.unlisted && n in cur && l[n].File? && l[n] == cur[n] && n !in f.badRead && n !in f.badRemove
  }

  predicate AreDistinct(ns: seq<Name>) { forall i, j :: 0 <= i < j < |ns| ==> ns[i] != ns[j] }

  /** Nothing happens to a name that is not to be looked at. */
  lemma {:induction false} OthersAreLeft(d: Disk, f: Faults, todo: seq<Name>, moved: seq<Name>, n: Name)
    requires n !in todo
    ensures var r := Loop(d, f, todo, moved).disk;
            (n in Contents(r.legacy) <==> n in Contents(d.legacy)) && (n in Contents(r.current) <==> n in Contents(d.current))
    decreases |todo|
  {
    if todo != [] {
      match AdoptOne(d, f, todo[0], moved)
      case None =>
      case Some(a) => OthersAreLeft(a.disk, f, todo[1..], a.moved, n);
    }
  }

  ghost predicate IsReached(f: Faults, cur: Dir, todo: seq<Name>, i: nat)
    requires i < |todo|
  {
    forall j :: 0 <= j <= i ==> !Halts(f, cur, todo[j])
  }

  ghost predicate Fares(d: Disk, f: Faults, todo: seq<Name>, i: nat, r: Disk)
    requires i < |todo| && todo[i] in Contents(d.legacy)
  {
    var n, l, cur := todo[i], Contents(d.legacy), Contents(d.current);
    && (n in Contents(r.current) <==> n in cur || (IsReached(f, cur, todo, i) && Moves(f, cur, n)))
    && (n !in Contents(r.legacy) <==> IsReached(f, cur, todo, i) && (Moves(f, cur, n) || Drops(f, l, cur, n)))
  }

  lemma {:induction false} LoopFares(d: Disk, f: Faults, todo: seq<Name>, moved: seq<Name>, i: nat)
    requires i < |todo| && AreDistinct(todo) && forall n :: n in todo ==> n in Contents(d.legacy)
    ensures Fares(d, f, todo, i, Loop(d, f, todo, moved).disk)
    decreases |todo|
  {
    var rest := todo[1..];
    assert todo[i] in Contents(d.legacy) && todo[0] in Contents(d.legacy) && todo[0] !in rest;
    match AdoptOne(d, f, todo[0], moved)
    case None => assert Halts(f, Contents(d.current), todo[0]);
    case Some(a) =>
      if i == 0 {
        OthersAreLeft(a.disk, f, rest, a.moved, todo[0]);
      } else {
        LoopFares(a.disk, f, rest, a.moved, i - 1);
        ReachedLater(f, Contents(d.current), Contents(a.disk.current), todo, i);
      }
  }

  lemma ReachedLater(f: Faults, cur: Dir, cur': Dir, todo: seq<Name>, i: nat)
    requires 0 < i < |todo| && AreDistinct(todo) && !Halts(f, cur, todo[0])
    requires forall n :: n != todo[0] ==> (n in cur' <==> n in cur)
    ensures IsReached(f, cur, todo, i) <==> IsReached(f, cur', todo[1..], i - 1)
  {
    assert forall j :: 1 <= j <= i ==> todo[j] == todo[1..][j - 1];
    if IsReached(f, cur', todo[1..], i - 1) {
      forall j | 0 <= j <= i
        ensures !Halts(f, cur, todo[j])
      {
        assert j > 0 ==> !Halts(f, cur', todo[1..][j - 1]);
      }
    }
  }

  /** The names that move, in the order of the listing. */
  function Movers(f: Faults, cur: Dir, todo: seq<Name>): seq<Name> {
    if todo == [] || Halts(f, cur, todo[0]) then []
    else (if Moves(f, cur, todo[0]) then [todo[0]] else []) + Movers(f, cur, todo[1..])
  }

  lemma {:induction false} LoopMoves(d: Disk, f: Faults, todo: seq<Name>, moved: seq<Name>, cur: Dir)
    requires AreDistinct(todo) && forall n :: n in todo ==> n in Contents(d.legacy) && (n in Contents(d.current) <==> n in cur)
    ensures Loop(d, f, todo, moved).moved == moved + Movers(f, cur, todo)
    decreases |todo|
  {
    if todo != [] {
      assert todo[0] in todo && todo[0] !in todo[1..];
      match AdoptOne(d, f, todo[0], moved)
      case None =>
      case Some(a) => LoopMoves(a.disk, f, todo[1..], a.moved, cur);
    }
  }

  /** Some entry gets as far as a rename, for which the current directory is made if need be. */
  predicate Makes(f: Faults, cur: Dir, todo: seq<Name>) {
    todo != [] && !Halts(f, cur, todo[0]) &&
    ((todo[0] !in f.unlisted && todo[0] !in cur) || Makes(f, cur, todo[1..]))
  }

  lemma {:induction false} LoopDirectories(d: Disk, f: Faults, todo: seq<Name>, moved: seq<Name>, cur: Dir)
    requires d.legacy.Some? && AreDistinct(todo)
    requires forall n :: n in todo ==> n in Contents(d.legacy) && (n in Contents(d.current) <==> n in cur)
    ensures var r := Loop(d, f, todo, moved).disk;
            && (r.legacy.None? <==> Contents(r.legacy) == map[] && !f.badRmdir)
            && (r.current.Some? <==> d.current.Some? || Makes(f, cur, todo))
    decreases |todo|
  {
    if todo != [] {
      assert todo[0] in todo && todo[0] !in todo[1..];
      match AdoptOne(d, f, todo[0], moved)
      case None =>
      case Some(a) => LoopDirectories(a.disk, f, todo[1..], a.moved, cur);
    }
  }

  /** The legacy directory goes exactly when it is empty at the end and can be removed; the current one
      is made exactly when it is needed. */
  lemma DirectoriesFare(d: Disk, f: Faults, listing: seq<Name>)
    requires IsListing(listing, d.legacy) && d.legacy.Some?
    ensures var r := Adopt(d, f, listing).disk;
            && (r.legacy.None? <==> Contents(r.legacy) == map[] && !f.badRmdir)
            && (r.current.Some? <==> d.current.Some? || Makes(f, Contents(d.current), listing))
  {
    LoopDirectories(d, f, listing, [], Contents(d.current));
  }

  /** What becomes of an entry depends on its own failures only, up to the first entry for which the
      current directory cannot be made: it moves if current lacks it, its copy goes if it is a file that
      current has byte for byte, and else it stays. The names reported are those that moved, as listed. */
  lemma EachEntryFares(d: Disk, f: Faults, listing: seq<Name>, i: nat)
    requires IsListing(listing, d.legacy) && i < |listing|
    ensures listing[i] in Contents(d.legacy)
    ensures Fares(d, f, listing, i, Adopt(d, f, listing).disk)
    ensures Adopt(d, f, listing).moved == Movers(f, Contents(d.current), listing)
  {
    assert listing[i] in listing;
    LoopFares(d, f, listing, [], i);
    LoopMoves(d, f, listing, [], Contents(d.current));
  }

  // ---------- A run without failures ----------

  /** What must stay behind: current has the name, and not as the same file. */
  predicate Stays(l: Dir, c: Dir, n: Name) { n in l && n in c && !SameFile(l[n], c[n]) }

  function Left(l: Dir, c: Dir): Dir { map n | n in l && Stays(l, c, n) :: l[n] }

  function Merged(l: Dir, c: Dir): Dir { l + c }

  /** The disk after a run without failures, said without the order of the run. */
  function Migrated(d: Disk): Disk {
    if d.legacy.None? then d
    else
      var l, c := d.legacy.value, Contents(d.current);
      Disk(if Left(l, c) == map[] then None else Some(Left(l, c)),
           if d.current.None? && l == map[] then None else Some(Merged(l, c)))
  }

  /** Part of the way: the names in `todo` are still to be looked at. */
  ghost predicate IsPartial(start: Disk, d: Disk, todo: seq<Name>) {
    start.legacy.Some? && d.legacy.Some? &&
    var l, c := start.legacy.value, Contents(start.current);
    && (forall n :: n in todo ==> n in l)
    && (forall i, j :: 0 <= i < j < |todo| ==> todo[i] != todo[j])
    && (forall n :: n in d.legacy.value <==> n in todo || Stays(l, c, n))
    && (forall n :: n in d.legacy.value ==> n in l && d.legacy.value[n] == l[n])
    && (forall n :: n in Contents(d.current) <==> n in c || (n in l && n !in todo))
    && (forall n :: n in Contents(d.current) ==> Contents(d.current)[n] == if n in c then c[n] else l[n])
    && (d.current.None? <==> start.current.None? && l.Keys == (set n | n in todo))
  }

  lemma PartialStep(start: Disk, d: Disk, todo: seq<Name>, moved: seq<Name>)
    requires IsPartial(start, d, todo) && todo != []
    ensures var a := AdoptOne(d, NO_FAULTS, todo[0], moved);
            a.Some? && IsPartial(start, a.value.disk, todo[1..])
  {
  }

  lemma {:induction false} PartialFinishes(start: Disk, d: Disk, todo: seq<Name>, moved: seq<Name>)
    requires IsPartial(start, d, todo)
    ensures Loop(d, NO_FAULTS, todo, moved).disk == Migrated(start)
    decreases |todo|
  {
    if todo == [] {
      var l, c := start.legacy.value, Contents(start.current);
      assert d.legacy.value == Left(l, c);
      assert Contents(d.current) == Merged(l, c);
    } else {
      PartialStep(start, d, todo, moved);
      var a := AdoptOne(d, NO_FAULTS, todo[0], moved).value;
      PartialFinishes(start, a.disk, todo[1..], a.moved);
    }
  }

  /** Without failures the outcome is the merge in which current wins, whatever the listing order. */
  lemma AdoptWithoutFaults(d: Disk, listing: seq<Name>)
    requires IsListing(listing, d.legacy)
    ensures Adopt(d, NO_FAULTS, listing).disk == Migrated(d)
  {
    if d.legacy.Some? {
      assert d.legacy.value.Keys == (set n | n in listing);
      PartialFinishes(d, d, listing, []);
    }
  }

  /** After a run without failures a second one, even one with failures, changes nothing and reports nothing. */
  lemma SecondRunIsIdle(d: Disk, listing: seq<Name>, f: Faults, again: seq<Name>)
    requires IsListing(listing, d.legacy)
    ensures Adopt(Migrated(d), f, again) == Adopted(Migrated(d), [])
    ensures Adopt(Adopt(d, NO_FAULTS, listing).disk, f, again) == Adopted(Adopt(d, NO_FAULTS, listing).disk, [])
  {
    AdoptWithoutFaults(d, listing);
    var m := Migrated(d);
    if m.legacy.Some? { IdleLoop(m, f, again); }
  }

  lemma {:induction false} IdleLoop(d: Disk, f: Faults, listing: seq<Name>)
    requires d.legacy.Some? && d.legacy.value != map[]
    requires forall n :: n in d.legacy.value ==> Stays(d.legacy.value, Contents(d.current), n)
    ensures Loop(d, f, listing, []) == Adopted(d, [])
    decreases |listing|
  {
    if listing != [] { IdleLoop(d, f, listing[1..]); }
  }
}
