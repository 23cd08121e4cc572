/** The shape gate of `apps/desktop/src/session_restore/restore_fallback.rs`: a saved layout is checked
    before any pane is built from it, so that promotion only ever meets tabs it conserves. */
module RestoreGate {
  import opened Results
  import opened Panes

  const MAX_TREE_DEPTH := 64

  datatype ShapeError =
    EmptySplit | WeightMismatch | BadWeight | TooDeep | GroupCountMismatch | TabCountMismatch | SubPaneCountMismatch

  datatype Tab = Tab(tree: Tree, panes: seq<SubPane>)

  /** `groups` holds each group's number of tabs. */
  datatype Snapshot = Snapshot(groupTree: Option<Tree>, groups: seq<nat>, tabs: seq<Tab>)

  function ValidateTreeAt(t: Tree, depth: nat): Option<ShapeError>
    decreases t, 0
  {
    if depth > MAX_TREE_DEPTH then Some(TooDeep)
    else
      match t
      case Leaf => None
      case Split(_, children, weights) =>
        if children == [] then Some(EmptySplit)
        else if |weights| != |children| then Some(WeightMismatch)
        else if exists w | w in weights :: w <= 0.0 then Some(BadWeight)
        else ValidateAllAt(children, depth + 1)
  }

  function ValidateAllAt(ts: seq<Tree>, depth: nat): Option<ShapeError>
    decreases ts, 1
  {
    if ts == [] then None
    else
      var first := ValidateTreeAt(ts[0], depth);
      if first.Some? then first else ValidateAllAt(ts[1..], depth)
  }

  function Total(counts: seq<nat>): nat {
    if counts == [] then 0 else counts[0] + Total(counts[1..])
  }

  function ValidateGroups(s: Snapshot): Option<ShapeError> {
    if s.groupTree.None? then None
    else
      var bad := ValidateTreeAt(s.groupTree.value, 0);
      if bad.Some? then bad
      else if s.groups == [] then None
      else if Leaves(s.groupTree.value) != |s.groups| then Some(GroupCountMismatch)
      else if Total(s.groups) != |s.tabs| then Some(TabCountMismatch)
      else None
  }

  function ValidateTab(tab: Tab): Option<ShapeError> {
    var bad := ValidateTreeAt(tab.tree, 0);
    if bad.Some? then bad
    else if tab.panes != [] && Leaves(tab.tree) != |tab.panes| then Some(SubPaneCountMismatch)
    else None
  }

  function ValidateTabs(tabs: seq<Tab>): Option<ShapeError> {
    if tabs == [] then None
    else
      var bad := ValidateTab(tabs[0]);
      if bad.Some? then bad else ValidateTabs(tabs[1..])
  }

  function Validate(s: Snapshot): Option<ShapeError> {
    var bad := ValidateGroups(s);
    if bad.Some? then bad else ValidateTabs(s.tabs)
  }

  // ---------- What the gate lets through ----------

  function Height(t: Tree): nat
    decreases t, 0
  {
    match t case Leaf => 0 case Split(_, children, _) => 1 + HeightOf(children)
  }

  function HeightOf(ts: seq<Tree>): nat
    decreases ts, 1
  {
    if ts == [] then 0 else Max(Height(ts[0]), HeightOf(ts[1..]))
  }

  function Max(a: nat, b: nat): nat { if a < b then b else a }

  /** Splits have children, and one positive weight for each. */
  predicate IsWellFormed(t: Tree)
    decreases t
  {
    match t
    case Leaf => true
    case Split(_, children, weights) =>
      && children != [] && |weights| == |children|
      && (forall w | w in weights :: w > 0.0)
      && (forall c | c in children :: IsWellFormed(c))
  }

  lemma {:induction false} TreePasses(t: Tree, depth: nat)
    ensures ValidateTreeAt(t, depth).None? <==> IsWellFormed(t) && depth + Height(t) <= 64
    decreases t, 0
  {
    if t.Split? { TreesPass(t.children, depth + 1); }
  }

  lemma {:induction false} TreesPass(ts: seq<Tree>, depth: nat)
    ensures ValidateAllAt(ts, depth).None? <==>
            (forall c | c in ts :: IsWellFormed(c)) && (ts == [] || depth + HeightOf(ts) <= 64)
    decreases ts, 1
  {
    if ts != [] {
      TreePasses(ts[0], depth);
      TreesPass(ts[1..], depth);
      assert forall c :: c in ts <==> c == ts[0] || c in ts[1..];
    }
  }

  predicate TabFits(tab: Tab) {
    && IsWellFormed(tab.tree) && Height(tab.tree) <= 64
    && (tab.panes == [] || Leaves(tab.tree) == |tab.panes|)
  }

  lemma {:induction false} TabsPass(tabs: seq<Tab>)
    ensures ValidateTabs(tabs).None? <==> forall i :: 0 <= i < |tabs| ==> TabFits(tabs[i])
    decreases |tabs|
  {
    if tabs != [] {
      TreePasses(tabs[0].tree, 0);
      TabsPass(tabs[1..]);
      assert forall i :: 0 < i < |tabs| ==> tabs[i] == tabs[1..][i - 1];
    }
  }

  /** A layout passes iff all its trees are well formed and not too high, every tab that lists panes has
      a leaf for each, and groups, if listed, account for every leaf and every tab. */
  lemma PassesIff(s: Snapshot)
    ensures Validate(s).None? <==>
            && (forall i :: 0 <= i < |s.tabs| ==> TabFits(s.tabs[i]))
            && (s.groupTree.Some? ==>
                  && IsWellFormed(s.groupTree.value) && Height(s.groupTree.value) <= 64
                  && (s.groups == [] || (Leaves(s.groupTree.value) == |s.groups| && Total(s.groups) == |s.tabs|)))
  {
    if s.groupTree.Some? { TreePasses(s.groupTree.value, 0); }
    TabsPass(s.tabs);
  }

  /** The tree, standing at this depth, has the fault somewhere. */
  predicate HasFault(t: Tree, depth: nat, e: ShapeError)
    decreases t
  {
    || (e == TooDeep && depth > 64)
    || (t.Split? && (
          || (e == EmptySplit && t.children == [])
          || (e == WeightMismatch && |t.weights| != |t.children|)
          || (e == BadWeight && exists w | w in t.weights :: w <= 0.0)
          || exists c | c in t.children :: HasFault(c, depth + 1, e)))
  }

  lemma {:induction false} TreeIsRejectedFor(t: Tree, depth: nat, e: ShapeError)
    requires ValidateTreeAt(t, depth) == Some(e)
    ensures HasFault(t, depth, e)
    decreases t, 0
  {
    if t.Split? && ValidateAllAt(t.children, depth + 1) == Some(e) {
      var c := TreesAreRejectedFor(t.children, depth + 1, e);
    }
  }

  lemma {:induction false} TreesAreRejectedFor(ts: seq<Tree>, depth: nat, e: ShapeError) returns (c: Tree)
    requires ValidateAllAt(ts, depth) == Some(e)
    ensures c in ts && HasFault(c, depth, e)
    decreases ts, 1
  {
    if ValidateTreeAt(ts[0], depth).Some? {
      TreeIsRejectedFor(ts[0], depth, e);
      c := ts[0];
    } else {
      c := TreesAreRejectedFor(ts[1..], depth, e);
    }
  }

  predicate TabHasFault(tab: Tab, e: ShapeError) {
    HasFault(tab.tree, 0, e) || (e == SubPaneCountMismatch && tab.panes != [] && Leaves(tab.tree) != |tab.panes|)
  }

  predicate GroupsHaveFault(s: Snapshot, e: ShapeError) {
    s.groupTree.Some? && (
      || HasFault(s.groupTree.value, 0, e)
      || (e == GroupCountMismatch && s.groups != [] && Leaves(s.groupTree.value) != |s.groups|)
      || (e == TabCountMismatch && s.groups != [] && Total(s.groups) != |s.tabs|))
  }

  lemma {:induction false} TabIsRejectedFor(tabs: seq<Tab>, e: ShapeError) returns (i: nat)
    requires ValidateTabs(tabs) == Some(e)
    ensures i < |tabs| && TabHasFault(tabs[i], e)
    decreases |tabs|
  {
    if ValidateTab(tabs[0]).Some? {
      if ValidateTreeAt(tabs[0].tree, 0).Some? { TreeIsRejectedFor(tabs[0].tree, 0, e); }
      i := 0;
    } else {
      i := TabIsRejectedFor(tabs[1..], e);
      i := i + 1;
    }
  }

  /** A layout is rejected only for a fault it has. */
  lemma RejectedForAFault(s: Snapshot, e: ShapeError)
    requires Validate(s) == Some(e)
    ensures GroupsHaveFault(s, e) || exists i :: 0 <= i < |s.tabs| && TabHasFault(s.tabs[i], e)
  {
    if ValidateGroups(s).Some? {
      if ValidateTreeAt(s.groupTree.value, 0).Some? { TreeIsRejectedFor(s.groupTree.value, 0, e); }
    } else {
      var i := TabIsRejectedFor(s.tabs, e);
    }
  }

  /** In a layout that passes, every tab restored as a tree keeps all its terminals, and shows the one it
      showed; on any other tab promotion is not called. */
  lemma AcceptedTabsConserve(s: Snapshot, i: nat, active: nat)
    requires Validate(s).None? && i < |s.tabs| && NeedsTreeRestore(s.tabs[i].panes)
    ensures var tab := s.tabs[i];
            var p := PromotePerPaneTabs(tab.tree, tab.panes, active);
            && Owns(p.panes) == AllTerminals(tab.panes) && Leaves(p.tree) == |p.panes| > 1
            && (active < |tab.panes| ==> p.active < |p.panes| && IsShown(tab.panes[active], p.panes[p.active].own))
  {
    var tab := s.tabs[i];
    PassesIff(s);
    assert TabFits(tab);
    PromotionConservesTerminals(tab.tree, tab.panes, active);
    OneLeafPerTerminal(tab.tree, tab.panes, 0);
    NeedsTreeRestoreIffSeveralTerminals(tab.tree, tab.panes, active);
    ActiveNamesTheActiveTerminal(tab.tree, tab.panes, active);
  }

  // ---------- Promoted layouts are saved and loaded again ----------

  /** No leaf of several terminals sits at the greatest depth allowed, where its row would not fit. */
  predicate HasRoom(t: Tree, panes: seq<SubPane>, from: nat, depth: nat)
    decreases t, 0
  {
    match t
    case Leaf => |Terminals(PaneAt(panes, from))| > 1 ==> depth < 64
    case Split(_, children, _) => AllHaveRoom(children, panes, from, depth + 1)
  }

  predicate AllHaveRoom(ts: seq<Tree>, panes: seq<SubPane>, from: nat, depth: nat)
    decreases ts, 1
  {
    ts == [] || (HasRoom(ts[0], panes, from, depth) && AllHaveRoom(ts[1..], panes, from + Leaves(ts[0]), depth))
  }

  lemma {:induction false} LeavesPass(ts: seq<Tree>, depth: nat)
    requires forall c | c in ts :: c == Leaf
    ensures ValidateAllAt(ts, depth).None? <==> ts == [] || depth <= 64
    decreases |ts|
  {
    if ts != [] {
      assert ts[0] in ts && forall c :: c in ts[1..] ==> c in ts;
      LeavesPass(ts[1..], depth);
    }
  }

  lemma {:induction false} PromotedTreePasses(t: Tree, panes: seq<SubPane>, from: nat, depth: nat)
    ensures ValidateTreeAt(Promote(t, panes, from), depth).None? <==>
            ValidateTreeAt(t, depth).None? && HasRoom(t, panes, from, depth)
    decreases t, 0
  {
    match t
    case Leaf =>
      PromotedLeafIsEvenRow(panes, from);
      var p := Promote(Leaf, panes, from);
      if p.Split? {
        assert |p.weights| == |p.children|;
        LeavesPass(p.children, depth + 1);
      }
    case Split(_, children, _) => PromotedTreesPass(children, panes, from, depth + 1);
  }

  lemma {:induction false} PromotedTreesPass(ts: seq<Tree>, panes: seq<SubPane>, from: nat, depth: nat)
    ensures ValidateAllAt(PromoteAll(ts, panes, from), depth).None? <==>
            ValidateAllAt(ts, depth).None? && AllHaveRoom(ts, panes, from, depth)
    decreases ts, 1
  {
    if ts != [] {
      var next := from + Leaves(ts[0]);
      PromotedTreePasses(ts[0], panes, from, depth);
      PromotedTreesPass(ts[1..], panes, next, depth);
      assert PromoteAll(ts, panes, from)[1..] == PromoteAll(ts[1..], panes, next);
    }
  }

  /** A promoted tab passes the gate again iff it had passed in its tree and had room for the rows. */
  lemma PromotedTabPassesIff(tab: Tab, active: nat)
    ensures var p := PromotePerPaneTabs(tab.tree, tab.panes, active);
            ValidateTab(Tab(p.tree, p.panes)).None? <==>
              ValidateTreeAt(tab.tree, 0).None? && HasRoom(tab.tree, tab.panes, 0, 0)
  {
    PromotedTreePasses(tab.tree, tab.panes, 0, 0);
    OneLeafPerTerminal(tab.tree, tab.panes, 0);
  }
}
