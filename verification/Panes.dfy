/** `promote_per_pane_tabs` and `needs_tree_restore` of `apps/desktop/src/project_panes_factory.rs`:
    a leaf that held several terminals becomes a split of leaves that hold one each. */
module Panes {
  import opened Results

  datatype Axis = Horizontal | Vertical

  datatype Tree = Leaf | Split(axis: Axis, children: seq<Tree>, weights: seq<real>)

  /** One terminal: what is kept of a leaf's own fields or of one tab in its strip. */
  datatype Terminal = Terminal(cwd: Option<string>, surfaceId: string, tabId: string, readOnly: bool)

  datatype SubPane = SubPane(own: Terminal, tabs: seq<Terminal>, activeTab: nat)

  const DEFAULT_PANE := SubPane(Terminal(None, "", "", false), [], 0)

  function Single(t: Terminal): SubPane { SubPane(t, [], 0) }

  /** The terminals of a leaf: its tab strip, or the one its own fields carry. */
  function Terminals(sp: SubPane): (ts: seq<Terminal>)
    ensures ts != []
  {
    if sp.tabs == [] then [sp.own] else sp.tabs
  }

  function PaneAt(panes: seq<SubPane>, i: nat): SubPane {
    if i < |panes| then panes[i] else DEFAULT_PANE
  }

  function ActiveTab(sp: SubPane): (k: nat)
    ensures k < |Terminals(sp)|
  {
    if sp.tabs == [] then 0 else if sp.activeTab < |sp.tabs| - 1 then sp.activeTab else |sp.tabs| - 1
  }

  // ---------- Leaves in depth-first order ----------

  function Leaves(t: Tree): nat
    decreases t, 0
  {
    match t case Leaf => 1 case Split(_, children, _) => LeavesOf(children)
  }

  function LeavesOf(ts: seq<Tree>): nat
    decreases ts, 1
  {
    if ts == [] then 0 else Leaves(ts[0]) + LeavesOf(ts[1..])
  }

  /** The terminals of old leaves `from..from + n`, leaf after leaf. */
  function Flatten(panes: seq<SubPane>, from: nat, n: nat): seq<Terminal>
    decreases n
  {
    if n == 0 then [] else Terminals(PaneAt(panes, from)) + Flatten(panes, from + 1, n - 1)
  }

  function Singles(ts: seq<Terminal>): seq<SubPane> {
    seq(|ts|, i requires 0 <= i < |ts| => Single(ts[i]))
  }

  // ---------- The promoted tree ----------

  function EvenWeights(n: nat): seq<real>
    requires n > 0
  {
    seq(n, _ => 1.0 / n as real)
  }

  function LeafFor(n: nat): Tree {
    if n <= 1 then Leaf else Split(Horizontal, seq(n, _ => Leaf), EvenWeights(n))
  }

  function Promote(t: Tree, panes: seq<SubPane>, from: nat): Tree
    decreases t, 0
  {
    match t
    case Leaf => LeafFor(|Terminals(PaneAt(panes, from))|)
    case Split(axis, children, weights) => Split(axis, PromoteAll(children, panes, from), weights)
  }

  function PromoteAll(ts: seq<Tree>, panes: seq<SubPane>, from: nat): (r: seq<Tree>)
    ensures |r| == |ts|
    decreases ts, 1
  {
    if ts == [] then [] else [Promote(ts[0], panes, from)] + PromoteAll(ts[1..], panes, from + Leaves(ts[0]))
  }

  /** Where the terminal shown in old leaf `active` lands; `None` when there is no such leaf. */
  function ActivePosition(panes: seq<SubPane>, leaves: nat, active: nat): Option<nat> {
    if active < leaves then Some(|Flatten(panes, 0, active)| + ActiveTab(PaneAt(panes, active))) else None
  }

  datatype Promotion = Promotion(tree: Tree, panes: seq<SubPane>, active: nat)

  function PromotePerPaneTabs(t: Tree, panes: seq<SubPane>, active: nat): Promotion {
    var out := Singles(Flatten(panes, 0, Leaves(t)));
    var at := ActivePosition(panes, Leaves(t), active);
    Promotion(Promote(t, panes, 0), out, if at.Some? then at.value else 0)
  }

  // ---------- The walk ----------

  /** What the recursive walk threads through its mutable arguments. */
  datatype Walked = Walked(nextOldLeaf: nat, out: seq<SubPane>, activeNewPos: Option<nat>)

  /** The state after `n` leaves have been visited from the start. */
  function AfterLeaves(panes: seq<SubPane>, n: nat, active: nat): Walked {
    Walked(n, Singles(Flatten(panes, 0, n)), ActivePosition(panes, n, active))
  }

  lemma {:induction false} FlattenSplit(panes: seq<SubPane>, from: nat, m: nat, n: nat)
    ensures Flatten(panes, from, m + n) == Flatten(panes, from, m) + Flatten(panes, from + m, n)
    decreases m
  {
    if m > 0 { FlattenSplit(panes, from + 1, m - 1, n); }
  }

  lemma OneMoreLeaf(panes: seq<SubPane>, n: nat)
    ensures Flatten(panes, 0, n + 1) == Flatten(panes, 0, n) + Terminals(PaneAt(panes, n))
  {
    FlattenSplit(panes, 0, n, 1);
    assert Flatten(panes, n, 1) == Terminals(PaneAt(panes, n)) + Flatten(panes, n + 1, 0);
  }

  lemma SinglesJoin(a: seq<Terminal>, b: seq<Terminal>)
    ensures Singles(a + b) == Singles(a) + Singles(b)
  {
  }

  lemma {:induction false} LeavesConcat(a: seq<Tree>, b: seq<Tree>)
    ensures LeavesOf(a + b) == LeavesOf(a) + LeavesOf(b)
    decreases |a|
  {
    if a == [] {
      assert a + b == b;
    } else {
      assert (a + b)[1..] == a[1..] + b;
      LeavesConcat(a[1..], b);
    }
  }

  lemma Associate<T>(x: T, s: seq<T>, t: seq<T>)
    ensures [x] + s + t == [x] + (s + t)
  {
  }

  lemma {:induction false} PromoteConcat(a: seq<Tree>, b: seq<Tree>, panes: seq<SubPane>, from: nat)
    ensures PromoteAll(a + b, panes, from) == PromoteAll(a, panes, from) + PromoteAll(b, panes, from + LeavesOf(a))
    decreases |a|
  {
    if a == [] {
      assert a + b == b;
    } else {
      var x := Promote(a[0], panes, from);
      var next := from + Leaves(a[0]);
      PromoteConcat(a[1..], b, panes, next);
      assert (a + b)[0] == a[0] && (a + b)[1..] == a[1..] + b;
      assert PromoteAll(a + b, panes, from) == [x] + PromoteAll(a[1..] + b, panes, next);
      assert PromoteAll(a, panes, from) == [x] + PromoteAll(a[1..], panes, next);
      assert next + LeavesOf(a[1..]) == from + LeavesOf(a);
      Associate(x, PromoteAll(a[1..], panes, next), PromoteAll(b, panes, from + LeavesOf(a)));
    }
  }

  lemma OneMoreChild(children: seq<Tree>, i: nat, panes: seq<SubPane>, from: nat)
    requires i < |children|
    ensures LeavesOf(children[..i + 1]) == LeavesOf(children[..i]) + Leaves(children[i])
    ensures PromoteAll(children[..i + 1], panes, from) ==
            PromoteAll(children[..i], panes, from) + [Promote(children[i], panes, from + LeavesOf(children[..i]))]
  {
    assert children[..i + 1] == children[..i] + [children[i]];
    LeavesConcat(children[..i], [children[i]]);
    PromoteConcat(children[..i], [children[i]], panes, from);
  }

  lemma AfterOneLeaf(panes: seq<SubPane>, n: nat, active: nat)
    ensures var w, sp := AfterLeaves(panes, n, active), PaneAt(panes, n);
            AfterLeaves(panes, n + 1, active) ==
            Walked(n + 1, w.out + Singles(Terminals(sp)), if n == active then Some(|w.out| + ActiveTab(sp)) else w.activeNewPos)
  {
    OneMoreLeaf(panes, n);
    SinglesJoin(Flatten(panes, 0, n), Terminals(PaneAt(panes, n)));
  }

  method Walk(node: Tree, panes: seq<SubPane>, active: nat, before: Walked) returns (tree: Tree, after: Walked)
    requires before == AfterLeaves(panes, before.nextOldLeaf, active)
    ensures tree == Promote(node, panes, before.nextOldLeaf)
    ensures after == AfterLeaves(panes, before.nextOldLeaf + Leaves(node), active)
    decreases node
  {
    match node
    case Leaf =>
      var oldIndex := before.nextOldLeaf;
      var sp := PaneAt(panes, oldIndex);
      var terminals := if sp.tabs == [] then [sp.own] else sp.tabs;
      var base := |before.out|;
      var position := before.activeNewPos;
      if oldIndex == active {
        var at := if sp.tabs == [] then 0
                  else if sp.activeTab < |terminals| - 1 then sp.activeTab else |terminals| - 1;
        position := Some(base + at);
      }
      AfterOneLeaf(panes, oldIndex, active);
      after := Walked(oldIndex + 1, before.out + Singles(terminals), position);
      tree := LeafFor(|terminals|);
    case Split(axis, children, weights) =>
      var newChildren: seq<Tree> := [];
      after := before;
      for i := 0 to |children|
        invariant newChildren == PromoteAll(children[..i], panes, before.nextOldLeaf)
        invariant after == AfterLeaves(panes, before.nextOldLeaf + LeavesOf(children[..i]), active)
      {
        var child;
        child, after := Walk(children[i], panes, active, after);
        OneMoreChild(children, i, panes, before.nextOldLeaf);
        newChildren := newChildren + [child];
      }
      assert children[..|children|] == children;
      tree := Split(axis, newChildren, weights);
  }

  method PromoteTabs(t: Tree, panes: seq<SubPane>, activeSubPane: nat) returns (r: Promotion)
    ensures r == PromotePerPaneTabs(t, panes, activeSubPane)
  {
    var tree, walked := Walk(t, panes, activeSubPane, Walked(0, [], None));
    var position := if walked.activeNewPos.Some? then walked.activeNewPos.value else 0;
    var last := if walked.out == [] then 0 else |walked.out| - 1;
    if activeSubPane < Leaves(t) { ActiveIsInRange(t, panes, activeSubPane); }
    r := Promotion(tree, walked.out, if position < last then position else last);
  }

  // ---------- Nothing is lost ----------

  lemma {:induction false} FlattenPanes(panes: seq<SubPane>, from: nat, n: nat, i: nat, k: nat)
    requires i < n && k < |Terminals(PaneAt(panes, from + i))|
    ensures var at := |Flatten(panes, from, i)| + k;
            at < |Flatten(panes, from, n)| && Flatten(panes, from, n)[at] == Terminals(PaneAt(panes, from + i))[k]
  {
    FlattenSplit(panes, from, i, n - i);
  }

  lemma ActiveIsInRange(t: Tree, panes: seq<SubPane>, active: nat)
    requires active < Leaves(t)
    ensures var p, sp := PromotePerPaneTabs(t, panes, active), PaneAt(panes, active);
            p.active < |p.panes| && p.panes[p.active] == Single(Terminals(sp)[ActiveTab(sp)])
  {
    FlattenPanes(panes, 0, Leaves(t), active, ActiveTab(PaneAt(panes, active)));
  }

  // ---------- Field by field ----------

  /** How many terminals leaf `i` stands for: the tabs of its strip, and one when there is none. */
  function Count(panes: seq<SubPane>, i: nat): nat {
    if i < |panes| && |panes[i].tabs| > 1 then |panes[i].tabs| else 1
  }

  /** How many there are before leaf `i`. */
  function Before(panes: seq<SubPane>, i: nat): nat {
    if i == 0 then 0 else Before(panes, i - 1) + Count(panes, i - 1)
  }

  /** The `k`-th terminal of leaf `i`; a leaf without a pane stands for an empty one. */
  predicate IsTerminal(panes: seq<SubPane>, i: nat, k: nat, t: Terminal) {
    if i >= |panes| then t == Terminal(None, "", "", false)
    else if panes[i].tabs == [] then t == panes[i].own
    else k < |panes[i].tabs| && t == panes[i].tabs[k]
  }

  lemma {:induction false} BeforeIsFlattened(panes: seq<SubPane>, i: nat)
    ensures |Flatten(panes, 0, i)| == Before(panes, i)
    decreases i
  {
    if i > 0 {
      BeforeIsFlattened(panes, i - 1);
      OneMoreLeaf(panes, i - 1);
    }
  }

  lemma IsOneTerminal(panes: seq<SubPane>, i: nat, k: nat)
    requires k < Count(panes, i)
    ensures k < |Terminals(PaneAt(panes, i))| && IsTerminal(panes, i, k, Terminals(PaneAt(panes, i))[k])
  {
  }

  /** Every terminal of every leaf is in the new list, at its place, with all its fields, in a pane of
      its own without a strip; and the list has no other entries. */
  lemma EachTerminalIsKept(t: Tree, panes: seq<SubPane>, active: nat, i: nat, k: nat)
    requires i < Leaves(t) && k < Count(panes, i)
    ensures var out := PromotePerPaneTabs(t, panes, active).panes;
            && |out| == Before(panes, Leaves(t)) && Before(panes, i) + k < |out|
            && var entry := out[Before(panes, i) + k];
               IsTerminal(panes, i, k, entry.own) && entry.tabs == [] && entry.activeTab == 0
  {
    BeforeIsFlattened(panes, i);
    BeforeIsFlattened(panes, Leaves(t));
    IsOneTerminal(panes, i, k);
    FlattenPanes(panes, 0, Leaves(t), i, k);
    SingleAt(Flatten(panes, 0, Leaves(t)), Before(panes, i) + k);
  }

  lemma SingleAt(ts: seq<Terminal>, k: nat)
    requires k < |ts|
    ensures |Singles(ts)| == |ts| && Singles(ts)[k] == Single(ts[k])
  {
  }

  /** What a pane has on screen: its own terminal, or the tab its strip has active (the last one when
      that index is past the end). */
  predicate IsShown(sp: SubPane, t: Terminal) {
    if sp.tabs == [] then t == sp.own
    else if sp.activeTab < |sp.tabs| then t == sp.tabs[sp.activeTab]
    else t == sp.tabs[|sp.tabs| - 1]
  }

  /** The new active index names the terminal that was on screen, or the first when no leaf was active. */
  lemma ActiveNamesTheActiveTerminal(t: Tree, panes: seq<SubPane>, active: nat)
    ensures var p := PromotePerPaneTabs(t, panes, active);
            && (active >= Leaves(t) ==> p.active == 0)
            && (active < Leaves(t) ==> p.active < |p.panes| && p.panes[p.active].tabs == [])
            && (active < Leaves(t) && active < |panes| ==> IsShown(panes[active], p.panes[p.active].own))
  {
    if active < Leaves(t) { ActiveIsInRange(t, panes, active); }
  }

  /** All terminals of all panes, with no reference to the tree. */
  function AllTerminals(panes: seq<SubPane>): seq<Terminal> {
    if panes == [] then []
    else (if panes[0].tabs == [] then [panes[0].own] else panes[0].tabs) + AllTerminals(panes[1..])
  }

  lemma {:induction false} FlattenIsAll(panes: seq<SubPane>, from: nat)
    requires from <= |panes|
    ensures Flatten(panes, from, |panes| - from) == AllTerminals(panes[from..])
    decreases |panes| - from
  {
    if from < |panes| {
      FlattenIsAll(panes, from + 1);
      assert panes[from..][1..] == panes[from + 1..];
    }
  }

  lemma {:induction false} LongerFlatten(panes: seq<SubPane>, from: nat, n: nat)
    ensures |Flatten(panes, from, n)| >= n
    decreases n
  {
    if n > 0 { LongerFlatten(panes, from + 1, n - 1); }
  }

  lemma FlattenGrows(panes: seq<SubPane>, m: nat, n: nat)
    requires m < n
    ensures |Flatten(panes, 0, m)| < |Flatten(panes, 0, n)|
  {
    FlattenSplit(panes, 0, m, n - m);
    LongerFlatten(panes, m, n - m);
  }

  /** The terminals of panes without strips. */
  function Owns(panes: seq<SubPane>): seq<Terminal> {
    seq(|panes|, i requires 0 <= i < |panes| => panes[i].own)
  }

  lemma OwnsOfSingles(ts: seq<Terminal>)
    ensures Owns(Singles(ts)) == ts
  {
  }

  /** The terminals come out complete, in order and unaltered exactly when the tree has one leaf per
      pane: with fewer leaves some are dropped, with more some are made up. */
  lemma PromotionConservesTerminals(t: Tree, panes: seq<SubPane>, active: nat)
    ensures Owns(PromotePerPaneTabs(t, panes, active).panes) == AllTerminals(panes) <==> Leaves(t) == |panes|
  {
    var n, all := Leaves(t), Flatten(panes, 0, |panes|);
    FlattenIsAll(panes, 0);
    assert panes[0..] == panes;
    if n < |panes| { FlattenGrows(panes, n, |panes|); }
    if n > |panes| { FlattenGrows(panes, |panes|, n); }
    OwnsOfSingles(Flatten(panes, 0, n));
  }

  // ---------- The new tree fits the new list ----------

  lemma {:induction false} LeavesAreLeaves(n: nat)
    ensures LeavesOf(seq(n, _ => Leaf)) == n
    decreases n
  {
    if n > 0 {
      assert seq(n, _ => Leaf)[1..] == seq(n - 1, _ => Leaf);
      LeavesAreLeaves(n - 1);
    }
  }

  lemma {:induction false} OneLeafPerTerminal(t: Tree, panes: seq<SubPane>, from: nat)
    ensures Leaves(Promote(t, panes, from)) == |Flatten(panes, from, Leaves(t))|
    decreases t, 0
  {
    match t
    case Leaf =>
      var n := |Terminals(PaneAt(panes, from))|;
      assert Flatten(panes, from, 1) == Terminals(PaneAt(panes, from)) + Flatten(panes, from + 1, 0);
      if n > 1 { LeavesAreLeaves(n); }
    case Split(axis, children, weights) => OneLeafPerTerminalAll(children, panes, from);
  }

  lemma OneTree(t: Tree)
    ensures LeavesOf([t]) == Leaves(t)
  {
    assert [t][1..] == [];
  }

  lemma {:induction false} OneLeafPerTerminalAll(ts: seq<Tree>, panes: seq<SubPane>, from: nat)
    ensures LeavesOf(PromoteAll(ts, panes, from)) == |Flatten(panes, from, LeavesOf(ts))|
    decreases ts, 1
  {
    if ts != [] {
      var next := from + Leaves(ts[0]);
      OneLeafPerTerminal(ts[0], panes, from);
      OneLeafPerTerminalAll(ts[1..], panes, next);
      FlattenSplit(panes, from, Leaves(ts[0]), LeavesOf(ts[1..]));
      LeavesConcat([Promote(ts[0], panes, from)], PromoteAll(ts[1..], panes, next));
      OneTree(Promote(ts[0], panes, from));
    }
  }

  function Sum(ws: seq<real>): real {
    if ws == [] then 0.0 else ws[0] + Sum(ws[1..])
  }

  lemma {:induction false} SumOfEqual(n: nat, w: real)
    ensures Sum(seq(n, _ => w)) == n as real * w
    decreases n
  {
    if n > 0 {
      assert seq(n, _ => w)[1..] == seq(n - 1, _ => w);
      SumOfEqual(n - 1, w);
      OneMoreWeight(n - 1, w);
    }
  }

  lemma OneMoreWeight(m: nat, w: real)
    ensures (m + 1) as real * w == w + m as real * w
  {
    assert (m + 1) as real == m as real + 1.0;
  }

  lemma WeightsShareEvenly(n: nat, w: real)
    requires n > 0 && w == 1.0 / n as real
    ensures w > 0.0 && w * n as real == 1.0 && n as real * w == 1.0
  {
  }

  /** A leaf of several terminals becomes one row of that many leaves sharing the whole width. */
  lemma PromotedLeafIsEvenRow(panes: seq<SubPane>, from: nat)
    ensures var n, t := |Terminals(PaneAt(panes, from))|, Promote(Leaf, panes, from);
            if n == 1 then t == Leaf
            else t.Split? && t.axis == Horizontal && |t.children| == n &&
                 (forall c | c in t.children :: c == Leaf) &&
                 (forall w | w in t.weights :: w > 0.0 && w * n as real == 1.0) && Sum(t.weights) == 1.0
  {
    var n := |Terminals(PaneAt(panes, from))|;
    var w := 1.0 / n as real;
    SumOfEqual(n, w);
    WeightsShareEvenly(n, w);
    assert forall v | v in EvenWeights(n) :: v == w;
  }

  /** One weight per child, everywhere. */
  predicate IsWeighted(t: Tree)
    decreases t
  {
    match t
    case Leaf => true
    case Split(_, children, weights) =>
      |children| == |weights| && forall c | c in children :: IsWeighted(c)
  }

  lemma {:induction false} PromotionKeepsWeighted(t: Tree, panes: seq<SubPane>, from: nat)
    requires IsWeighted(t)
    ensures IsWeighted(Promote(t, panes, from))
    decreases t, 0
  {
    if t.Split? { PromotionKeepsWeightedAll(t.children, panes, from); }
  }

  lemma {:induction false} PromotionKeepsWeightedAll(ts: seq<Tree>, panes: seq<SubPane>, from: nat)
    requires forall c | c in ts :: IsWeighted(c)
    ensures forall c | c in PromoteAll(ts, panes, from) :: IsWeighted(c)
    decreases ts, 1
  {
    if ts != [] {
      PromotionKeepsWeighted(ts[0], panes, from);
      PromotionKeepsWeightedAll(ts[1..], panes, from + Leaves(ts[0]));
    }
  }

  // ---------- Promotion only adds splits ----------

  /** Undo: read `t` in depth-first order against the number of terminals each old leaf had, and fold
      every split that stands for one old leaf back into that leaf. */
  function Collapse(t: Tree, counts: nat -> nat, from: nat): Tree
    decreases t, 0
  {
    match t
    case Leaf => Leaf
    case Split(axis, children, weights) =>
      if counts(from) > 1 && t == LeafFor(counts(from)) then Leaf
      else Split(axis, CollapseAll(children, counts, from), weights)
  }

  function CollapseAll(ts: seq<Tree>, counts: nat -> nat, from: nat): seq<Tree>
    decreases ts, 1
  {
    if ts == [] then []
    else
      var first := Collapse(ts[0], counts, from);
      [first] + CollapseAll(ts[1..], counts, from + Leaves(first))
  }

  function Counts(panes: seq<SubPane>): nat -> nat {
    i => |Terminals(PaneAt(panes, i))|
  }

  /** A split promoted from a split never looks like one promoted from a leaf of several terminals. */
  lemma SplitIsNotALeaf(t: Tree, panes: seq<SubPane>, from: nat)
    requires t.Split? && Counts(panes)(from) > 1
    ensures Promote(t, panes, from) != LeafFor(Counts(panes)(from))
  {
    var n := Counts(panes)(from);
    if t.children != [] {
      assert PromoteAll(t.children, panes, from)[0] == Promote(t.children[0], panes, from);
      assert LeafFor(n).children[0] == Leaf;
    } else {
      assert |LeafFor(n).children| == n;
    }
  }

  lemma {:induction false} CollapseUndoesPromotion(t: Tree, panes: seq<SubPane>, from: nat)
    ensures Collapse(Promote(t, panes, from), Counts(panes), from) == t
    decreases t, 0
  {
    if t.Split? {
      if Counts(panes)(from) > 1 { SplitIsNotALeaf(t, panes, from); }
      CollapseAllUndoesPromotion(t.children, panes, from);
    }
  }

  lemma {:induction false} CollapseAllUndoesPromotion(ts: seq<Tree>, panes: seq<SubPane>, from: nat)
    ensures CollapseAll(PromoteAll(ts, panes, from), Counts(panes), from) == ts
    decreases ts, 1
  {
    if ts != [] {
      CollapseUndoesPromotion(ts[0], panes, from);
      CollapseAllUndoesPromotion(ts[1..], panes, from + Leaves(ts[0]));
      assert PromoteAll(ts, panes, from)[1..] == PromoteAll(ts[1..], panes, from + Leaves(ts[0]));
    }
  }

  // ---------- Idempotence ----------

  lemma {:induction false} PromoteSingles(t: Tree, panes: seq<SubPane>, from: nat)
    requires forall i | 0 <= i < |panes| :: panes[i].tabs == []
    ensures Promote(t, panes, from) == t
    decreases t, 0
  {
    if t.Split? { PromoteAllSingles(t.children, panes, from); }
  }

  lemma {:induction false} PromoteAllSingles(ts: seq<Tree>, panes: seq<SubPane>, from: nat)
    requires forall i | 0 <= i < |panes| :: panes[i].tabs == []
    ensures PromoteAll(ts, panes, from) == ts
    decreases ts, 1
  {
    if ts != [] {
      PromoteSingles(ts[0], panes, from);
      PromoteAllSingles(ts[1..], panes, from + Leaves(ts[0]));
    }
  }

  lemma {:induction false} FlattenSingles(panes: seq<SubPane>, n: nat)
    requires n <= |panes| && forall i | 0 <= i < |panes| :: panes[i].tabs == []
    ensures |Flatten(panes, 0, n)| == n && forall i | 0 <= i < n :: Flatten(panes, 0, n)[i] == panes[i].own
    decreases n
  {
    if n > 0 {
      FlattenSingles(panes, n - 1);
      OneMoreLeaf(panes, n - 1);
    }
  }

  /** A second promotion changes nothing: tree, list and active index. */
  lemma PromotionIsIdempotent(t: Tree, panes: seq<SubPane>, active: nat)
    ensures var p := PromotePerPaneTabs(t, panes, active);
            PromotePerPaneTabs(p.tree, p.panes, p.active) == p
  {
    var p := PromotePerPaneTabs(t, panes, active);
    OneLeafPerTerminal(t, panes, 0);
    PromoteSingles(p.tree, p.panes, 0);
    FlattenSingles(p.panes, |p.panes|);
    assert Singles(Flatten(p.panes, 0, |p.panes|)) == p.panes;
    if active < Leaves(t) { ActiveIsInRange(t, panes, active); }
    if p.active < |p.panes| { FlattenSingles(p.panes, p.active); }
  }

  // ---------- When the slow restore path is needed ----------

  predicate NeedsTreeRestore(panes: seq<SubPane>) {
    |panes| > 1 || exists i :: 0 <= i < |panes| && |panes[i].tabs| > 1
  }

  /** The slow path is taken exactly for a tab that restores to more than one terminal. */
  lemma NeedsTreeRestoreIffSeveralTerminals(t: Tree, panes: seq<SubPane>, active: nat)
    requires Leaves(t) == |panes|
    ensures NeedsTreeRestore(panes) <==> |PromotePerPaneTabs(t, panes, active).panes| > 1
  {
    LongerFlatten(panes, 0, |panes|);
    if |panes| == 1 { OneMoreLeaf(panes, 0); }
  }
}
