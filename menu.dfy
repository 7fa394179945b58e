/**
 * The side menu: the expansion state `menuDesplegado`, the two ways it changes, and the
 * listing of groups and titles that the menu renders from it and from the marker index.
 */
module Menu {
  import opened Groups
  import opened Surface
  import opened Markers

  /**
   * `menuDesplegado`: the boolean `false` at first and after the hamburger toggle, an object
   * keyed by group name once an arrow has been clicked.
   */
  datatype MenuState = Flag(on: bool) | PerGroup(flags: map<Group, bool>)

  /** `useState(false)` */
  const Initial: MenuState := Flag(false)

  /** Whether the menu carries the `visible` class: a boolean is itself, any object is truthy. */
  predicate Visible(s: MenuState)
    ensures s.PerGroup? ==> Visible(s)
    ensures s == Initial ==> !Visible(s)
  {
    match s
    case Flag(on) => on
    case PerGroup(_) => true
  }

  /**
   * `menuDesplegado[group]`: only an object with a `true` entry for the group expands it, so
   * a group is never expanded in a hidden menu, and a boolean expands no group.
   */
  predicate Expanded(s: MenuState, g: Group)
    ensures Expanded(s, g) ==> Visible(s)
    ensures s.Flag? ==> !Expanded(s, g)
  {
    s.PerGroup? && g in s.flags && s.flags[g]
  }

  /**
   * `toggleMenu`: `!menuDesplegado` is always a boolean; it shows a hidden menu, hides a shown
   * one (an object counts as shown), and leaves no group expanded.
   */
  function Toggle(s: MenuState): (r: MenuState)
    ensures r.Flag?
    ensures Visible(r) == !Visible(s)
    ensures s.PerGroup? ==> r == Flag(false)
    ensures forall g :: !Expanded(r, g)
  {
    Flag(!Visible(s))
  }

  /**
   * The arrow of group `g`: `{...prev, [g]: !prev[g]}`. Spreading a boolean copies nothing,
   * and a missing entry reads as `undefined`, whose negation is `true`. The result flips the
   * expansion of `g` alone, and is an object, so the menu is shown.
   */
  function ArrowClick(s: MenuState, g: Group): (r: MenuState)
    ensures r.PerGroup? && Visible(r)
    ensures Expanded(r, g) == !Expanded(s, g)
    ensures forall h :: h != g ==> Expanded(r, h) == Expanded(s, h)
    ensures s.Flag? ==> forall h :: Expanded(r, h) <==> h == g
  {
    var copied := if s.PerGroup? then s.flags else map[];
    PerGroup(copied[g := !Expanded(s, g)])
  }

  /**
   * `Object.keys(markers).filter(title => markers[title].group === group)`: the titles whose
   * entry belongs to `g`, taken in key order.
   */
  function Children(d: Table, g: Group): (r: seq<string>)
    ensures forall t :: t in r <==> t in d.keys && t in d.entries && d.entries[t].group == g
    ensures |r| <= |d.keys|
    ensures Distinct(d.keys) ==> Distinct(r)
    decreases |d.keys|
  {
    if d.keys == [] then []
    else
      var k, rest := d.keys[0], Children(Table(d.keys[1..], d.entries), g);
      assert forall t :: t in d.keys[1..] ==> t in d.keys;
      if k in d.entries && d.entries[k].group == g then
        assert Distinct(d.keys) ==> k !in d.keys[1..];
        [k] + rest
      else
        rest
  }

  /**
   * The filter keeps the order of `Object.keys(markers)`: of two titles listed under `g`, the
   * earlier one is the earlier key.
   */
  lemma {:induction false} ChildrenKeepKeyOrder(d: Table, g: Group, i: nat, j: nat)
    requires i < j < |Children(d, g)|
    ensures Before(d.keys, Children(d, g)[i], Children(d, g)[j])
    decreases |d.keys|
  {
    var r, tail := Children(d, g), Table(d.keys[1..], d.entries);
    var rest := Children(tail, g);
    if d.keys[0] in d.entries && d.entries[d.keys[0]].group == g {
      assert r == [d.keys[0]] + rest;
      if i == 0 {
        assert r[j] == rest[j - 1];
        BeforeFromHead(d.keys, r[j]);
      } else {
        ChildrenKeepKeyOrder(tail, g, i - 1, j - 1);
        BeforeInTail(d.keys, r[i], r[j]);
      }
    } else {
      assert r == rest;
      ChildrenKeepKeyOrder(tail, g, i, j);
      BeforeInTail(d.keys, r[i], r[j]);
    }
  }

  /** One top-level entry of the menu: a group, whether its arrow is up, and the titles it lists. */
  datatype Node = Node(group: Group, expanded: bool, titles: seq<string>)

  /**
   * The rendered menu: one node per key of `Icons`, in declaration order, whatever the data;
   * an expanded node lists exactly the titles of its group, a collapsed one lists nothing.
   */
  function Tree(d: Table, s: MenuState): (r: seq<Node>)
    ensures |r| == |Order|
    ensures forall i :: 0 <= i < |r| ==> r[i].group == Order[i] && r[i].expanded == Expanded(s, Order[i])
    ensures forall i, t :: 0 <= i < |r| ==>
              (t in r[i].titles <==> r[i].expanded && t in d.keys && t in d.entries && d.entries[t].group == Order[i])
  {
    seq(|Order|, i requires 0 <= i < |Order| =>
      Node(Order[i], Expanded(s, Order[i]), if Expanded(s, Order[i]) then Children(d, Order[i]) else []))
  }

  /** The number of titles listed under the groups `gs` when all of them are expanded. */
  function Leaves(d: Table, gs: seq<Group>): nat
  {
    if gs == [] then 0 else |Children(d, gs[0])| + Leaves(d, gs[1..])
  }

  /** Putting one more key in front adds one leaf for each time its group occurs in `gs`. */
  lemma {:induction false} LeavesCons(d: Table, gs: seq<Group>)
    requires d.keys != [] && d.keys[0] in d.entries
    ensures Leaves(d, gs) == Occurrences(gs, d.entries[d.keys[0]].group) + Leaves(Table(d.keys[1..], d.entries), gs)
  {
    if gs != [] {
      LeavesCons(d, gs[1..]);
    }
  }

  /** An index without keys lists nothing under any group. */
  lemma {:induction false} NoKeysNoLeaves(d: Table, gs: seq<Group>)
    requires d.keys == []
    ensures Leaves(d, gs) == 0
  {
    if gs != [] {
      NoKeysNoLeaves(d, gs[1..]);
    }
  }

  /**
   * With every group expanded the menu lists each key exactly once: the leaves under the
   * seven groups add up to the number of keys.
   */
  lemma {:induction false} LeafCount(d: Table)
    requires forall k :: k in d.keys ==> k in d.entries
    ensures Leaves(d, Order) == |d.keys|
    decreases |d.keys|
  {
    if d.keys == [] {
      NoKeysNoLeaves(d, Order);
    } else {
      var rest := Table(d.keys[1..], d.entries);
      assert forall k :: k in rest.keys ==> k in d.keys;
      LeafCount(rest);
      LeavesCons(d, Order);
      OrderListsEveryGroupOnce(d.entries[d.keys[0]].group);

    }
  }

  /** The number of titles a rendered menu lists, over all its nodes. */
  function Listed(ns: seq<Node>): nat
  {
    if ns == [] then 0 else |ns[0].titles| + Listed(ns[1..])
  }

  /** With every group expanded, the nodes from the `k`-th on list the leaves of their groups. */
  lemma {:induction false} TreeSuffixLeaves(d: Table, s: MenuState, k: nat)
    requires forall g :: Expanded(s, g)
    requires k <= |Order|
    ensures Listed(Tree(d, s)[k..]) == Leaves(d, Order[k..])
    decreases |Order| - k
  {
    var t := Tree(d, s);
    if k < |Order| {
      TreeSuffixLeaves(d, s, k + 1);
      assert t[k..][1..] == t[k + 1..];
      assert Order[k..][1..] == Order[k + 1..];
    } else {
      assert t[k..] == [] && Order[k..] == [];
    }
  }

  /**
   * With every group expanded the rendered menu lists each key exactly once: the titles
   * under its seven nodes add up to the number of keys.
   */
  lemma ExpandedMenuListsEveryKey(d: Table, s: MenuState)
    requires forall k :: k in d.keys ==> k in d.entries
    requires forall g :: Expanded(s, g)
    ensures Listed(Tree(d, s)) == |d.keys|
  {
    TreeSuffixLeaves(d, s, 0);
    assert Tree(d, s)[0..] == Tree(d, s) && Order[0..] == Order;
    LeafCount(d);
  }

  /** Each title of a well-formed index sits under exactly one group of the menu: its own. */
  lemma TitleUnderOneGroup(d: Table, t: string, g: Group)
    requires WellFormed(d) && t in d.keys
    ensures t in Children(d, g) <==> g == d.entries[t].group
  {
  }

  /**
   * After a load that runs to its end, the fully expanded menu shows as many titles as the
   * data has distinct titles.
   */
  lemma LoadedLeafCount(layers: Layers, next: Handle, rs: seq<Record>, s: MenuState)
    requires Run(Progress(Empty, layers, next), rs).Completed?
    requires forall g :: Expanded(s, g)
    ensures Listed(Tree(Run(Progress(Empty, layers, next), rs).progress.table, s)) == |Titles(rs)|
  {
    LoadedKeys(layers, next, rs);
    ExpandedMenuListsEveryKey(Run(Progress(Empty, layers, next), rs).progress.table, s);
  }

  /** After a load that runs to its end, a title is listed under the group of its last record and no other. */
  lemma LoadedTitleParent(layers: Layers, next: Handle, rs: seq<Record>, i: nat, g: Group)
    requires Run(Progress(Empty, layers, next), rs).Completed?
    requires i < |rs|
    requires forall j :: i < j < |rs| ==> rs[j].title != rs[i].title
    ensures Lookup(rs[i].group).Some?
    ensures rs[i].title in Children(Run(Progress(Empty, layers, next), rs).progress.table, g)
            <==> g == Lookup(rs[i].group).value
  {
    var p := Progress(Empty, layers, next);
    RunKeepsWellFormed(p, rs);
    RunLastRecordWins(p, rs, i);
  }

  /** A title the menu lists is a key of the index, so clicking it finds its marker. */
  lemma ListedTitleIsKey(d: Table, s: MenuState, i: nat, t: string)
    requires i < |Tree(d, s)|
    requires t in Tree(d, s)[i].titles
    ensures t in d.entries
  {
  }
}
