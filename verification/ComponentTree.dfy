/** Mounting components, and the candidate lists kept on the way: ReactSkia/components/RSkComponent.cpp
    and ReactSkia/core_modules/RSkSpatialNavigatorContainer.cpp, seen as one forest of components. */
module ComponentTree {
  import opened Options

  type Tag = int

  /** A component: is it a container, can it take the focus, its parent, and its candidate list. */
  datatype Node = Node(container: bool, focusable: bool, parent: Option<Tag>, list: seq<Tag>)

  type Forest = map<Tag, Node>

  /** Depths grow from a parent to its children, so there is no cycle; containers are always focusable. */
  ghost predicate Ranked(f: Forest, depth: map<Tag, nat>) {
    && f.Keys <= depth.Keys
    && forall x | x in f ::
      && (f[x].container ==> f[x].focusable)
      && (f[x].parent.Some? ==> f[x].parent.value in f && depth[f[x].parent.value] < depth[x])
  }

  predicate IsRoot(f: Forest, x: Tag) {
    x in f && f[x].parent.None?
  }

  /** Climbing stops at containers and at roots. */
  predicate Stops(f: Forest, x: Tag)
    requires x in f
  {
    f[x].container || f[x].parent.None?
  }

  /** The first component, from `x` upwards, where climbing stops. */
  ghost function StopAbove(f: Forest, depth: map<Tag, nat>, x: Tag): (stop: Tag)
    requires Ranked(f, depth) && x in f
    ensures stop in f && Stops(f, stop) && depth[stop] <= depth[x]
    decreases depth[x]
  {
    if Stops(f, x) then x else StopAbove(f, depth, f[x].parent.value)
  }

  /** Who has to list a mounted component: its nearest ancestor container, or without one the root of its fragment. */
  ghost function Keeper(f: Forest, depth: map<Tag, nat>, x: Tag): (keeper: Tag)
    requires Ranked(f, depth) && x in f && !IsRoot(f, x)
    ensures keeper in f && Stops(f, keeper) && depth[keeper] < depth[x]
  {
    StopAbove(f, depth, f[x].parent.value)
  }

  /** `a` is `x` or one of its ancestors. */
  ghost predicate AtOrAbove(f: Forest, depth: map<Tag, nat>, a: Tag, x: Tag)
    requires Ranked(f, depth) && x in f
    decreases depth[x]
  {
    a == x || (f[x].parent.Some? && AtOrAbove(f, depth, a, f[x].parent.value))
  }

  /** Climbing stops at the innermost container at or above a component, or at the root if there is none. */
  lemma {:induction false} StopIsInnermost(f: Forest, depth: map<Tag, nat>, x: Tag)
    requires Ranked(f, depth) && x in f
    ensures AtOrAbove(f, depth, StopAbove(f, depth, x), x)
    ensures forall c | c in f && f[c].container && AtOrAbove(f, depth, c, x) ::
      f[StopAbove(f, depth, x)].container && AtOrAbove(f, depth, c, StopAbove(f, depth, x))
    decreases depth[x]
  {
    if !Stops(f, x) {
      StopIsInnermost(f, depth, f[x].parent.value);
    }
  }

  /** The root of the fragment that a component belongs to. */
  ghost function Root(f: Forest, depth: map<Tag, nat>, x: Tag): (root: Tag)
    requires Ranked(f, depth) && x in f
    ensures IsRoot(f, root) && depth[root] <= depth[x]
    decreases depth[x]
  {
    if f[x].parent.None? then x else Root(f, depth, f[x].parent.value)
  }

  ghost predicate ShouldList(f: Forest, depth: map<Tag, nat>, keeper: Tag, x: Tag)
    requires Ranked(f, depth)
  {
    x in f && !IsRoot(f, x) && f[x].focusable && Keeper(f, depth, x) == keeper
  }

  /** The list of `keeper` holds exactly once each focusable component it has to list, and nothing else. */
  ghost predicate ListRight(f: Forest, depth: map<Tag, nat>, keeper: Tag)
    requires Ranked(f, depth) && keeper in f
  {
    && (forall i, j | 0 <= i < j < |f[keeper].list| :: f[keeper].list[i] != f[keeper].list[j])
    && (forall x :: x in f[keeper].list <==> ShouldList(f, depth, keeper, x))
  }

  /** All containers and all roots have the right lists; the lists of other components may be stale. */
  ghost predicate ListsRight(f: Forest, depth: map<Tag, nat>)
    requires Ranked(f, depth)
  {
    forall keeper | keeper in f && Stops(f, keeper) :: ListRight(f, depth, keeper)
  }

  ghost predicate Inv(f: Forest) {
    exists depth :: Ranked(f, depth) && ListsRight(f, depth)
  }

  // ---------------------------------------------------------------- mounting

  /** Where `mountChildComponent` of `p` puts candidates: into `p` if it is a container or has no ancestor container,
      else into the nearest ancestor container. */
  ghost function ContainerToAdd(f: Forest, depth: map<Tag, nat>, p: Tag): (target: Tag)
    requires Ranked(f, depth) && p in f
    ensures target in f
  {
    if f[p].container then p
    else
      var above := StopAbove(f, depth, p);
      if f[above].container then above else p
  }

  /** The candidates that a child brings along: itself if focusable, and its list unless it is a container. */
  function Brought(f: Forest, c: Tag): seq<Tag>
    requires c in f
  {
    (if f[c].focusable then [c] else []) + (if f[c].container then [] else f[c].list)
  }

  /** The forest after mounting `c` under `p`. */
  ghost function Mounted(f: Forest, depth: map<Tag, nat>, p: Tag, c: Tag): Forest
    requires Ranked(f, depth) && p in f && c in f
  {
    var target := ContainerToAdd(f, depth, p);
    var g := f[c := f[c].(parent := Some(p))];
    g[target := g[target].(list := g[target].list + Brought(f, c))]
  }

  /** The mounts considered: a detached component goes under one of another fragment. */
  ghost predicate CanMount(f: Forest, depth: map<Tag, nat>, p: Tag, c: Tag)
    requires Ranked(f, depth)
  {
    p in f && IsRoot(f, c) && Root(f, depth, p) != c
  }

  /** The parent is a container, detached, or below a container. */
  ghost predicate GoodParent(f: Forest, depth: map<Tag, nat>, p: Tag)
    requires Ranked(f, depth) && p in f
  {
    f[p].container || f[p].parent.None? || f[StopAbove(f, depth, p)].container
  }

  /** Depths after mounting: the child's fragment moves below the parent. */
  ghost function Deepened(f: Forest, depth: map<Tag, nat>, p: Tag, c: Tag): map<Tag, nat>
    requires Ranked(f, depth) && p in f && c in f
  {
    map x | x in f :: if Root(f, depth, x) == c then depth[x] + depth[p] + 1 else depth[x]
  }

  lemma MountedIsRanked(f: Forest, depth: map<Tag, nat>, p: Tag, c: Tag)
    requires Ranked(f, depth) && CanMount(f, depth, p, c)
    ensures Ranked(Mounted(f, depth, p, c), Deepened(f, depth, p, c))
  {
    var g, deep := Mounted(f, depth, p, c), Deepened(f, depth, p, c);
    forall x | x in g && g[x].parent.Some? ensures g[x].parent.value in g && deep[g[x].parent.value] < deep[x] {
      if x != c {
        assert Root(f, depth, x) == Root(f, depth, f[x].parent.value);
      }
    }
  }

  /** Mounting changes where climbing stops only for what used to stop at the child and now climbs on. */
  lemma {:induction false} MountedStop(f: Forest, depth: map<Tag, nat>, p: Tag, c: Tag, x: Tag)
    requires Ranked(f, depth) && CanMount(f, depth, p, c) && x in f
    requires Ranked(Mounted(f, depth, p, c), Deepened(f, depth, p, c))
    ensures StopAbove(Mounted(f, depth, p, c), Deepened(f, depth, p, c), x)
            == if StopAbove(f, depth, x) == c && !f[c].container then StopAbove(f, depth, p) else StopAbove(f, depth, x)
    decreases Root(f, depth, x) == c, depth[x]
  {
    if x == c {
      if !f[c].container {
        StopIsNotInOtherFragment(f, depth, p);
        MountedStop(f, depth, p, c, p);
      }
    } else if !Stops(f, x) {
      assert Root(f, depth, x) == Root(f, depth, f[x].parent.value);
      MountedStop(f, depth, p, c, f[x].parent.value);
    }
  }

  /** Climbing stays in the fragment. */
  lemma {:induction false} StopIsNotInOtherFragment(f: Forest, depth: map<Tag, nat>, x: Tag)
    requires Ranked(f, depth) && x in f
    ensures Root(f, depth, StopAbove(f, depth, x)) == Root(f, depth, x)
    decreases depth[x]
  {
    if !Stops(f, x) {
      StopIsNotInOtherFragment(f, depth, f[x].parent.value);
    }
  }

  // ---------------------------------------------------------------- mounting keeps the lists right

  /** Who keeps a component that was mounted before: the same as before, except that what the child kept now belongs
      to whatever is found climbing from the parent, unless the child is a container. */
  lemma MountedKeeper(f: Forest, depth: map<Tag, nat>, p: Tag, c: Tag, x: Tag)
    requires Ranked(f, depth) && CanMount(f, depth, p, c) && x in f && !IsRoot(f, x)
    requires Ranked(Mounted(f, depth, p, c), Deepened(f, depth, p, c))
    ensures !IsRoot(Mounted(f, depth, p, c), x)
    ensures Keeper(Mounted(f, depth, p, c), Deepened(f, depth, p, c), x)
            == if Keeper(f, depth, x) == c && !f[c].container then StopAbove(f, depth, p) else Keeper(f, depth, x)
  {
    MountedStop(f, depth, p, c, f[x].parent.value);
  }

  /** The child itself belongs to whatever is found climbing from the parent. */
  lemma ChildKeeper(f: Forest, depth: map<Tag, nat>, p: Tag, c: Tag)
    requires Ranked(f, depth) && CanMount(f, depth, p, c)
    requires Ranked(Mounted(f, depth, p, c), Deepened(f, depth, p, c))
    ensures !IsRoot(Mounted(f, depth, p, c), c)
    ensures Keeper(Mounted(f, depth, p, c), Deepened(f, depth, p, c), c) == StopAbove(f, depth, p)
  {
    StopIsNotInOtherFragment(f, depth, p);
    MountedStop(f, depth, p, c, p);
  }

  /** Who has to be listed by whom after mounting. */
  lemma MountedShouldList(f: Forest, depth: map<Tag, nat>, p: Tag, c: Tag, keeper: Tag, x: Tag)
    requires Ranked(f, depth) && CanMount(f, depth, p, c)
    ensures var g, deep, stop := Mounted(f, depth, p, c), Deepened(f, depth, p, c), StopAbove(f, depth, p);
      Ranked(g, deep) &&
      (ShouldList(g, deep, keeper, x) <==>
       || (keeper == stop && x == c && f[c].focusable)
       || (keeper == stop && !f[c].container && ShouldList(f, depth, c, x))
       || (!(keeper == c && !f[c].container) && ShouldList(f, depth, keeper, x)))
  {
    MountedIsRanked(f, depth, p, c);
    if x == c {
      ChildKeeper(f, depth, p, c);
    } else if x in f && f[x].parent.Some? {
      StopIsNotInOtherFragment(f, depth, p);
      MountedKeeper(f, depth, p, c, x);
    }
  }

  /** What a detached child brings along is exactly what it kept and itself, each once. */
  lemma BroughtOnce(f: Forest, depth: map<Tag, nat>, c: Tag)
    requires Ranked(f, depth) && IsRoot(f, c) && ListRight(f, depth, c)
    ensures var brought := Brought(f, c);
      && (forall i, j | 0 <= i < j < |brought| :: brought[i] != brought[j])
      && forall x :: x in brought <==> (x == c && f[c].focusable) || (!f[c].container && ShouldList(f, depth, c, x))
  {
    var head := if f[c].focusable then [c] else [];
    var tail := if f[c].container then [] else f[c].list;
    assert Brought(f, c) == head + tail;
    assert c !in tail;
  }

  /** The list of the component found climbing from the parent, extended by what the child brings, is right. */
  lemma ExtendedListRight(f: Forest, depth: map<Tag, nat>, p: Tag, c: Tag)
    requires Ranked(f, depth) && ListsRight(f, depth) && CanMount(f, depth, p, c) && GoodParent(f, depth, p)
    ensures Ranked(Mounted(f, depth, p, c), Deepened(f, depth, p, c))
    ensures ListRight(Mounted(f, depth, p, c), Deepened(f, depth, p, c), StopAbove(f, depth, p))
  {
    MountedIsRanked(f, depth, p, c);
    StopIsNotInOtherFragment(f, depth, p);
    var g, deep, stop := Mounted(f, depth, p, c), Deepened(f, depth, p, c), StopAbove(f, depth, p);
    assert ListRight(f, depth, stop) && ListRight(f, depth, c);
    BroughtOnce(f, depth, c);
    var before, brought := f[stop].list, Brought(f, c);
    assert g[stop].list == before + brought;
    forall x ensures x in g[stop].list <==> ShouldList(g, deep, stop, x) {
      MountedShouldList(f, depth, p, c, stop, x);
    }
    forall i, j | 0 <= i < |before| && 0 <= j < |brought| ensures before[i] != brought[j] {
      assert before[i] in before && brought[j] in brought;
    }
  }

  /** With a good parent every mount keeps all lists right. */
  lemma MountKeepsLists(f: Forest, depth: map<Tag, nat>, p: Tag, c: Tag)
    requires Ranked(f, depth) && ListsRight(f, depth) && CanMount(f, depth, p, c) && GoodParent(f, depth, p)
    ensures Ranked(Mounted(f, depth, p, c), Deepened(f, depth, p, c))
    ensures ListsRight(Mounted(f, depth, p, c), Deepened(f, depth, p, c))
  {
    ExtendedListRight(f, depth, p, c);
    var g, deep, stop := Mounted(f, depth, p, c), Deepened(f, depth, p, c), StopAbove(f, depth, p);
    forall keeper | keeper in g && Stops(g, keeper) && keeper != stop ensures ListRight(g, deep, keeper) {
      assert ListRight(f, depth, keeper) && g[keeper].list == f[keeper].list;
      forall x ensures ShouldList(g, deep, keeper, x) <==> ShouldList(f, depth, keeper, x) {
        MountedShouldList(f, depth, p, c, keeper, x);
      }
    }
  }

  /** With a bad parent the root of its fragment misses what the child brings. */
  lemma BadParentMisses(f: Forest, depth: map<Tag, nat>, p: Tag, c: Tag)
    requires Ranked(f, depth) && ListsRight(f, depth) && CanMount(f, depth, p, c) && !GoodParent(f, depth, p)
    ensures Ranked(Mounted(f, depth, p, c), Deepened(f, depth, p, c))
    ensures ListsRight(Mounted(f, depth, p, c), Deepened(f, depth, p, c)) <==> Brought(f, c) == []
  {
    MountedIsRanked(f, depth, p, c);
    StopIsNotInOtherFragment(f, depth, p);
    var g, deep, stop := Mounted(f, depth, p, c), Deepened(f, depth, p, c), StopAbove(f, depth, p);
    assert ListRight(f, depth, c) && ListRight(f, depth, stop);
    BroughtOnce(f, depth, c);
    if Brought(f, c) != [] {
      var x := Brought(f, c)[0];
      assert x in Brought(f, c);
      MountedShouldList(f, depth, p, c, stop, x);
      assert g[stop].list == f[stop].list && x !in f[stop].list;
      assert !ListRight(g, deep, stop);
    } else {
      assert forall x :: x !in Brought(f, c);
      forall keeper | keeper in g && Stops(g, keeper) ensures ListRight(g, deep, keeper) {
        assert ListRight(f, depth, keeper) && g[keeper].list == f[keeper].list;
        forall x ensures ShouldList(g, deep, keeper, x) <==> ShouldList(f, depth, keeper, x) {
          MountedShouldList(f, depth, p, c, keeper, x);
        }
      }
    }
  }

  /** Mounting keeps all lists right exactly if the parent is a container, detached or below a container,
      or the child brings nothing that could take the focus. */
  lemma MountKeepsListsExactly(f: Forest, depth: map<Tag, nat>, p: Tag, c: Tag)
    requires Ranked(f, depth) && ListsRight(f, depth) && CanMount(f, depth, p, c)
    ensures Ranked(Mounted(f, depth, p, c), Deepened(f, depth, p, c))
    ensures ListsRight(Mounted(f, depth, p, c), Deepened(f, depth, p, c))
            <==> GoodParent(f, depth, p) || Brought(f, c) == []
  {
    if GoodParent(f, depth, p) {
      MountKeepsLists(f, depth, p, c);
    } else {
      BadParentMisses(f, depth, p, c);
    }
  }

  /** Components before anything is mounted: all detached, with empty lists. */
  predicate Unmounted(f: Forest) {
    forall x | x in f :: f[x].parent.None? && f[x].list == [] && (f[x].container ==> f[x].focusable)
  }

  lemma UnmountedListsRight(f: Forest, depth: map<Tag, nat>)
    requires Unmounted(f) && Ranked(f, depth)
    ensures ListsRight(f, depth)
  {
  }

  const PLAIN := Node(false, false, None, [])
  const THREE: Forest := map[0 := PLAIN, 1 := PLAIN, 2 := Node(false, true, None, [])]
  const FLAT: map<Tag, nat> := map[0 := 0, 1 := 0, 2 := 0]

  lemma FirstExampleMount()
    ensures Unmounted(THREE) && Ranked(THREE, FLAT) && CanMount(THREE, FLAT, 0, 1) && GoodParent(THREE, FLAT, 0)
    ensures Mounted(THREE, FLAT, 0, 1) == THREE[1 := PLAIN.(parent := Some(0))]
  {
    assert ContainerToAdd(THREE, FLAT, 0) == 0 && Brought(THREE, 1) == [];
    assert Mounted(THREE, FLAT, 0, 1)[0] == PLAIN;
  }

  lemma SecondExampleMount(f: Forest, depth: map<Tag, nat>)
    requires f == THREE[1 := PLAIN.(parent := Some(0))] && Ranked(f, depth)
    ensures CanMount(f, depth, 1, 2) && !GoodParent(f, depth, 1) && Brought(f, 2) == [2]
  {
    assert Root(f, depth, 0) == 0 && StopAbove(f, depth, 0) == 0;
    assert Root(f, depth, 1) == 0 && StopAbove(f, depth, 1) == 0;
  }

  /** Three components that are no containers: 1 is mounted under 0, and then 2, which can take the focus, under 1.
      All is detached, so 2 is listed by 1, and the root 0 misses it. */
  lemma BadParentExample()
    ensures Unmounted(THREE) && Ranked(THREE, FLAT) && CanMount(THREE, FLAT, 0, 1) && GoodParent(THREE, FLAT, 0)
    ensures var f, depth := Mounted(THREE, FLAT, 0, 1), Deepened(THREE, FLAT, 0, 1);
      && Ranked(f, depth) && ListsRight(f, depth) && CanMount(f, depth, 1, 2) && !GoodParent(f, depth, 1) && Brought(f, 2) == [2]
      && Ranked(Mounted(f, depth, 1, 2), Deepened(f, depth, 1, 2))
      && !ListsRight(Mounted(f, depth, 1, 2), Deepened(f, depth, 1, 2))
  {
    FirstExampleMount();
    UnmountedListsRight(THREE, FLAT);
    MountKeepsLists(THREE, FLAT, 0, 1);
    var f, depth := Mounted(THREE, FLAT, 0, 1), Deepened(THREE, FLAT, 0, 1);
    SecondExampleMount(f, depth);
    BadParentMisses(f, depth, 1, 2);
  }

  // ---------------------------------------------------------------- whole runs

  /** Where climbing stops is a matter of the parents alone: any depths give the same answer. */
  lemma {:induction false} DepthsDoNotMatter(f: Forest, depth: map<Tag, nat>, other: map<Tag, nat>, x: Tag)
    requires Ranked(f, depth) && Ranked(f, other) && x in f
    ensures StopAbove(f, depth, x) == StopAbove(f, other, x) && Root(f, depth, x) == Root(f, other, x)
    decreases depth[x]
  {
    if f[x].parent.Some? {
      DepthsDoNotMatter(f, depth, other, f[x].parent.value);
    }
  }

  datatype Mount = Mount(parent: Tag, child: Tag)

  /** Each mount puts a detached component under a good parent of another fragment. */
  ghost predicate GoodRun(f: Forest, depth: map<Tag, nat>, mounts: seq<Mount>)
    requires Ranked(f, depth)
    decreases |mounts|
  {
    mounts != [] ==>
      var p, c := mounts[0].parent, mounts[0].child;
      && CanMount(f, depth, p, c) && GoodParent(f, depth, p)
      && Ranked(Mounted(f, depth, p, c), Deepened(f, depth, p, c))
      && GoodRun(Mounted(f, depth, p, c), Deepened(f, depth, p, c), mounts[1..])
  }

  ghost function AfterMounts(f: Forest, depth: map<Tag, nat>, mounts: seq<Mount>): (Forest, map<Tag, nat>)
    requires Ranked(f, depth) && GoodRun(f, depth, mounts)
    decreases |mounts|
  {
    if mounts == [] then (f, depth)
    else
      var p, c := mounts[0].parent, mounts[0].child;
      AfterMounts(Mounted(f, depth, p, c), Deepened(f, depth, p, c), mounts[1..])
  }

  lemma {:induction false} MountsKeepLists(f: Forest, depth: map<Tag, nat>, mounts: seq<Mount>)
    requires Ranked(f, depth) && ListsRight(f, depth) && GoodRun(f, depth, mounts)
    ensures var (g, deep) := AfterMounts(f, depth, mounts);
      Ranked(g, deep) && ListsRight(g, deep)
    decreases |mounts|
  {
    if mounts != [] {
      var p, c := mounts[0].parent, mounts[0].child;
      MountKeepsLists(f, depth, p, c);
      MountsKeepLists(Mounted(f, depth, p, c), Deepened(f, depth, p, c), mounts[1..]);
    }
  }

  /** After any good run from unmounted components, every container and every root lists exactly what it should. */
  lemma EveryRunListsRight(f: Forest, mounts: seq<Mount>)
    requires Unmounted(f)
    ensures var depth := map x | x in f :: 0;
      Ranked(f, depth) &&
      (GoodRun(f, depth, mounts) ==> Inv(AfterMounts(f, depth, mounts).0))
  {
    var depth: map<Tag, nat> := map x | x in f :: 0;
    UnmountedListsRight(f, depth);
    if GoodRun(f, depth, mounts) {
      MountsKeepLists(f, depth, mounts);
    }
  }
}
