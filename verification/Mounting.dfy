/** The mounting methods of ReactSkia/components/RSkComponent.cpp on components that point to each other. */
module Mounting {
  import opened ComponentTree
  import opened Options

  class RSkComponent {
    const tag: Tag
    const container: bool
    const selectable: bool
    var parent: RSkComponent?
    var navComponentList: seq<RSkComponent>

    constructor (tag: Tag, container: bool, selectable: bool)
      ensures this.tag == tag && this.container == container && this.selectable == selectable
      ensures parent == null && navComponentList == []
    {
      this.tag, this.container, this.selectable := tag, container, selectable;
      parent, navComponentList := null, [];
    }

    predicate IsFocusable() {
      selectable || container
    }

    /** Climbs to the nearest ancestor that is a container. */
    method NearestAncestorContainer(ghost world: map<Tag, RSkComponent>, ghost depth: map<Tag, nat>)
      returns (container: RSkComponent?)
      requires Registered(world) && Known(world, this) && Ranked(View(world), depth)
      ensures parent == null ==> container == null
      ensures parent != null ==>
        var stop := StopAbove(View(world), depth, parent.tag);
        container == if world[stop].container then world[stop] else null
    {
      container := parent;
      while container != null && !container.container
        invariant container != null ==> Known(world, container) && parent != null
        invariant container != null ==> StopAbove(View(world), depth, parent.tag) == StopAbove(View(world), depth, container.tag)
        invariant container == null && parent != null ==> !world[StopAbove(View(world), depth, parent.tag)].container
        decreases if container == null then 0 else depth[container.tag] + 1
      {
        assert Known(world, container);
        container := container.parent;
      }
    }

    method AddComponent(newCandidate: RSkComponent)
      modifies `navComponentList
      ensures navComponentList == old(navComponentList) + [newCandidate]
    {
      navComponentList := navComponentList + [newCandidate];
    }

    /** Appends candidates; the list they come from is passed by value and stays as it is. */
    method MergeComponent(candidates: seq<RSkComponent>)
      modifies `navComponentList
      ensures navComponentList == old(navComponentList) + candidates
    {
      navComponentList := navComponentList + candidates;
    }

    /** Mounts a child and puts the candidates it brings where they belong. */
    method MountChildComponent(newChildComponent: RSkComponent?, ghost world: map<Tag, RSkComponent>, ghost depth: map<Tag, nat>)
      requires Registered(world) && Known(world, this) && Ranked(View(world), depth)
      requires newChildComponent != null ==> Known(world, newChildComponent) && CanMount(View(world), depth, tag, newChildComponent.tag)
      modifies world.Values
      ensures Registered(world)
      ensures newChildComponent == null ==> View(world) == old(View(world))
      ensures newChildComponent != null ==> View(world) == Mounted(old(View(world)), depth, tag, newChildComponent.tag)
    {
      if newChildComponent == null {
        return;
      }
      ghost var before := View(world);
      ghost var c := newChildComponent.tag;
      SetParentOf(newChildComponent, world);
      ParentedTarget(before, depth, tag, c, View(world));
      var containerToAdd := FindContainerToAdd(world, Deepened(before, depth, tag, c));
      PlaceCandidates(containerToAdd, newChildComponent, world);
    }

    /** The first part of mounting: the child points to its parent. */
    method SetParentOf(newChildComponent: RSkComponent, ghost world: map<Tag, RSkComponent>)
      requires Registered(world) && Known(world, this) && Known(world, newChildComponent)
      modifies newChildComponent`parent
      ensures Registered(world)
      ensures View(world) == old(View(world))[newChildComponent.tag := old(View(world))[newChildComponent.tag].(parent := Some(tag))]
    {
      ghost var before := View(world);
      newChildComponent.parent := this;
      ViewAt(world, before, newChildComponent);
    }

    /** The second part: this component if it is a container or has no ancestor container, else that container. */
    method FindContainerToAdd(ghost world: map<Tag, RSkComponent>, ghost depth: map<Tag, nat>)
      returns (containerToAdd: RSkComponent)
      requires Registered(world) && Known(world, this) && Ranked(View(world), depth)
      ensures Known(world, containerToAdd) && containerToAdd.tag == ContainerToAdd(View(world), depth, tag)
    {
      var found: RSkComponent? := null;
      if !container {
        found := NearestAncestorContainer(world, depth);
      }
      containerToAdd := if found == null then this else found;
    }
  }

  /** The last part of mounting: the child, if focusable, and its own candidates, unless it is a container. */
  method PlaceCandidates(containerToAdd: RSkComponent, newChildComponent: RSkComponent, ghost world: map<Tag, RSkComponent>)
    requires Registered(world) && Known(world, containerToAdd) && Known(world, newChildComponent)
    modifies containerToAdd`navComponentList
    ensures Registered(world)
    ensures var target := old(View(world))[containerToAdd.tag];
      View(world) == old(View(world))[containerToAdd.tag :=
        target.(list := target.list + Brought(old(View(world)), newChildComponent.tag))]
  {
    ghost var before, list := View(world), containerToAdd.navComponentList;
    var own := newChildComponent.navComponentList;
    if newChildComponent.IsFocusable() {
      containerToAdd.AddComponent(newChildComponent);
      if !newChildComponent.container && |own| != 0 {
        containerToAdd.MergeComponent(own);
      }
    } else if |own| != 0 {
      containerToAdd.MergeComponent(own);
    }
    TagsOfBrought(list, newChildComponent, own);
    assert containerToAdd.navComponentList
        == list + (if newChildComponent.IsFocusable() then [newChildComponent] else []) + (if newChildComponent.container then [] else own);
    ViewAt(world, before, containerToAdd);
  }

  /** If all other components are as they were, one node of the forest is new. */
  lemma ViewAt(world: map<Tag, RSkComponent>, before: Forest, x: RSkComponent)
    requires Known(world, x) && before.Keys == world.Keys
    requires forall t | t in world && t != x.tag :: NodeOf(world[t]) == before[t]
    ensures View(world) == before[x.tag := NodeOf(x)]
  {
  }

  /** The component is the one registered under its tag. */
  predicate Known(world: map<Tag, RSkComponent>, x: RSkComponent) {
    x.tag in world && world[x.tag] == x
  }

  /** Parents and candidates of registered components are registered too. */
  predicate Registered(world: map<Tag, RSkComponent>)
    reads world.Values
  {
    forall t | t in world ::
      && world[t].tag == t
      && (world[t].parent != null ==> Known(world, world[t].parent))
      && (forall x | x in world[t].navComponentList :: Known(world, x))
  }

  function Tags(list: seq<RSkComponent>): seq<Tag> {
    seq(|list|, i requires 0 <= i < |list| => list[i].tag)
  }

  function NodeOf(x: RSkComponent): Node
    reads x
  {
    Node(x.container, x.IsFocusable(), if x.parent == null then None else Some(x.parent.tag), Tags(x.navComponentList))
  }

  /** The registered components as a forest. */
  function View(world: map<Tag, RSkComponent>): Forest
    reads world.Values
  {
    map t | t in world :: NodeOf(world[t])
  }

  lemma TagsOfBrought(list: seq<RSkComponent>, x: RSkComponent, own: seq<RSkComponent>)
    ensures Tags(list + (if x.IsFocusable() then [x] else []) + (if x.container then [] else own))
            == Tags(list) + ((if x.IsFocusable() then [x.tag] else []) + (if x.container then [] else Tags(own)))
  {
  }

  /** Where climbing stops does not depend on the lists. */
  lemma {:induction false} StopIgnoresLists(f: Forest, g: Forest, depth: map<Tag, nat>, x: Tag)
    requires Ranked(f, depth) && Ranked(g, depth) && f.Keys == g.Keys && x in f
    requires forall y | y in f :: f[y].container == g[y].container && f[y].parent == g[y].parent
    ensures StopAbove(f, depth, x) == StopAbove(g, depth, x)
    decreases depth[x]
  {
    if !Stops(f, x) {
      StopIgnoresLists(f, g, depth, f[x].parent.value);
    }
  }

  /** Once the child points to its parent, climbing from the parent still stops where it did. */
  lemma ParentedStop(f: Forest, depth: map<Tag, nat>, p: Tag, c: Tag, g: Forest)
    requires Ranked(f, depth) && CanMount(f, depth, p, c) && g == f[c := f[c].(parent := Some(p))]
    ensures Ranked(g, Deepened(f, depth, p, c))
    ensures StopAbove(g, Deepened(f, depth, p, c), p) == StopAbove(f, depth, p)
  {
    MountedIsRanked(f, depth, p, c);
    StopIsNotInOtherFragment(f, depth, p);
    MountedStop(f, depth, p, c, p);
    StopIgnoresLists(g, Mounted(f, depth, p, c), Deepened(f, depth, p, c), p);
  }

  /** So the container to add to is the one it was, and adding the child's candidates there completes the mount. */
  lemma ParentedTarget(f: Forest, depth: map<Tag, nat>, p: Tag, c: Tag, g: Forest)
    requires Ranked(f, depth) && CanMount(f, depth, p, c) && g == f[c := f[c].(parent := Some(p))]
    ensures var deep := Deepened(f, depth, p, c);
      Ranked(g, deep) && ContainerToAdd(g, deep, p) == ContainerToAdd(f, depth, p)
    ensures var target := ContainerToAdd(f, depth, p);
      g[target := g[target].(list := g[target].list + Brought(g, c))] == Mounted(f, depth, p, c)
  {
    ParentedStop(f, depth, p, c, g);
  }
}
