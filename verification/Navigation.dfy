/** Moving the focus by key presses: the descent into nested containers and the ascent through ancestors
    in ReactSkia/core_modules/RSkSpatialNavigator.cpp, in a tree where no container scrolls. */
module Navigation {
  import opened ComponentTree
  import opened FocusOrder
  import opened FocusSearch
  import opened Options
  import opened Sets

  /** The mounted components, how they look on the screen, and which of them are visible in which container. */
  datatype Scene = Scene(forest: Forest, look: map<Tag, Candidate>, isVisible: (Tag, Candidate) -> bool)

  /** The lists are right, every component has a look of its own tag, and `bound` bounds the depths. */
  ghost predicate WellFormed(s: Scene, depth: map<Tag, nat>, bound: nat) {
    && Ranked(s.forest, depth) && ListsRight(s.forest, depth)
    && s.look.Keys == s.forest.Keys
    && forall x | x in s.forest :: s.look[x].tag == x && depth[x] <= bound
  }

  predicate IsContainer(s: Scene, x: Tag) {
    x in s.forest && s.forest[x].container
  }

  /** The candidates that a container lists. */
  function Candidates(s: Scene, container: Tag): (candidates: seq<Candidate>)
    requires container in s.forest
    requires forall i | 0 <= i < |s.forest[container].list| :: s.forest[container].list[i] in s.look
    ensures |candidates| == |s.forest[container].list|
  {
    seq(|s.forest[container].list|, i requires 0 <= i < |s.forest[container].list| => s.look[s.forest[container].list[i]])
  }

  lemma ListedTagIsBelow(s: Scene, depth: map<Tag, nat>, bound: nat, container: Tag, x: Tag)
    requires WellFormed(s, depth, bound) && IsContainer(s, container) && x in s.forest[container].list
    ensures x in s.look && s.look[x].tag == x && !IsRoot(s.forest, x) && Keeper(s.forest, depth, x) == container
  {
    assert ListRight(s.forest, depth, container);
    assert ShouldList(s.forest, depth, container, x);
  }

  /** What a container lists lies below it. */
  lemma ListedIsBelow(s: Scene, depth: map<Tag, nat>, bound: nat, container: Tag)
    requires WellFormed(s, depth, bound) && IsContainer(s, container)
    ensures forall x | x in s.forest[container].list ::
      x in s.look && !IsRoot(s.forest, x) && Keeper(s.forest, depth, x) == container
    ensures forall i | 0 <= i < |s.forest[container].list| :: s.forest[container].list[i] in s.look
    ensures TagsTell(Candidates(s, container))
    ensures forall c | c in Candidates(s, container) :: c.tag in s.forest[container].list && c == s.look[c.tag]
  {
    var list := s.forest[container].list;
    forall x | x in list ensures x in s.look && !IsRoot(s.forest, x) && Keeper(s.forest, depth, x) == container {
      ListedTagIsBelow(s, depth, bound, container, x);
    }
    forall i | 0 <= i < |list| ensures list[i] in s.look {
      ListedTagIsBelow(s, depth, bound, container, list[i]);
    }
    forall c | c in Candidates(s, container) ensures c.tag in list && c == s.look[c.tag] {
      var i :| 0 <= i < |list| && Candidates(s, container)[i] == c;
      ListedTagIsBelow(s, depth, bound, container, list[i]);
    }
  }

  /** The container's own answer: the best of its visible candidates. */
  ghost function BestIn(s: Scene, depth: map<Tag, nat>, bound: nat, key: Key, current: Candidate, container: Tag): Option<Candidate>
    requires WellFormed(s, depth, bound) && IsContainer(s, container)
  {
    ListedIsBelow(s, depth, bound, container);
    Focusable(BestOf(key, current, true, c => s.isVisible(container, c), Candidates(s, container)))
  }

  lemma BestInIsListed(s: Scene, depth: map<Tag, nat>, bound: nat, key: Key, current: Candidate, container: Tag)
    requires WellFormed(s, depth, bound) && IsContainer(s, container)
    ensures var best := BestIn(s, depth, bound, key, current, container);
      best.Some? ==>
        && best.value.tag in s.forest && best.value == s.look[best.value.tag] && !IsRoot(s.forest, best.value.tag)
        && Keeper(s.forest, depth, best.value.tag) == container && depth[container] < depth[best.value.tag]
        && Advance(key, best.value.frame) > Advance(key, current.frame)
  {
    ListedIsBelow(s, depth, bound, container);
    var isVisible := (c: Candidate) => s.isVisible(container, c);
    BestOfIsBest(key, current, true, isVisible, Candidates(s, container));
    var best := BestOf(key, current, true, isVisible, Candidates(s, container));
    if best.Some? {
      ValidIsAhead(key, current.frame, best.value.frame);
    }
  }

  /** The container's answer is a candidate it lists that is visible in it and better than all its other visible eligible
      ones; there is none if no candidate is, or if the best one is no mounted component. */
  lemma BestInExactly(s: Scene, depth: map<Tag, nat>, bound: nat, key: Key, current: Candidate, container: Tag, c: Candidate)
    requires WellFormed(s, depth, bound) && IsContainer(s, container)
    requires forall i | 0 <= i < |s.forest[container].list| :: s.forest[container].list[i] in s.look
    ensures BestIn(s, depth, bound, key, current, container) == Some(c)
            <==> IsBest(key, current, true, x => s.isVisible(container, x), Candidates(s, container), c) && c.tag != -1
    ensures BestIn(s, depth, bound, key, current, container) == Some(c) ==>
              s.isVisible(container, c) && c.tag in s.forest[container].list && c == s.look[c.tag] && c != current
  {
    ListedIsBelow(s, depth, bound, container);
    FoundExactly(key, current, true, x => s.isVisible(container, x), Candidates(s, container), c);
  }

  /** The container around a component, if any. */
  ghost function NearestContainer(f: Forest, depth: map<Tag, nat>, x: Tag): (c: Option<Tag>)
    requires Ranked(f, depth) && x in f
    ensures c.Some? ==> c.value in f && f[c.value].container && depth[c.value] < depth[x]
  {
    if IsRoot(f, x) then None
    else
      var keeper := Keeper(f, depth, x);
      if f[keeper].container then Some(keeper) else None
  }

  /** The container that a component belongs to when it has the focus: itself, or the one around it. */
  ghost function HomeOf(s: Scene, depth: map<Tag, nat>, bound: nat, x: Tag): Option<Tag>
    requires WellFormed(s, depth, bound) && x in s.forest
  {
    if s.forest[x].container then Some(x) else NearestContainer(s.forest, depth, x)
  }

  /** A candidate of the scene that has a container to belong to. */
  ghost predicate CanLand(s: Scene, depth: map<Tag, nat>, bound: nat, c: Candidate)
    requires WellFormed(s, depth, bound)
  {
    c.tag in s.forest && c == s.look[c.tag] && HomeOf(s, depth, bound, c.tag).Some?
  }

  /** The focused component and the container it belongs to. */
  datatype Focus = Focus(component: Tag, container: Tag)

  ghost function FocusOn(s: Scene, depth: map<Tag, nat>, bound: nat, c: Candidate): Focus
    requires WellFormed(s, depth, bound) && CanLand(s, depth, bound, c)
  {
    Focus(c.tag, HomeOf(s, depth, bound, c.tag).value)
  }

  /** Where the focus goes within a container: to its best candidate or, if that is a container, further down as long
      as there is something better inside. */
  ghost function Target(s: Scene, depth: map<Tag, nat>, bound: nat, key: Key, current: Candidate, container: Tag): (target: Option<Candidate>)
    requires WellFormed(s, depth, bound) && IsContainer(s, container)
    ensures target.Some? ==> CanLand(s, depth, bound, target.value)
    decreases bound - depth[container]
  {
    BestInIsListed(s, depth, bound, key, current, container);
    var best := BestIn(s, depth, bound, key, current, container);
    if best.None? || !IsContainer(s, best.value.tag) then best
    else
      var inner := Target(s, depth, bound, key, current, best.value.tag);
      if inner.Some? then inner else best
  }

  /** Where a key press moves the focus: to the target in the container, or in the first ancestor container that has one. */
  ghost function Destination(s: Scene, depth: map<Tag, nat>, bound: nat, key: Key, current: Candidate, container: Tag): (target: Option<Candidate>)
    requires WellFormed(s, depth, bound) && IsContainer(s, container)
    ensures target.Some? ==> CanLand(s, depth, bound, target.value)
    decreases depth[container]
  {
    var target := Target(s, depth, bound, key, current, container);
    var up := NearestContainer(s.forest, depth, container);
    if target.Some? || up.None? then target else Destination(s, depth, bound, key, current, up.value)
  }

  // ---------------------------------------------------------------- where a key press ends

  /** From a container, `c` is reached by going to the best candidate, and on to its best one as long as it is a container. */
  ghost predicate Descends(s: Scene, depth: map<Tag, nat>, bound: nat, key: Key, current: Candidate, container: Tag, c: Candidate)
    requires WellFormed(s, depth, bound) && IsContainer(s, container)
    decreases bound - depth[container]
  {
    BestInIsListed(s, depth, bound, key, current, container);
    var best := BestIn(s, depth, bound, key, current, container);
    best.Some? && (best.value == c || (IsContainer(s, best.value.tag) && Descends(s, depth, bound, key, current, best.value.tag, c)))
  }

  /** The target is reached this way, it is the best candidate of the container around it, and there is no going on:
      it is no container, or one without a candidate. There is none only if the container itself has no candidate. */
  lemma {:induction false} TargetIsInnermost(s: Scene, depth: map<Tag, nat>, bound: nat, key: Key, current: Candidate, container: Tag)
    requires WellFormed(s, depth, bound) && IsContainer(s, container)
    ensures var target := Target(s, depth, bound, key, current, container);
      && (target.None? <==> BestIn(s, depth, bound, key, current, container).None?)
      && (target.Some? ==>
            var tag := target.value.tag;
            && Descends(s, depth, bound, key, current, container, target.value)
            && tag in s.forest && !IsRoot(s.forest, tag) && IsContainer(s, Keeper(s.forest, depth, tag))
            && BestIn(s, depth, bound, key, current, Keeper(s.forest, depth, tag)) == target
            && (IsContainer(s, tag) ==> BestIn(s, depth, bound, key, current, tag).None?))
    decreases bound - depth[container]
  {
    BestInIsListed(s, depth, bound, key, current, container);
    var best := BestIn(s, depth, bound, key, current, container);
    if best.Some? && IsContainer(s, best.value.tag) {
      TargetIsInnermost(s, depth, bound, key, current, best.value.tag);
    }
  }

  /** From the container `from`, none of the containers up to `to`, without it, has a candidate. */
  ghost predicate AscendsTo(s: Scene, depth: map<Tag, nat>, bound: nat, key: Key, current: Candidate, from: Tag, to: Tag)
    requires WellFormed(s, depth, bound) && IsContainer(s, from)
    decreases depth[from]
  {
    from == to ||
    (&& BestIn(s, depth, bound, key, current, from).None?
     && var up := NearestContainer(s.forest, depth, from);
        up.Some? && AscendsTo(s, depth, bound, key, current, up.value, to))
  }

  /** The destination is the target in the first container on the way up that has a candidate. */
  lemma {:induction false} DestinationIsInFirst(s: Scene, depth: map<Tag, nat>, bound: nat, key: Key, current: Candidate, container: Tag)
    returns (moving: Tag)
    requires WellFormed(s, depth, bound) && IsContainer(s, container)
    requires Destination(s, depth, bound, key, current, container).Some?
    ensures IsContainer(s, moving) && AscendsTo(s, depth, bound, key, current, container, moving)
    ensures BestIn(s, depth, bound, key, current, moving).Some?
    ensures Destination(s, depth, bound, key, current, container) == Target(s, depth, bound, key, current, moving)
    decreases depth[container]
  {
    TargetIsInnermost(s, depth, bound, key, current, container);
    if Target(s, depth, bound, key, current, container).Some? {
      moving := container;
    } else {
      moving := DestinationIsInFirst(s, depth, bound, key, current, NearestContainer(s.forest, depth, container).value);
    }
  }

  /** The container around a component is the innermost one above it, and there is none only if no ancestor is one. */
  lemma NearestIsInnermost(f: Forest, depth: map<Tag, nat>, x: Tag)
    requires Ranked(f, depth) && x in f
    ensures var nearest := NearestContainer(f, depth, x);
      && (nearest.Some? ==> nearest.value != x && AtOrAbove(f, depth, nearest.value, x))
      && forall c | c in f && f[c].container && c != x && AtOrAbove(f, depth, c, x) ::
        nearest.Some? && AtOrAbove(f, depth, c, nearest.value)
  {
    if !IsRoot(f, x) {
      StopIsInnermost(f, depth, f[x].parent.value);
    }
  }

  /** A focused container belongs to itself, and any other component to the innermost container above it. */
  lemma HomeIsInnermost(s: Scene, depth: map<Tag, nat>, bound: nat, x: Tag)
    requires WellFormed(s, depth, bound) && x in s.forest
    ensures var home := HomeOf(s, depth, bound, x);
      && (home.Some? ==> IsContainer(s, home.value) && AtOrAbove(s.forest, depth, home.value, x))
      && forall c | IsContainer(s, c) && AtOrAbove(s.forest, depth, c, x) :: home.Some? && AtOrAbove(s.forest, depth, c, home.value)
  {
    NearestIsInnermost(s.forest, depth, x);
  }

  // ---------------------------------------------------------------- the focus only ever moves forward

  lemma {:induction false} TargetIsAhead(s: Scene, depth: map<Tag, nat>, bound: nat, key: Key, current: Candidate, container: Tag)
    requires WellFormed(s, depth, bound) && IsContainer(s, container)
    ensures var target := Target(s, depth, bound, key, current, container);
      target.Some? ==> Advance(key, target.value.frame) > Advance(key, current.frame)
    decreases bound - depth[container]
  {
    BestInIsListed(s, depth, bound, key, current, container);
    var best := BestIn(s, depth, bound, key, current, container);
    if best.Some? && IsContainer(s, best.value.tag) {
      TargetIsAhead(s, depth, bound, key, current, best.value.tag);
    }
  }

  lemma {:induction false} DestinationIsAhead(s: Scene, depth: map<Tag, nat>, bound: nat, key: Key, current: Candidate, container: Tag)
    requires WellFormed(s, depth, bound) && IsContainer(s, container)
    ensures var target := Destination(s, depth, bound, key, current, container);
      target.Some? ==> Advance(key, target.value.frame) > Advance(key, current.frame)
    decreases depth[container]
  {
    TargetIsAhead(s, depth, bound, key, current, container);
    var up := NearestContainer(s.forest, depth, container);
    if Target(s, depth, bound, key, current, container).None? && up.Some? {
      DestinationIsAhead(s, depth, bound, key, current, up.value);
    }
  }

  ghost predicate InScene(s: Scene, focus: Focus) {
    focus.component in s.look && IsContainer(s, focus.container)
  }

  /** One key press. */
  ghost function Press(s: Scene, depth: map<Tag, nat>, bound: nat, key: Key, focus: Focus): (after: Focus)
    requires WellFormed(s, depth, bound) && InScene(s, focus)
    ensures InScene(s, after)
  {
    var destination := Destination(s, depth, bound, key, s.look[focus.component], focus.container);
    if destination.None? then focus else FocusOn(s, depth, bound, destination.value)
  }

  /** A key press that changes the focus moves the edge that the key is about strictly in its direction. */
  lemma PressMovesForward(s: Scene, depth: map<Tag, nat>, bound: nat, key: Key, focus: Focus)
    requires WellFormed(s, depth, bound) && InScene(s, focus)
    ensures var after := Press(s, depth, bound, key, focus);
      after != focus ==>
        var was, now := s.look[focus.component].frame, s.look[after.component].frame;
        match key
        case Right => now.left > was.left
        case Left => now.right < was.right
        case Up => now.bottom < was.bottom
        case Down => now.top > was.top
  {
    DestinationIsAhead(s, depth, bound, key, s.look[focus.component], focus.container);
  }

  /** Neither this container nor any around it has a visible eligible candidate that can win. */
  ghost predicate NothingAhead(s: Scene, depth: map<Tag, nat>, bound: nat, key: Key, current: Candidate, container: Tag)
    requires WellFormed(s, depth, bound) && IsContainer(s, container)
    decreases depth[container]
  {
    var up := NearestContainer(s.forest, depth, container);
    BestIn(s, depth, bound, key, current, container).None? && (up.Some? ==> NothingAhead(s, depth, bound, key, current, up.value))
  }

  /** The focus stays exactly when nothing lies ahead in the whole chain of containers around it. */
  lemma PressStaysExactly(s: Scene, depth: map<Tag, nat>, bound: nat, key: Key, focus: Focus)
    requires WellFormed(s, depth, bound) && InScene(s, focus)
    ensures Press(s, depth, bound, key, focus) == focus
            <==> NothingAhead(s, depth, bound, key, s.look[focus.component], focus.container)
  {
    MovesForward(s, depth, bound, key, focus);
    NothingAheadExactly(s, depth, bound, key, s.look[focus.component], focus.container);
    DestinationIsAhead(s, depth, bound, key, s.look[focus.component], focus.container);
  }

  lemma {:induction false} NothingAheadExactly(s: Scene, depth: map<Tag, nat>, bound: nat, key: Key, current: Candidate, container: Tag)
    requires WellFormed(s, depth, bound) && IsContainer(s, container)
    ensures Destination(s, depth, bound, key, current, container).None? <==> NothingAhead(s, depth, bound, key, current, container)
    decreases depth[container]
  {
    var up := NearestContainer(s.forest, depth, container);
    if up.Some? {
      NothingAheadExactly(s, depth, bound, key, current, up.value);
    }
  }

  /** The focus after pressing the same key `n` times. */
  ghost function Presses(s: Scene, depth: map<Tag, nat>, bound: nat, key: Key, focus: Focus, n: nat): (after: Focus)
    requires WellFormed(s, depth, bound) && InScene(s, focus)
    ensures InScene(s, after)
  {
    if n == 0 then focus else Press(s, depth, bound, key, Presses(s, depth, bound, key, focus, n - 1))
  }

  /** The components that had the focus during the first `n` presses. */
  ghost function Visited(s: Scene, depth: map<Tag, nat>, bound: nat, key: Key, focus: Focus, n: nat): (visited: set<Tag>)
    requires WellFormed(s, depth, bound) && InScene(s, focus)
    ensures visited <= s.look.Keys
  {
    if n == 0 then {focus.component}
    else Visited(s, depth, bound, key, focus, n - 1) + {Presses(s, depth, bound, key, focus, n).component}
  }

  /** None of these components is further in the direction of the key than the one at `x`. */
  ghost predicate NoneBeyond(s: Scene, key: Key, visited: set<Tag>, x: Tag)
    requires visited <= s.look.Keys && x in s.look
  {
    forall y | y in visited :: Advance(key, s.look[y].frame) <= Advance(key, s.look[x].frame)
  }

  lemma OneMoreVisited(s: Scene, key: Key, visited: set<Tag>, x: Tag, y: Tag)
    requires visited <= s.look.Keys && x in s.look && y in s.look && NoneBeyond(s, key, visited, x)
    requires Advance(key, s.look[y].frame) > Advance(key, s.look[x].frame)
    ensures |visited + {y}| == |visited| + 1 && NoneBeyond(s, key, visited + {y}, y)
  {
  }

  lemma MovesForward(s: Scene, depth: map<Tag, nat>, bound: nat, key: Key, focus: Focus)
    requires WellFormed(s, depth, bound) && InScene(s, focus)
    ensures var after := Press(s, depth, bound, key, focus);
      after != focus ==> Advance(key, s.look[after.component].frame) > Advance(key, s.look[focus.component].frame)
  {
    DestinationIsAhead(s, depth, bound, key, s.look[focus.component], focus.container);
  }

  /** While presses go on changing the focus, none of them comes back to a component. */
  lemma {:induction false} NeverComesBack(s: Scene, depth: map<Tag, nat>, bound: nat, key: Key, focus: Focus, n: nat)
    requires WellFormed(s, depth, bound) && InScene(s, focus)
    requires n > 0 ==> Presses(s, depth, bound, key, focus, n) != Presses(s, depth, bound, key, focus, n - 1)
    ensures |Visited(s, depth, bound, key, focus, n)| == n + 1
    ensures NoneBeyond(s, key, Visited(s, depth, bound, key, focus, n), Presses(s, depth, bound, key, focus, n).component)
  {
    if n > 0 {
      var before := Presses(s, depth, bound, key, focus, n - 1);
      NeverComesBack(s, depth, bound, key, focus, n - 1);
      MovesForward(s, depth, bound, key, before);
      OneMoreVisited(s, key, Visited(s, depth, bound, key, focus, n - 1), before.component, Presses(s, depth, bound, key, focus, n).component);
    }
  }

  /** Pressing one key again and again, the focus settles after at most as many presses as there are components. */
  lemma FocusSettles(s: Scene, depth: map<Tag, nat>, bound: nat, key: Key, focus: Focus)
    requires WellFormed(s, depth, bound) && InScene(s, focus)
    ensures Presses(s, depth, bound, key, focus, |s.forest| + 1) == Presses(s, depth, bound, key, focus, |s.forest|)
  {
    var n := |s.forest| + 1;
    assert |s.look.Keys| == |s.forest|;
    if Presses(s, depth, bound, key, focus, n) != Presses(s, depth, bound, key, focus, n - 1) {
      NeverComesBack(s, depth, bound, key, focus, n);
      SubsetIsSmaller(Visited(s, depth, bound, key, focus, n), s.look.Keys);
    }
  }

  // ---------------------------------------------------------------- the navigator

  class RSkSpatialNavigator {
    const scene: Scene
    ghost const depth: map<Tag, nat>
    ghost const bound: nat
    var currentFocus: Tag
    var currentContainer: Tag

    constructor (scene: Scene, ghost depth: map<Tag, nat>, ghost bound: nat, component: Tag, container: Tag)
      requires WellFormed(scene, depth, bound) && InScene(scene, Focus(component, container))
      ensures this.scene == scene && this.depth == depth && this.bound == bound
      ensures Valid() && Current() == Focus(component, container)
    {
      this.scene, this.depth, this.bound := scene, depth, bound;
      currentFocus, currentContainer := component, container;
    }

    ghost predicate Valid()
      reads this
    {
      WellFormed(scene, depth, bound) && InScene(scene, Current())
    }

    ghost function Current(): Focus
      reads this
    {
      Focus(currentFocus, currentContainer)
    }

    /** Climbs to the container around a component. */
    method NearestAncestorContainer(x: Tag) returns (container: Option<Tag>)
      requires WellFormed(scene, depth, bound) && x in scene.forest
      ensures container == NearestContainer(scene.forest, depth, x)
    {
      container := scene.forest[x].parent;
      while container.Some? && !scene.forest[container.value].container
        invariant container.Some? ==> container.value in scene.forest && scene.forest[x].parent.Some?
        invariant container.Some? ==> StopAbove(scene.forest, depth, scene.forest[x].parent.value) == StopAbove(scene.forest, depth, container.value)
        invariant container.None? && scene.forest[x].parent.Some? ==>
          !scene.forest[StopAbove(scene.forest, depth, scene.forest[x].parent.value)].container
        decreases if container.None? then 0 else depth[container.value] + 1
      {
        container := scene.forest[container.value].parent;
      }
    }

    method UpdateFocusCandidate(focusCandidate: Tag)
      requires WellFormed(scene, depth, bound) && focusCandidate in scene.forest
      requires HomeOf(scene, depth, bound, focusCandidate).Some?
      modifies this
      ensures Current() == if focusCandidate == old(currentFocus) then old(Current())
                           else Focus(focusCandidate, HomeOf(scene, depth, bound, focusCandidate).value)
    {
      if currentFocus == focusCandidate {
        return;
      }
      currentFocus := focusCandidate;
      if scene.forest[currentFocus].container {
        currentContainer := currentFocus;
      } else {
        var nearest := NearestAncestorContainer(currentFocus);
        currentContainer := nearest.value;
      }
    }

    /** Descends: focuses the best candidate of the container, or something inside it if that is a container. */
    method AdvanceFocusInDirection(container: Tag, key: Key) returns (consumed: bool)
      requires Valid() && IsContainer(scene, container)
      modifies this
      ensures Valid()
      ensures var target := Target(scene, depth, bound, key, scene.look[old(currentFocus)], container);
        && consumed == target.Some?
        && Current() == if consumed then FocusOn(scene, depth, bound, target.value) else old(Current())
      decreases bound - depth[container]
    {
      ListedIsBelow(scene, depth, bound, container);
      BestInIsListed(scene, depth, bound, key, scene.look[currentFocus], container);
      var isVisible := scene.isVisible;
      var focusCandidate := FindFocusCandidateInContainer(key, scene.look[currentFocus], true, c => isVisible(container, c), Candidates(scene, container));
      if focusCandidate.None? {
        return false;
      }
      if scene.forest[focusCandidate.value.tag].container {
        var inner := AdvanceFocusInDirection(focusCandidate.value.tag, key);
        if inner {
          return true;
        }
      }
      UpdateFocusCandidate(focusCandidate.value.tag);
      return true;
    }

    /** Ascends: asks the current container, then those around it, until one moves the focus. */
    method NavigateInDirection(key: Key)
      requires Valid()
      modifies this
      ensures Valid() && Current() == Press(scene, depth, bound, key, old(Current()))
    {
      ghost var before := Current();
      var current := scene.look[currentFocus];
      var container := Some(currentContainer);
      var consumed := false;
      while !consumed && container.Some?
        invariant container.Some? ==> IsContainer(scene, container.value)
        invariant !consumed ==> Current() == before
        invariant !consumed && container.Some? ==>
          Destination(scene, depth, bound, key, current, before.container) == Destination(scene, depth, bound, key, current, container.value)
        invariant !consumed && container.None? ==> Destination(scene, depth, bound, key, current, before.container).None?
        invariant Valid()
        invariant consumed ==> Current() == Press(scene, depth, bound, key, before)
        decreases if consumed || container.None? then 0 else depth[container.value] + 1
      {
        consumed := AdvanceFocusInDirection(container.value, key);
        container := NearestAncestorContainer(container.value);
      }
    }
  }
}
