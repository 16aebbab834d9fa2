/** The search of ReactSkia/core_modules/RSkSpatialNavigator.cpp: two sorted sets of candidates, and a pick between their firsts. */
module FocusSearch {
  import opened FocusOrder
  import opened Options
  import opened Rects

  predicate Sorted(key: Key, candidates: seq<Candidate>) {
    forall i, j | 0 <= i < j < |candidates| :: Before(key, candidates[i], candidates[j])
  }

  /** The first place whose candidate does not come before the new one. */
  function PlaceFor(key: Key, sorted: seq<Candidate>, c: Candidate): (n: nat)
    requires Sorted(key, sorted)
    ensures n <= |sorted|
    ensures forall i | 0 <= i < n :: Before(key, sorted[i], c)
    ensures forall i | n <= i < |sorted| :: !Before(key, sorted[i], c)
  {
    if sorted == [] then 0
    else if !Before(key, sorted[0], c) then
      NothingBeforeLater(key, sorted, c);
      0
    else 1 + PlaceFor(key, sorted[1..], c)
  }

  lemma NothingBeforeLater(key: Key, sorted: seq<Candidate>, c: Candidate)
    requires Sorted(key, sorted) && sorted != [] && !Before(key, sorted[0], c)
    ensures forall i | 0 <= i < |sorted| :: !Before(key, sorted[i], c)
  {
    forall i | 0 < i < |sorted| ensures !Before(key, sorted[i], c) {
      BeforeIsStrictTotal(key, sorted[0], sorted[i], c);
    }
  }

  /** folly::sorted_vector_set::insert: in order, unless an equivalent candidate is there. */
  function Insert(key: Key, sorted: seq<Candidate>, c: Candidate): seq<Candidate>
    requires Sorted(key, sorted)
  {
    var n := PlaceFor(key, sorted, c);
    if n < |sorted| && !Before(key, c, sorted[n]) then sorted else sorted[..n] + [c] + sorted[n..]
  }

  lemma InsertKeepsSorted(key: Key, sorted: seq<Candidate>, c: Candidate)
    requires Sorted(key, sorted)
    ensures Sorted(key, Insert(key, sorted, c))
  {
    var n := PlaceFor(key, sorted, c);
    var longer := Insert(key, sorted, c);
    if longer != sorted {
      assert forall i | 0 <= i < |longer| :: longer[i] == if i < n then sorted[i] else if i == n then c else sorted[i - 1];
      forall j | n <= j < |sorted| ensures Before(key, c, sorted[j]) {
        BeforeIsStrictTotal(key, c, sorted[n], sorted[j]);
      }
    }
  }

  lemma InsertAdds(key: Key, sorted: seq<Candidate>, c: Candidate)
    requires Sorted(key, sorted) && TagsTell(sorted + [c])
    ensures forall x :: x in Insert(key, sorted, c) <==> x in sorted || x == c
  {
    var n := PlaceFor(key, sorted, c);
    assert sorted == sorted[..n] + sorted[n..];
    if n < |sorted| && !Before(key, c, sorted[n]) {
      BeforeIsStrictTotal(key, c, sorted[n], c);
      assert sorted[n] in sorted + [c] && c in sorted + [c];
    }
  }

  /** The set holds, in order, the candidates among `seen` that are eligible and overlap, or do not, as asked. */
  ghost predicate Holds(key: Key, current: Candidate, visibleOnly: bool, isVisible: Candidate -> bool,
                        seen: seq<Candidate>, overlapping: bool, sorted: seq<Candidate>) {
    && Sorted(key, sorted)
    && forall c :: c in sorted <==>
      c in seen && Eligible(key, current, visibleOnly, isVisible, c) && Overlaps(key, current.frame, c.frame) == overlapping
  }

  /** Inserting the next candidate into the set it belongs to. */
  lemma InsertHolds(key: Key, current: Candidate, visibleOnly: bool, isVisible: Candidate -> bool,
                    seen: seq<Candidate>, c: Candidate, overlapping: bool, sorted: seq<Candidate>)
    requires TagsTell(seen + [c]) && Holds(key, current, visibleOnly, isVisible, seen, overlapping, sorted)
    ensures Eligible(key, current, visibleOnly, isVisible, c) && Overlaps(key, current.frame, c.frame) == overlapping ==>
              Holds(key, current, visibleOnly, isVisible, seen + [c], overlapping, Insert(key, sorted, c))
    ensures !(Eligible(key, current, visibleOnly, isVisible, c) && Overlaps(key, current.frame, c.frame) == overlapping) ==>
              Holds(key, current, visibleOnly, isVisible, seen + [c], overlapping, sorted)
  {
    forall x, y | x in sorted + [c] && y in sorted + [c] && x.tag == y.tag ensures x == y {
      assert x in seen + [c] && y in seen + [c];
    }
    InsertKeepsSorted(key, sorted, c);
    InsertAdds(key, sorted, c);
  }

  /** The first candidate of a sorted set is better than the others in it. */
  lemma FirstIsBetter(key: Key, current: Rect, sorted: seq<Candidate>, overlapping: bool, c: Candidate)
    requires Sorted(key, sorted) && c in sorted && c != sorted[0]
    requires forall x | x in sorted :: Overlaps(key, current, x.frame) == overlapping
    ensures Better(key, current, sorted[0], c)
  {
    var i :| 0 <= i < |sorted| && sorted[i] == c;
    assert sorted[0] in sorted && Before(key, sorted[0], sorted[i]);
  }

  /** The first of the two sets that the rules choose. */
  function Pick(key: Key, overlapping: seq<Candidate>, nonOverlapping: seq<Candidate>): Option<Candidate> {
    if (key.Up? || key.Down?) && nonOverlapping != []
       && (overlapping == [] || Advance(key, overlapping[0].frame) > Advance(key, nonOverlapping[0].frame))
    then Some(nonOverlapping[0])
    else if overlapping != [] then Some(overlapping[0])
    else None
  }

  /** What the rules choose is the best of all eligible candidates. */
  lemma PickIsBest(key: Key, current: Candidate, visibleOnly: bool, isVisible: Candidate -> bool, candidates: seq<Candidate>,
                   overlapping: seq<Candidate>, nonOverlapping: seq<Candidate>)
    requires TagsTell(candidates)
    requires Holds(key, current, visibleOnly, isVisible, candidates, true, overlapping)
    requires Holds(key, current, visibleOnly, isVisible, candidates, false, nonOverlapping)
    ensures Pick(key, overlapping, nonOverlapping) == BestOf(key, current, visibleOnly, isVisible, candidates)
  {
    BestOfIsBest(key, current, visibleOnly, isVisible, candidates);
    var best, picked := BestOf(key, current, visibleOnly, isVisible, candidates), Pick(key, overlapping, nonOverlapping);
    if overlapping != [] {
      assert overlapping[0] in overlapping;
    }
    if nonOverlapping != [] {
      assert nonOverlapping[0] in nonOverlapping;
    }
    if picked.Some? {
      forall c | c in candidates && c != picked.value && Eligible(key, current, visibleOnly, isVisible, c)
        ensures Better(key, current.frame, picked.value, c)
      {
        PickedIsBetter(key, current.frame, overlapping, nonOverlapping, c);
      }
      BestIsUnique(key, current, visibleOnly, isVisible, candidates, best.value, picked.value);
    }
  }

  lemma PickedIsBetter(key: Key, current: Rect, overlapping: seq<Candidate>, nonOverlapping: seq<Candidate>, c: Candidate)
    requires Sorted(key, overlapping) && forall x | x in overlapping :: Overlaps(key, current, x.frame)
    requires Sorted(key, nonOverlapping) && forall x | x in nonOverlapping :: !Overlaps(key, current, x.frame)
    requires nonOverlapping != [] ==> key.Up? || key.Down?
    requires c in overlapping || c in nonOverlapping
    ensures var picked := Pick(key, overlapping, nonOverlapping);
      picked.Some? && (c != picked.value ==> Better(key, current, picked.value, c))
  {
    if c in overlapping {
      assert overlapping[0] in overlapping;
      if c != overlapping[0] {
        FirstIsBetter(key, current, overlapping, true, c);
      }
    } else {
      assert nonOverlapping[0] in nonOverlapping;
      if c != nonOverlapping[0] {
        FirstIsBetter(key, current, nonOverlapping, false, c);
      }
    }
    if overlapping != [] {
      assert overlapping[0] in overlapping;
    }
    if nonOverlapping != [] {
      assert nonOverlapping[0] in nonOverlapping;
    }
  }

  /** A winner with the tag of an unmounted component is no winner. */
  function Focusable(c: Option<Candidate>): Option<Candidate> {
    if c.Some? && c.value.tag == -1 then None else c
  }

  /** What a search finds: the best of the eligible candidates, unless that one has the tag of an unmounted component. */
  lemma FoundExactly(key: Key, current: Candidate, visibleOnly: bool, isVisible: Candidate -> bool, candidates: seq<Candidate>, c: Candidate)
    requires TagsTell(candidates)
    ensures Focusable(BestOf(key, current, visibleOnly, isVisible, candidates)) == Some(c)
            <==> IsBest(key, current, visibleOnly, isVisible, candidates, c) && c.tag != -1
  {
    BestOfIsBest(key, current, visibleOnly, isVisible, candidates);
    var best := BestOf(key, current, visibleOnly, isVisible, candidates);
    if best.Some? && IsBest(key, current, visibleOnly, isVisible, candidates, c) {
      BestIsUnique(key, current, visibleOnly, isVisible, candidates, best.value, c);
    }
  }

  method PickCandidateInDirection(key: Key, overlapping: seq<Candidate>, nonOverlapping: seq<Candidate>)
    returns (nextFocus: Option<Candidate>)
    ensures nextFocus == Focusable(Pick(key, overlapping, nonOverlapping))
  {
    nextFocus := None;
    if |overlapping| != 0 {
      nextFocus := Some(overlapping[0]);
    }
    if (key == Up || key == Down) && |nonOverlapping| != 0 {
      var front := nonOverlapping[0];
      if nextFocus.Some? {
        if key == Up {
          if nextFocus.value.frame.bottom < front.frame.bottom {
            nextFocus := Some(front);
          }
        } else if key == Down {
          if nextFocus.value.frame.top > front.frame.top {
            nextFocus := Some(front);
          }
        }
      } else {
        nextFocus := Some(front);
      }
    }
    if nextFocus.Some? && nextFocus.value.tag == -1 {
      nextFocus := None;
    }
  }

  /** The search with a current focus: its answer is the best eligible candidate of the container's list. */
  method FindFocusCandidateInContainer(key: Key, current: Candidate, visibleOnly: bool, isVisible: Candidate -> bool,
                                       candidates: seq<Candidate>) returns (nextFocus: Option<Candidate>)
    requires TagsTell(candidates)
    ensures nextFocus == Focusable(BestOf(key, current, visibleOnly, isVisible, candidates))
  {
    var overlapping: seq<Candidate>, nonOverlapping: seq<Candidate> := [], [];
    for n := 0 to |candidates|
      invariant Holds(key, current, visibleOnly, isVisible, candidates[..n], true, overlapping)
      invariant Holds(key, current, visibleOnly, isVisible, candidates[..n], false, nonOverlapping)
    {
      var candidate := candidates[n];
      assert candidates[..n + 1] == candidates[..n] + [candidate];
      InsertHolds(key, current, visibleOnly, isVisible, candidates[..n], candidate, true, overlapping);
      InsertHolds(key, current, visibleOnly, isVisible, candidates[..n], candidate, false, nonOverlapping);
      if candidate == current {
        continue;
      }
      if visibleOnly && !isVisible(candidate) {
        continue;
      }
      if !IsValid(key, current.frame, candidate.frame) {
        continue;
      }
      if key == Right || key == Left {
        if !(candidate.frame.bottom < current.frame.top || candidate.frame.top > current.frame.bottom) {
          overlapping := Insert(key, overlapping, candidate);
        }
      } else {
        if !(candidate.frame.right < current.frame.left || candidate.frame.left > current.frame.right) {
          overlapping := Insert(key, overlapping, candidate);
        } else if key == Up && candidate.frame.bottom <= current.frame.top {
          nonOverlapping := Insert(key, nonOverlapping, candidate);
        } else if key == Down && candidate.frame.top >= current.frame.bottom {
          nonOverlapping := Insert(key, nonOverlapping, candidate);
        }
      }
    }
    assert candidates[..|candidates|] == candidates;
    PickIsBest(key, current, visibleOnly, isVisible, candidates, overlapping, nonOverlapping);
    nextFocus := PickCandidateInDirection(key, overlapping, nonOverlapping);
  }
}
