/** The dirty-rectangle lists of ReactSkia/sdk/WindowDelegator.cpp and rns_shell/compositor/layers/Layer.cpp. */
module DirtyRects {
  import opened Rects

  /** `after` covers exactly what `before` and the rectangles `added` cover. */
  ghost predicate Grown(before: seq<Rect>, added: seq<Rect>, after: seq<Rect>) {
    forall p: Point :: Covered(after, p) <==> Covered(before, p) || Covered(added, p)
  }

  /** While a new rectangle is compared with the list, the list and the new one cover what they did at first. */
  ghost predicate Pending(before: seq<Rect>, now: seq<Rect>, r: Rect) {
    forall p: Point :: Covered(now, p) || Covers(r, p) <==> Covered(before, p) || Covers(r, p)
  }

  lemma EraseKeepsPending(before: seq<Rect>, now: seq<Rect>, r: Rect, i: nat)
    requires i < |now| && Pending(before, now, r) && r.Contains(now[i])
    ensures Pending(before, Erase(now, i), r)
  {
    forall p: Point ensures Covered(Erase(now, i), p) || Covers(r, p) <==> Covered(before, p) || Covers(r, p) {
      ErasedIsCovered(now, i, r, p);
    }
  }

  lemma IgnoredIsGrown(before: seq<Rect>, now: seq<Rect>, r: Rect, i: nat)
    requires i < |now| && Pending(before, now, r) && (now[i] == r || now[i].Contains(r))
    ensures Grown(before, [r], now)
  {
    forall p: Point ensures Covered(now, p) <==> Covered(before, p) || Covered([r], p) {
      assert Covered([r], p) <==> Covers([r][0], p);
      if Covers(r, p) {
        assert Covers(now[i], p);
      }
    }
  }

  lemma AppendedIsGrown(before: seq<Rect>, now: seq<Rect>, r: Rect)
    requires Pending(before, now, r)
    ensures Grown(before, [r], now + [r])
  {
    forall p: Point ensures Covered(now + [r], p) <==> Covered(before, p) || Covered([r], p) {
      assert Covered([r], p) <==> Covers([r][0], p);
      CoveredByConcat(now, [r], p);
    }
  }

  lemma GrownFurther(before: seq<Rect>, added: seq<Rect>, mid: seq<Rect>, r: Rect, after: seq<Rect>)
    requires Grown(before, added, mid) && Grown(mid, [r], after)
    ensures Grown(before, added + [r], after)
  {
    forall p: Point ensures Covered(after, p) <==> Covered(before, p) || Covered(added + [r], p) {
      CoveredByConcat(added, [r], p);
    }
  }

  class WindowDelegator {
    var dirtyRects: seq<Rect>

    constructor ()
      ensures dirtyRects == []
    {
      dirtyRects := [];
    }

    /** One round of the outer loop: adds a rectangle unless it is covered by a kept one, erasing those it contains. */
    method AddDirtyRect(comDirtyRect: Rect)
      requires Minimal(dirtyRects)
      modifies this
      ensures Minimal(dirtyRects) && Grown(old(dirtyRects), [comDirtyRect], dirtyRects)
    {
      ghost var before := dirtyRects;
      var addToDirtyRect, it := true, 0;
      while it < |dirtyRects|
        invariant 0 <= it <= |dirtyRects| && addToDirtyRect
        invariant Minimal(dirtyRects) && Pending(before, dirtyRects, comDirtyRect)
        invariant forall i | 0 <= i < it :: !dirtyRects[i].Contains(comDirtyRect) && !comDirtyRect.Contains(dirtyRects[i])
        decreases |dirtyRects| - it
      {
        var dirtyRect := dirtyRects[it];
        if dirtyRect == comDirtyRect || dirtyRect.Contains(comDirtyRect) {
          addToDirtyRect := false;
          IgnoredIsGrown(before, dirtyRects, comDirtyRect, it);
          break;
        }
        if comDirtyRect.Contains(dirtyRect) {
          EraseKeepsPending(before, dirtyRects, comDirtyRect, it);
          EraseKeepsMinimal(dirtyRects, it);
          dirtyRects := Erase(dirtyRects, it);
        } else {
          it := it + 1;
        }
      }
      if addToDirtyRect {
        AppendKeepsMinimal(dirtyRects, comDirtyRect);
        AppendedIsGrown(before, dirtyRects, comDirtyRect);
        dirtyRects := dirtyRects + [comDirtyRect];
      }
    }

    /** Adds a component's rectangles: the covered area becomes the union, and the list stays minimal. */
    method GenerateDirtyRect(componentDirtyRects: seq<Rect>)
      requires Minimal(dirtyRects)
      modifies this
      ensures Minimal(dirtyRects) && Grown(old(dirtyRects), componentDirtyRects, dirtyRects)
    {
      for n := 0 to |componentDirtyRects|
        invariant Minimal(dirtyRects) && Grown(old(dirtyRects), componentDirtyRects[..n], dirtyRects)
      {
        ghost var mid := dirtyRects;
        AddDirtyRect(componentDirtyRects[n]);
        GrownFurther(old(dirtyRects), componentDirtyRects[..n], mid, componentDirtyRects[n], dirtyRects);
        assert componentDirtyRects[..n + 1] == componentDirtyRects[..n] + [componentDirtyRects[n]];
      }
      assert componentDirtyRects[..|componentDirtyRects|] == componentDirtyRects;
    }
  }

  /** Layer::addDamageRect: the new list covers the union, and is minimal if the old one was.
      Erasing steps back in the list, and switches off the test that an existing rectangle covers the new one. */
  method AddDamageRect(damageRectList: seq<Rect>, dirtyAbsFrameRect: Rect) returns (list: seq<Rect>)
    ensures Grown(damageRectList, [dirtyAbsFrameRect], list)
    ensures Minimal(damageRectList) ==> Minimal(list)
    ensures list != []
  {
    list := damageRectList;
    var checkIfAlreadyCovered, it := true, 0;
    while it < |list|
      invariant 0 <= it <= |list| && Pending(damageRectList, list, dirtyAbsFrameRect)
      invariant Minimal(damageRectList) ==> Minimal(list)
      invariant !checkIfAlreadyCovered ==>
        exists r: Rect :: dirtyAbsFrameRect.Contains(r) && dirtyAbsFrameRect != r
          && (Minimal(damageRectList) ==> forall i | 0 <= i < |list| :: !list[i].Contains(r))
      invariant Minimal(damageRectList) ==> forall i | 0 <= i < it ::
        !list[i].Contains(dirtyAbsFrameRect) && !dirtyAbsFrameRect.Contains(list[i])
      decreases |list| - it
    {
      var dirtRect := list[it];
      if dirtyAbsFrameRect != dirtRect && dirtyAbsFrameRect.Contains(dirtRect) {
        EraseKeepsPending(damageRectList, list, dirtyAbsFrameRect, it);
        if Minimal(damageRectList) {
          EraseKeepsMinimal(list, it);
        }
        assert Minimal(damageRectList) ==> forall i | 0 <= i < |list| && i != it :: !list[i].Contains(dirtRect);
        list := Erase(list, it);
        checkIfAlreadyCovered := false;
      } else if checkIfAlreadyCovered && dirtRect.Contains(dirtyAbsFrameRect) {
        IgnoredIsGrown(damageRectList, list, dirtyAbsFrameRect, it);
        return;
      } else {
        it := it + 1;
      }
    }
    if Minimal(damageRectList) {
      AppendKeepsMinimal(list, dirtyAbsFrameRect);
    }
    AppendedIsGrown(damageRectList, list, dirtyAbsFrameRect);
    list := list + [dirtyAbsFrameRect];
  }
}
