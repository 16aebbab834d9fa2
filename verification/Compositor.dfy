/** The compositor of rns_shell/compositor/Compositor.cpp, whose clip is built from damage lists. */
module Compositor {
  import opened DirtyRects
  import opened PartialRepaint
  import opened Rects

  /** The list covers the frame's damage and that of the newest `n` entries of the history. */
  ghost predicate CoversRecent(list: seq<Rect>, damage: seq<Rect>, history: seq<seq<Rect>>, n: nat)
    requires n <= |history|
  {
    forall p: Point :: Covered(list, p) <==> Covered(damage, p) || Recent(history, n, p)
  }

  lemma OneMoreEntry(list: seq<Rect>, damage: seq<Rect>, history: seq<seq<Rect>>, n: nat, longer: seq<Rect>)
    requires n < |history| && CoversRecent(list, damage, history, n) && Grown(list, history[|history| - 1 - n], longer)
    ensures CoversRecent(longer, damage, history, n + 1)
  {
    forall p: Point ensures Covered(longer, p) <==> Covered(damage, p) || Recent(history, n + 1, p) {
      var k := |history| - 1 - n;
      assert Recent(history, n + 1, p) <==> Recent(history, n, p) || Covered(history[k], p);
    }
  }

  lemma ConcatIsGrown(a: seq<Rect>, b: seq<Rect>)
    ensures Grown(a, b, a + b)
  {
    forall p: Point ensures Covered(a + b, p) <==> Covered(a, p) || Covered(b, p) {
      CoveredByConcat(a, b, p);
    }
  }

  /** Adds damage rectangles one by one: the covered region becomes the union. */
  method AddDamageRects(list: seq<Rect>, rects: seq<Rect>) returns (grown: seq<Rect>)
    ensures Grown(list, rects, grown)
    ensures grown == [] <==> list == [] && rects == []
  {
    grown := list;
    for n := 0 to |rects|
      invariant Grown(list, rects[..n], grown)
      invariant grown == [] <==> list == [] && n == 0
    {
      var before := grown;
      grown := AddDamageRect(grown, rects[n]);
      GrownFurther(list, rects[..n], before, rects[n], grown);
      assert rects[..n + 1] == rects[..n] + [rects[n]];
    }
    assert rects[..|rects|] == rects;
  }

  class Compositor {
    const width: int
    const height: int
    var surfaceDamage: seq<Rect>
    var frameDamageHistory: seq<seq<Rect>>
    /** The images handed to the screen so far, by swapping buffers. */
    var shown: seq<Picture>

    constructor (width: int, height: int)
      ensures this.width == width && this.height == height
      ensures surfaceDamage == [] && View() == State([], [])
    {
      this.width, this.height := width, height;
      surfaceDamage, frameDamageHistory, shown := [], [], [];
    }

    ghost function View(): State
      reads this
    {
      State(shown, frameDamageHistory)
    }

    predicate InViewport(p: Point) {
      Covers(Rect(0, 0, width, height), p)
    }

    /** Drops the damage of the previous frame. */
    method Begin()
      modifies `surfaceDamage
      ensures surfaceDamage == []
    {
      surfaceDamage := [];
    }

    /** Clips to this frame's damage and, by the buffer's age, to that of earlier frames or to the whole surface.
        The region to swap is the clip, and the history is overwritten on the way. */
    method BeginClip(bufferAge: int) returns (clipPath: seq<Rect>)
      modifies `surfaceDamage, `frameDamageHistory
      ensures old(surfaceDamage) == [] ==> clipPath == [] && surfaceDamage == [] && frameDamageHistory == old(frameDamageHistory)
      ensures old(surfaceDamage) != [] ==> frameDamageHistory == Overwritten(old(frameDamageHistory), bufferAge)
      ensures old(surfaceDamage) != [] ==> forall p: Point | InViewport(p) ::
        Covered(clipPath, p) <==> Repainted(old(frameDamageHistory), old(surfaceDamage), bufferAge, p)
      ensures forall p: Point :: Covered(surfaceDamage, p) <==> Covered(clipPath, p)
    {
      clipPath := [];
      if |surfaceDamage| == 0 {
        return;
      }
      clipPath := surfaceDamage;
      if bufferAge == 1 {
        return;
      } else if bufferAge <= 0 || bufferAge > |frameDamageHistory| {
        var whole := Rect(0, 0, width, height);
        surfaceDamage := AddDamageRect([], whole);
        clipPath := [whole];
        assert forall p: Point :: Covers(whole, p) ==> Covered([whole][..], p) by {
          assert [whole][0] == whole;
        }
      } else {
        clipPath := AddMissedFrames(bufferAge);
      }
    }

    /** Adds the damage of the frames that a buffer of this age has missed, newest first. */
    method AddMissedFrames(bufferAge: int) returns (clipPath: seq<Rect>)
      requires 2 <= bufferAge <= |frameDamageHistory|
      modifies `surfaceDamage, `frameDamageHistory
      ensures frameDamageHistory == Overwritten(old(frameDamageHistory), bufferAge)
      ensures CoversRecent(clipPath, old(surfaceDamage), old(frameDamageHistory), bufferAge - 1)
      ensures CoversRecent(surfaceDamage, old(surfaceDamage), old(frameDamageHistory), bufferAge - 1)
    {
      ghost var damage, history := surfaceDamage, frameDamageHistory;
      clipPath := surfaceDamage;
      var newest := |frameDamageHistory| - 1;
      var frameDamages, age := newest, bufferAge - 1;
      while frameDamages >= 0 && age > 0
        invariant 0 <= age < bufferAge && frameDamages == newest - (bufferAge - 1 - age)
        invariant |frameDamageHistory| == |history|
        invariant age == bufferAge - 1 ==> frameDamageHistory == history
        invariant age < bufferAge - 1 ==> frameDamageHistory == history[newest := history[frameDamages + 1]]
        invariant CoversRecent(clipPath, damage, history, bufferAge - 1 - age)
        invariant CoversRecent(surfaceDamage, damage, history, bufferAge - 1 - age)
      {
        ghost var n: nat := bufferAge - 1 - age;
        ghost var clipBefore, damageBefore := clipPath, surfaceDamage;
        assert frameDamageHistory[frameDamages] == history[|history| - 1 - n];
        frameDamageHistory := frameDamageHistory[newest := frameDamageHistory[frameDamages]];
        var dirtyRects := frameDamageHistory[newest];
        surfaceDamage := AddDamageRects(surfaceDamage, dirtyRects);
        clipPath := clipPath + dirtyRects;
        ConcatIsGrown(clipBefore, dirtyRects);
        OneMoreEntry(clipBefore, damage, history, n, clipPath);
        OneMoreEntry(damageBefore, damage, history, n, surfaceDamage);
        frameDamages, age := frameDamages - 1, age - 1;
      }
    }

    /** Pre-paints, clips, paints into the back buffer and swaps, unless nothing is damaged: one rendered frame. */
    method RenderLayerTree(prePaintDamage: seq<Rect>, scene: Picture, bufferAge: int, backBuffer: Picture)
      returns (ghost currentFrameDamages: seq<Rect>)
      requires forall p | p in scene :: InViewport(p)
      requires backBuffer.Keys == scene.Keys
      modifies this
      ensures Grown(old(surfaceDamage), prePaintDamage, currentFrameDamages)
      ensures currentFrameDamages == [] <==> old(surfaceDamage) == [] && prePaintDamage == []
      ensures View() == Render(old(View()), Frame(scene, currentFrameDamages, bufferAge, backBuffer), false)
    {
      surfaceDamage := AddDamageRects(surfaceDamage, prePaintDamage);
      var frameDamages := surfaceDamage;
      currentFrameDamages := frameDamages;
      ghost var history := frameDamageHistory;
      var clipBound := BeginClip(bufferAge);
      if |frameDamages| == 0 {
        return;
      }
      var painted := map p | p in scene :: if Covered(clipBound, p) then scene[p] else backBuffer[p];
      assert painted == Paint(backBuffer, scene, history, frameDamages, bufferAge);
      shown := shown + [painted];
      if |frameDamageHistory| >= MAX_FRAME_DAMAGE_HISTORY {
        frameDamageHistory := frameDamageHistory[1..];
      }
      frameDamageHistory := frameDamageHistory + [frameDamages];
    }
  }
}
