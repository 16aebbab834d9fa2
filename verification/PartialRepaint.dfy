/** Partial repaint by buffer age in rns_shell/compositor/Compositor.cpp. */
module PartialRepaint {
  import opened Rects

  const MAX_FRAME_DAMAGE_HISTORY := 5

  /** The contents of a surface: a colour for every pixel of the viewport. */
  type Picture = map<Point, int>

  // ---------------------------------------------------------------- one frame, on values

  /** The history holds the damage of the last frames, the newest last. `Recent` is the damage of its last `n` frames. */
  predicate Recent(history: seq<seq<Rect>>, n: nat, p: Point)
    requires n <= |history|
  {
    exists i | |history| - n <= i < |history| :: Covered(history[i], p)
  }

  /** Must the whole surface be repainted for a buffer of this age? A negative age counts as one beyond any history. */
  predicate NeedsFullRepaint(history: seq<seq<Rect>>, age: int) {
    age <= 0 || (age > 1 && age > |history|)
  }

  /** The pixels that a frame repaints: its own damage and that of the frames missed by the buffer, or everything. */
  predicate Repainted(history: seq<seq<Rect>>, damage: seq<Rect>, age: int, p: Point) {
    NeedsFullRepaint(history, age) || Covered(damage, p) || Recent(history, age - 1, p)
  }

  /** What is repainted, age by age: only the frame's damage for the buffer shown last; for older ones the damage of the
      frames since, too; and everything for a new buffer and for one older than the history. */
  lemma RepaintedExactly(history: seq<seq<Rect>>, damage: seq<Rect>, age: int, p: Point)
    ensures age == 1 ==> (Repainted(history, damage, age, p) <==> Covered(damage, p))
    ensures 2 <= age <= |history| ==>
      (Repainted(history, damage, age, p)
       <==> Covered(damage, p) || exists i | |history| - age < i < |history| :: Covered(history[i], p))
    ensures age <= 0 || (age >= 2 && age > |history|) ==> Repainted(history, damage, age, p)
  {
  }

  /** What clip computation leaves of the history: through a reference to its newest entry,
      the code copies each entry it visits over that one. */
  function Overwritten(history: seq<seq<Rect>>, age: int): seq<seq<Rect>> {
    if 3 <= age <= |history| then history[|history| - 1 := history[|history| - (age - 1)]] else history
  }

  /** Adds a frame's damage, dropping the oldest entry of a full history. */
  function Remember(history: seq<seq<Rect>>, damage: seq<Rect>): seq<seq<Rect>> {
    (if |history| >= MAX_FRAME_DAMAGE_HISTORY then history[1..] else history) + [damage]
  }

  /** The history holds the damage of up to five frames: counting back from the newest, the entry for the `k`-th frame
      before this one is that of the `k - 1`-st before the last. */
  lemma RememberedExactly(history: seq<seq<Rect>>, damage: seq<Rect>, k: nat)
    requires |history| <= 5 && k <= |history| && k < 5
    ensures var after := Remember(history, damage);
      |after| == (if |history| < 5 then |history| + 1 else 5) && after[|after| - 1 - k] == if k == 0 then damage else history[|history| - k]
  {
  }

  /** The buffer after painting the scene into it, clipped. */
  function Paint(buffer: Picture, scene: Picture, history: seq<seq<Rect>>, damage: seq<Rect>, age: int): Picture {
    map p | p in scene :: if p in buffer && !Repainted(history, damage, age, p) then buffer[p] else scene[p]
  }

  /** What was shown so far, and the damage history. */
  datatype State = State(shown: seq<Picture>, history: seq<seq<Rect>>)

  /** A frame to render: the scene, the damage found by pre-paint, the back buffer's age and contents. */
  datatype Frame = Frame(scene: Picture, damage: seq<Rect>, age: int, buffer: Picture)

  function LastShown(s: State): Picture
    requires s.shown != []
  {
    s.shown[|s.shown| - 1]
  }

  /** The damage covers every pixel that changed, and a buffer of age k >= 1 holds what was shown k frames ago. */
  ghost predicate Legal(s: State, f: Frame) {
    && f.buffer.Keys == f.scene.Keys
    && (forall i | 0 <= i < |s.shown| :: s.shown[i].Keys == f.scene.Keys)
    && f.age <= |s.shown|
    && (f.age >= 1 ==> f.buffer == s.shown[|s.shown| - f.age])
    && (s.shown == [] ==> f.damage != [])
    && (s.shown != [] ==> forall p | p in f.scene && f.scene[p] != LastShown(s)[p] :: Covered(f.damage, p))
  }

  /** Renders one frame; without damage nothing happens. The literal code overwrites the history
      before it remembers the frame; read by value, the history is only extended. */
  function Render(s: State, f: Frame, byValue: bool): State {
    if f.damage == [] then s
    else
      State(s.shown + [Paint(f.buffer, f.scene, s.history, f.damage, f.age)],
            Remember(if byValue then s.history else Overwritten(s.history, f.age), f.damage))
  }

  /** The frame's scene is what is on the screen. */
  predicate Shows(s: State, f: Frame) {
    s.shown != [] && LastShown(s) == f.scene
  }

  // ---------------------------------------------------------------- when repainting is right

  /** Wherever the last `age - 1` entries show no damage, nothing has changed over the last `age` frames shown. */
  ghost predicate SoundFor(s: State, age: nat)
    requires 2 <= age <= |s.history| && age <= |s.shown|
  {
    forall p | p in LastShown(s) && p in s.shown[|s.shown| - age] && !Recent(s.history, age - 1, p) ::
      s.shown[|s.shown| - age][p] == LastShown(s)[p]
  }

  /** The history can be trusted for every age it is used for. */
  ghost predicate Sound(s: State) {
    && |s.history| <= |s.shown| && |s.history| <= MAX_FRAME_DAMAGE_HISTORY
    && (forall i, j | 0 <= i < |s.shown| && 0 <= j < |s.shown| :: s.shown[i].Keys == s.shown[j].Keys)
    && forall age: nat | 2 <= age <= |s.history| :: SoundFor(s, age)
  }

  /** From a sound state every legal frame shows its whole scene. */
  lemma SoundFramesShowTheScene(s: State, f: Frame, byValue: bool)
    requires Sound(s) && Legal(s, f)
    ensures Shows(Render(s, f, byValue), f)
  {
    if f.damage == [] {
      assert LastShown(s) == f.scene;
    } else {
      var painted := Paint(f.buffer, f.scene, s.history, f.damage, f.age);
      forall p | p in f.scene && !Repainted(s.history, f.damage, f.age, p) ensures f.buffer[p] == f.scene[p] {
        UntouchedIsRight(s, f, p);
      }
      assert painted == f.scene;
    }
  }

  /** A pixel that a frame does not repaint already has its colour in the buffer. */
  lemma UntouchedIsRight(s: State, f: Frame, p: Point)
    requires Sound(s) && Legal(s, f) && p in f.scene && !Repainted(s.history, f.damage, f.age, p)
    ensures f.buffer[p] == f.scene[p]
  {
    assert f.scene[p] == LastShown(s)[p];
    if f.age >= 2 {
      assert SoundFor(s, f.age);
    }
  }

  lemma RecentAfterRemember(history: seq<seq<Rect>>, damage: seq<Rect>, n: nat, p: Point)
    requires n + 1 <= |Remember(history, damage)| && n <= |history|
    ensures Recent(Remember(history, damage), n + 1, p) <==> Covered(damage, p) || Recent(history, n, p)
  {
    var after := Remember(history, damage);
    var shift := |history| + 1 - |after|;
    assert forall i | 0 <= i < |after| - 1 :: after[i] == history[i + shift];
    if Recent(history, n, p) {
      var i :| |history| - n <= i < |history| && Covered(history[i], p);
      assert Covered(after[i - shift], p);
    }
    if Covered(damage, p) {
      assert Covered(after[|after| - 1], p);
    }
  }

  /** Remembering every frame's damage keeps the history sound, for any ages. */
  lemma ByValueStaysSound(s: State, f: Frame)
    requires Sound(s) && Legal(s, f)
    ensures Sound(Render(s, f, true))
  {
    if f.damage != [] {
      SoundFramesShowTheScene(s, f, true);
      var after := Render(s, f, true);
      forall age: nat | 2 <= age <= |after.history| ensures SoundFor(after, age) {
        NextIsSoundFor(s, s.history, f, age);
      }
    }
  }

  /** What a history with one more entry does not show as damaged, the history before did not show either. */
  ghost predicate Hides(history: seq<seq<Rect>>, earlier: seq<seq<Rect>>, n: nat, damage: seq<Rect>, p: Point)
    requires n <= |history| && n <= |earlier|
  {
    !Covered(damage, p) && !Recent(history, n, p) ==> !Recent(earlier, n, p)
  }

  /** One more remembered frame is sound for `age`, if the history it is added to was sound for `age - 1`. */
  lemma NextIsSoundFor(s: State, history: seq<seq<Rect>>, f: Frame, age: nat)
    requires Sound(s) && Legal(s, f) && |history| == |s.history|
    requires 2 <= age <= |Remember(history, f.damage)|
    requires forall p | p in f.scene :: Hides(history, s.history, age - 2, f.damage, p)
    ensures SoundFor(State(s.shown + [f.scene], Remember(history, f.damage)), age)
  {
    var after := State(s.shown + [f.scene], Remember(history, f.damage));
    var past := after.shown[|after.shown| - age];
    assert past == s.shown[|s.shown| + 1 - age];
    forall p | p in f.scene && p in past && !Recent(after.history, age - 1, p) ensures past[p] == f.scene[p] {
      RecentAfterRemember(history, f.damage, age - 2, p);
      assert Hides(history, s.history, age - 2, f.damage, p);
      UnchangedSince(s, f, age - 1, p);
    }
  }

  lemma UnchangedSince(s: State, f: Frame, age: nat, p: Point)
    requires Sound(s) && Legal(s, f) && p in f.scene && 1 <= age <= |s.shown| && age <= |s.history| + 1
    requires age >= 2 ==> age <= |s.history| && !Recent(s.history, age - 1, p)
    requires !Covered(f.damage, p)
    ensures s.shown[|s.shown| - age][p] == f.scene[p]
  {
    assert f.scene[p] == LastShown(s)[p];
    if age >= 2 {
      assert SoundFor(s, age);
    }
  }

  // ---------------------------------------------------------------- when the overwritten history does no harm

  /** The newest damage that a render overwrites is covered by this frame's damage or by what replaces it. */
  ghost predicate OverwriteHarmless(history: seq<seq<Rect>>, damage: seq<Rect>, age: int, viewport: set<Point>) {
    damage != [] && 3 <= age <= |history| ==>
      forall p | p in viewport && Covered(history[|history| - 1], p) && !Covered(damage, p) :: Covered(history[|history| - (age - 1)], p)
  }

  lemma OverwrittenRecent(history: seq<seq<Rect>>, age: int, n: nat, p: Point)
    requires 3 <= age <= |history| && 1 <= n <= |history|
    requires Covered(history[|history| - 1], p) ==> Covered(history[|history| - (age - 1)], p)
    requires !Recent(Overwritten(history, age), n, p)
    ensures !Recent(history, n, p)
  {
    var after := Overwritten(history, age);
    assert after[|history| - 1] == history[|history| - (age - 1)];
    forall i | |history| - n <= i < |history| ensures !Covered(history[i], p) {
      assert !Covered(after[i], p);
    }
  }

  /** The literal code keeps a sound history sound when the overwrite is harmless; ages up to 2 overwrite nothing. */
  lemma HarmlessStaysSound(s: State, f: Frame)
    requires Sound(s) && Legal(s, f) && OverwriteHarmless(s.history, f.damage, f.age, f.scene.Keys)
    ensures Sound(Render(s, f, false))
  {
    if f.damage != [] {
      SoundFramesShowTheScene(s, f, false);
      var after, history := Render(s, f, false), Overwritten(s.history, f.age);
      forall age: nat | 2 <= age <= |after.history| ensures SoundFor(after, age) {
        forall p | p in f.scene ensures Hides(history, s.history, age - 2, f.damage, p) {
          HarmlessHides(s.history, f, age - 2, p);
        }
        NextIsSoundFor(s, history, f, age);
      }
    }
  }

  lemma HarmlessHides(history: seq<seq<Rect>>, f: Frame, n: nat, p: Point)
    requires f.damage != [] && n <= |history| && p in f.scene.Keys
    requires OverwriteHarmless(history, f.damage, f.age, f.scene.Keys)
    ensures Hides(Overwritten(history, f.age), history, n, f.damage, p)
  {
    if 3 <= f.age <= |history| && n >= 1 && !Covered(f.damage, p) && !Recent(Overwritten(history, f.age), n, p) {
      OverwrittenRecent(history, f.age, n, p);
    }
  }

  function Blank(viewport: set<Point>): Picture {
    map p | p in viewport :: 0
  }

  /** A history whose newest entry is lost at `p` can belong to images that differ at `p`. */
  lemma HarmfulOverwrite(history: seq<seq<Rect>>, damage: seq<Rect>, age: int, viewport: set<Point>, p: Point) returns (s: State, f: Frame)
    requires |history| <= MAX_FRAME_DAMAGE_HISTORY && 3 <= age <= |history| && p in viewport && damage != []
    requires Covered(history[|history| - 1], p) && !Covered(damage, p) && !Covered(history[|history| - (age - 1)], p)
    ensures s.history == history && f.damage == damage && f.age == age && f.scene.Keys == viewport
    ensures Sound(s) && Legal(s, f) && !Sound(Render(s, f, false))
  {
    var n, blank := |history|, Blank(viewport);
    var last := blank[p := 1];
    s := State(seq(n - 1, i => blank) + [last], history);
    f := Frame(last, damage, age, blank);
    forall b: nat | 2 <= b <= |s.history| ensures SoundFor(s, b) {
      assert Recent(history, b - 1, p);
    }
    SoundFramesShowTheScene(s, f, false);
    var after := Render(s, f, false);
    var newHistory := Overwritten(history, age);
    assert !Recent(newHistory, 1, p);
    RecentAfterRemember(newHistory, damage, 1, p);
    assert after.shown[|after.shown| - 3][p] != LastShown(after)[p];
    assert !SoundFor(after, 3);
  }

  /** The literal code keeps the history sound for all images that fit it, exactly when the overwrite is harmless. */
  lemma HarmlessExactly(history: seq<seq<Rect>>, damage: seq<Rect>, age: int, viewport: set<Point>)
    requires |history| <= MAX_FRAME_DAMAGE_HISTORY
    ensures OverwriteHarmless(history, damage, age, viewport) <==>
            forall s: State, f: Frame | s.history == history && f.damage == damage && f.age == age && f.scene.Keys == viewport
                                        && Sound(s) && Legal(s, f) :: Sound(Render(s, f, false))
  {
    if OverwriteHarmless(history, damage, age, viewport) {
      forall s: State, f: Frame | s.history == history && f.damage == damage && f.age == age && f.scene.Keys == viewport
                                  && Sound(s) && Legal(s, f) ensures Sound(Render(s, f, false)) {
        HarmlessStaysSound(s, f);
      }
    } else {
      var p :| p in viewport && Covered(history[|history| - 1], p) && !Covered(damage, p) && !Covered(history[|history| - (age - 1)], p);
      var s, f := HarmfulOverwrite(history, damage, age, viewport, p);
    }
  }

  /** All shown images are of one size, and there are as many as the history tells of. */
  ghost predicate WellFormed(s: State) {
    && |s.history| <= |s.shown| && |s.history| <= MAX_FRAME_DAMAGE_HISTORY
    && forall i, j | 0 <= i < |s.shown| && 0 <= j < |s.shown| :: s.shown[i].Keys == s.shown[j].Keys
  }

  /** A history that is not sound makes some legal frame show something else than its scene. */
  lemma SoundExactly(s: State)
    requires WellFormed(s)
    ensures Sound(s) <==> forall f | Legal(s, f) :: Shows(Render(s, f, false), f)
  {
    if Sound(s) {
      forall f | Legal(s, f) ensures Shows(Render(s, f, false), f) {
        SoundFramesShowTheScene(s, f, false);
      }
    } else {
      var age: nat :| 2 <= age <= |s.history| && !SoundFor(s, age);
      var f := UnsoundShowsStale(s, age);
    }
  }

  lemma UnsoundShowsStale(s: State, age: nat) returns (f: Frame)
    requires WellFormed(s) && 2 <= age <= |s.history| && !SoundFor(s, age)
    ensures Legal(s, f) && !Shows(Render(s, f, false), f)
  {
    var p :| p in LastShown(s) && !Recent(s.history, age - 1, p) && s.shown[|s.shown| - age][p] != LastShown(s)[p];
    var elsewhere := [Rect(p.x + 1, p.y, p.x + 2, p.y + 1)];
    f := Frame(LastShown(s), elsewhere, age, s.shown[|s.shown| - age]);
    assert !Covered(elsewhere, p);
    assert Paint(f.buffer, f.scene, s.history, elsewhere, age)[p] != f.scene[p];
  }

  // ---------------------------------------------------------------- whole runs

  /** Every frame is legal after those before it. */
  ghost predicate LegalRun(s: State, frames: seq<Frame>, byValue: bool)
    decreases |frames|
  {
    frames != [] ==> Legal(s, frames[0]) && LegalRun(Render(s, frames[0], byValue), frames[1..], byValue)
  }

  /** No frame of the literal code overwrites damage that is still needed. */
  ghost predicate HarmlessRun(s: State, frames: seq<Frame>)
    decreases |frames|
  {
    frames != [] ==>
      && OverwriteHarmless(s.history, frames[0].damage, frames[0].age, frames[0].scene.Keys)
      && HarmlessRun(Render(s, frames[0], false), frames[1..])
  }

  /** After every frame of the run, the screen shows exactly that frame's scene. */
  ghost predicate EveryFrameShown(s: State, frames: seq<Frame>, byValue: bool)
    decreases |frames|
  {
    frames != [] ==>
      && Shows(Render(s, frames[0], byValue), frames[0])
      && EveryFrameShown(Render(s, frames[0], byValue), frames[1..], byValue)
  }

  /** Partial repaints equal full ones in any legal run, whatever the buffer ages, as long as no overwrite does harm. */
  lemma {:induction false} RunsShowTheirScenes(s: State, frames: seq<Frame>, byValue: bool)
    requires Sound(s) && LegalRun(s, frames, byValue) && (byValue || HarmlessRun(s, frames))
    ensures EveryFrameShown(s, frames, byValue)
    decreases |frames|
  {
    if frames != [] {
      SoundFramesShowTheScene(s, frames[0], byValue);
      if byValue {
        ByValueStaysSound(s, frames[0]);
      } else {
        HarmlessStaysSound(s, frames[0]);
      }
      RunsShowTheirScenes(Render(s, frames[0], byValue), frames[1..], byValue);
    }
  }

  /** The literal code is right in every legal run, from the start, whose buffer ages are at most 2. */
  lemma YoungBuffersShowTheirScenes(frames: seq<Frame>)
    requires LegalRun(State([], []), frames, false) && forall i | 0 <= i < |frames| :: frames[i].age <= 2
    ensures EveryFrameShown(State([], []), frames, false)
  {
    YoungBuffersAreHarmless(State([], []), frames);
    RunsShowTheirScenes(State([], []), frames, false);
  }

  lemma {:induction false} YoungBuffersAreHarmless(s: State, frames: seq<Frame>)
    requires forall i | 0 <= i < |frames| :: frames[i].age <= 2
    ensures HarmlessRun(s, frames)
    decreases |frames|
  {
    if frames != [] {
      YoungBuffersAreHarmless(Render(s, frames[0], false), frames[1..]);
    }
  }

  // ---------------------------------------------------------------- a run that goes wrong

  const CORNER := Point(0, 0)
  const SIDE := Point(1, 0)
  const ALL := [Rect(0, 0, 2, 1)]
  const EDGE := [Rect(1, 0, 2, 1)]
  const OFF: Picture := map[CORNER := 0, SIDE := 0]
  const ON: Picture := map[CORNER := 1, SIDE := 0]

  lemma ExampleStates() returns (s3: State, s4: State)
    ensures s3 == State([OFF, OFF, ON], [ALL, EDGE, ALL]) && s4 == State([OFF, OFF, ON, ON], [ALL, EDGE, EDGE, EDGE])
    ensures Render(s3, Frame(ON, EDGE, 3, OFF), false) == s4
    ensures Render(s4, Frame(ON, EDGE, 3, OFF), false).shown == [OFF, OFF, ON, ON, OFF]
    ensures Legal(s3, Frame(ON, EDGE, 3, OFF)) && Legal(s4, Frame(ON, EDGE, 3, OFF))
  {
    assert Covers(ALL[0], CORNER) && !Covered(EDGE, CORNER);
    s3, s4 := State([OFF, OFF, ON], [ALL, EDGE, ALL]), State([OFF, OFF, ON, ON], [ALL, EDGE, EDGE, EDGE]);
    assert Covered(s3.history[2], CORNER) && Recent(s3.history, 2, CORNER);
    assert Paint(OFF, ON, s3.history, EDGE, 3) == ON;
    assert Overwritten(s3.history, 3) == [ALL, EDGE, EDGE];
    assert !Recent(s4.history, 2, CORNER);
    assert Paint(OFF, ON, s4.history, EDGE, 3) == OFF;
  }

  lemma ExampleStart()
    ensures Render(State([], []), Frame(OFF, ALL, 0, OFF), false) == State([OFF], [ALL])
    ensures Legal(State([], []), Frame(OFF, ALL, 0, OFF))
  {
    assert Paint(OFF, OFF, [], ALL, 0) == OFF;
  }

  lemma ExampleUnchanged()
    ensures Render(State([OFF], [ALL]), Frame(OFF, EDGE, 0, OFF), false) == State([OFF, OFF], [ALL, EDGE])
    ensures Legal(State([OFF], [ALL]), Frame(OFF, EDGE, 0, OFF))
  {
    assert Paint(OFF, OFF, [ALL], EDGE, 0) == OFF;
  }

  lemma ExampleChanged()
    ensures Render(State([OFF, OFF], [ALL, EDGE]), Frame(ON, ALL, 0, OFF), false) == State([OFF, OFF, ON], [ALL, EDGE, ALL])
    ensures Legal(State([OFF, OFF], [ALL, EDGE]), Frame(ON, ALL, 0, OFF))
  {
    assert Covers(ALL[0], CORNER);
    assert Paint(OFF, ON, [ALL, EDGE], ALL, 0) == ON;
  }

  /** The ages that a swap chain of three buffers reports: none of the first three was used before, and from then on
      every buffer was last used three frames ago. */
  predicate TripleBuffered(frames: seq<Frame>) {
    forall i | 0 <= i < |frames| :: frames[i].age == if i < 3 then 0 else 3
  }

  /** Three buffers in turn, with damage elsewhere in the last two frames: the literal code ends by showing the corner
      as it was before it changed. */
  lemma StalePixelExample() returns (frames: seq<Frame>)
    ensures |frames| == 5 && TripleBuffered(frames)
    ensures LegalRun(State([], []), frames, false) && !EveryFrameShown(State([], []), frames, false)
  {
    ExampleStart();
    ExampleUnchanged();
    ExampleChanged();
    var s1, s2 := State([OFF], [ALL]), State([OFF, OFF], [ALL, EDGE]);
    var s3, s4 := ExampleStates();
    var last := [Frame(ON, EDGE, 3, OFF)];
    var two := [Frame(ON, EDGE, 3, OFF)] + last;
    var three := [Frame(ON, ALL, 0, OFF)] + two;
    var four := [Frame(OFF, EDGE, 0, OFF)] + three;
    frames := [Frame(OFF, ALL, 0, OFF)] + four;
    StaleEnd(s4, last);
    RunCons(s3, Frame(ON, EDGE, 3, OFF), last);
    RunCons(s2, Frame(ON, ALL, 0, OFF), two);
    RunCons(s1, Frame(OFF, EDGE, 0, OFF), three);
    RunCons(State([], []), Frame(OFF, ALL, 0, OFF), four);
  }

  lemma StaleEnd(s: State, last: seq<Frame>)
    requires last == [Frame(ON, EDGE, 3, OFF)] && Legal(s, last[0])
    requires Render(s, last[0], false).shown == [OFF, OFF, ON, ON, OFF]
    ensures LegalRun(s, last, false) && !EveryFrameShown(s, last, false)
  {
    assert OFF[CORNER] != ON[CORNER];
  }

  lemma RunCons(s: State, f: Frame, rest: seq<Frame>)
    ensures LegalRun(s, [f] + rest, false) <==> Legal(s, f) && LegalRun(Render(s, f, false), rest, false)
    ensures EveryFrameShown(s, [f] + rest, false) ==> EveryFrameShown(Render(s, f, false), rest, false)
  {
    assert ([f] + rest)[1..] == rest;
  }
}
