/** Which candidate a key press prefers: the comparator and the rules of ReactSkia/core_modules/RSkSpatialNavigator.cpp. */
module FocusOrder {
  import opened Options
  import opened Rects

  datatype Key = Left | Right | Up | Down

  /** What the navigator looks at in a component. */
  datatype Candidate = Candidate(tag: int, frame: Rect, zIndex: int)

  function Width(r: Rect): int {
    r.right - r.left
  }

  function Height(r: Rect): int {
    r.bottom - r.top
  }

  // ---------------------------------------------------------------- the comparator

  /** sortDirectionComparator: does the list put `a` before `b`? */
  predicate Before(key: Key, a: Candidate, b: Candidate) {
    if a.frame == b.frame then
      if a.zIndex > b.zIndex then true
      else if b.zIndex > a.zIndex then false
      else a.tag > b.tag
    else
      match key
      case Right => if a.frame.left != b.frame.left then a.frame.left < b.frame.left else BeforeSideways(a.frame, b.frame)
      case Left => if a.frame.right != b.frame.right then a.frame.right > b.frame.right else BeforeSideways(a.frame, b.frame)
      case Up => if a.frame.bottom != b.frame.bottom then a.frame.bottom > b.frame.bottom else BeforeUpright(a.frame, b.frame)
      case Down => if a.frame.top != b.frame.top then a.frame.top < b.frame.top else BeforeUpright(a.frame, b.frame)
  }

  predicate BeforeSideways(a: Rect, b: Rect) {
    if a.top != b.top then a.top < b.top
    else if Width(a) != Width(b) then Width(a) < Width(b)
    else Height(a) < Height(b)
  }

  predicate BeforeUpright(a: Rect, b: Rect) {
    if a.left != b.left then a.left < b.left
    else if Height(a) != Height(b) then Height(a) < Height(b)
    else Width(a) < Width(b)
  }

  /** The comparator is a strict order, total on candidates with different tags, for every key. */
  lemma BeforeIsStrictTotal(key: Key, a: Candidate, b: Candidate, c: Candidate)
    ensures !Before(key, a, a) && !(Before(key, a, b) && Before(key, b, a))
    ensures a.tag != b.tag ==> Before(key, a, b) || Before(key, b, a)
    ensures Before(key, a, b) && Before(key, b, c) ==> Before(key, a, c)
  {
  }

  // ---------------------------------------------------------------- which candidates a key press considers

  /** The edge that a key press moves, counted in the direction of the key. */
  function Advance(key: Key, r: Rect): int {
    match key
    case Right => r.left
    case Left => -r.right
    case Up => -r.bottom
    case Down => r.top
  }

  /** isValidCandidate: another frame, and strictly ahead. */
  predicate IsValid(key: Key, current: Rect, candidate: Rect) {
    if candidate == current then false
    else
      match key
      case Right => candidate.left > current.left
      case Left => candidate.right < current.right
      case Up => candidate.bottom < current.bottom
      case Down => candidate.top > current.top
  }

  /** A valid candidate is one that is strictly further in the direction of the key. */
  lemma ValidIsAhead(key: Key, current: Rect, candidate: Rect)
    ensures IsValid(key, current, candidate) <==> Advance(key, candidate) > Advance(key, current)
  {
  }

  /** The frames overlap when projected along the direction of the key; touching counts. */
  predicate Overlaps(key: Key, current: Rect, r: Rect) {
    if key.Left? || key.Right? then !(r.bottom < current.top || r.top > current.bottom)
    else !(r.right < current.left || r.left > current.right)
  }

  /** Without overlap only candidates wholly above or below count, and only for Up and Down. */
  predicate Clears(key: Key, current: Rect, r: Rect) {
    || (key.Up? && r.bottom <= current.top)
    || (key.Down? && r.top >= current.bottom)
  }

  /** Is the candidate considered at all? */
  predicate Eligible(key: Key, current: Candidate, visibleOnly: bool, isVisible: Candidate -> bool, c: Candidate) {
    && c != current && (visibleOnly ==> isVisible(c))
    && IsValid(key, current.frame, c.frame)
    && (Overlaps(key, current.frame, c.frame) || Clears(key, current.frame, c.frame))
  }

  /** Which of two eligible candidates is the better one: for Up and Down the nearer one, overlap or not,
      then an overlapping one, then the comparator's first; for Left and Right simply the comparator's first. */
  predicate Better(key: Key, current: Rect, a: Candidate, b: Candidate) {
    if key.Left? || key.Right? then Before(key, a, b)
    else if Advance(key, a.frame) != Advance(key, b.frame) then Advance(key, a.frame) < Advance(key, b.frame)
    else if Overlaps(key, current, a.frame) != Overlaps(key, current, b.frame) then Overlaps(key, current, a.frame)
    else Before(key, a, b)
  }

  lemma BetterIsStrictTotal(key: Key, current: Rect, a: Candidate, b: Candidate, c: Candidate)
    ensures !Better(key, current, a, a) && !(Better(key, current, a, b) && Better(key, current, b, a))
    ensures a.tag != b.tag ==> Better(key, current, a, b) || Better(key, current, b, a)
    ensures Better(key, current, a, b) && Better(key, current, b, c) ==> Better(key, current, a, c)
  {
    BeforeIsStrictTotal(key, a, b, c);
  }

  /** The tags tell the candidates apart. */
  ghost predicate TagsTell(candidates: seq<Candidate>) {
    forall a, b | a in candidates && b in candidates && a.tag == b.tag :: a == b
  }

  /** `best` is eligible and better than every other eligible candidate. */
  ghost predicate IsBest(key: Key, current: Candidate, visibleOnly: bool, isVisible: Candidate -> bool,
                         candidates: seq<Candidate>, best: Candidate) {
    && best in candidates && Eligible(key, current, visibleOnly, isVisible, best)
    && forall c | c in candidates && c != best && Eligible(key, current, visibleOnly, isVisible, c) ::
      Better(key, current.frame, best, c)
  }

  // ---------------------------------------------------------------- what the best candidate is, on the screen

  /** The best candidate is a nearest one: of the candidates ahead, none has its edge closer. */
  lemma BestIsNearest(key: Key, current: Candidate, visibleOnly: bool, isVisible: Candidate -> bool,
                      candidates: seq<Candidate>, best: Candidate, c: Candidate)
    requires IsBest(key, current, visibleOnly, isVisible, candidates, best)
    requires c in candidates && Eligible(key, current, visibleOnly, isVisible, c)
    ensures match key
      case Right => current.frame.left < best.frame.left <= c.frame.left
      case Left => current.frame.right > best.frame.right >= c.frame.right
      case Up => current.frame.bottom > best.frame.bottom >= c.frame.bottom
      case Down => current.frame.top < best.frame.top <= c.frame.top
  {
  }

  /** Of candidates with the same frame, the best is the one on top: of higher z-index, and then of higher tag. */
  lemma BestIsOnTop(key: Key, current: Candidate, visibleOnly: bool, isVisible: Candidate -> bool,
                    candidates: seq<Candidate>, best: Candidate, c: Candidate)
    requires IsBest(key, current, visibleOnly, isVisible, candidates, best) && c != best && c.frame == best.frame
    requires c in candidates && Eligible(key, current, visibleOnly, isVisible, c)
    ensures best.zIndex > c.zIndex || (best.zIndex == c.zIndex && best.tag > c.tag)
  {
  }

  /** Left and Right: of equally near candidates the best is the topmost, then the narrowest, then the lowest in height. */
  lemma BestSideways(key: Key, current: Candidate, visibleOnly: bool, isVisible: Candidate -> bool,
                     candidates: seq<Candidate>, best: Candidate, c: Candidate)
    requires IsBest(key, current, visibleOnly, isVisible, candidates, best) && c.frame != best.frame
    requires c in candidates && Eligible(key, current, visibleOnly, isVisible, c)
    requires (key == Right && c.frame.left == best.frame.left) || (key == Left && c.frame.right == best.frame.right)
    ensures var b, f := best.frame, c.frame;
      || b.top < f.top
      || (b.top == f.top && b.right - b.left < f.right - f.left)
      || (b.top == f.top && b.right - b.left == f.right - f.left && b.bottom - b.top < f.bottom - f.top)
  {
  }

  /** Up and Down: of equally near candidates one that overlaps the current column is best, and among those that do, or
      do not, the leftmost, then the lowest in height, then the narrowest. */
  lemma BestUpright(key: Key, current: Candidate, visibleOnly: bool, isVisible: Candidate -> bool,
                    candidates: seq<Candidate>, best: Candidate, c: Candidate)
    requires IsBest(key, current, visibleOnly, isVisible, candidates, best) && c.frame != best.frame
    requires c in candidates && Eligible(key, current, visibleOnly, isVisible, c)
    requires (key == Up && c.frame.bottom == best.frame.bottom) || (key == Down && c.frame.top == best.frame.top)
    ensures var b, f, now := best.frame, c.frame, current.frame;
      var bestOverlaps, overlaps := now.left <= b.right && b.left <= now.right, now.left <= f.right && f.left <= now.right;
      && (overlaps ==> bestOverlaps)
      && (bestOverlaps == overlaps ==>
            || b.left < f.left
            || (b.left == f.left && b.bottom - b.top < f.bottom - f.top)
            || (b.left == f.left && b.bottom - b.top == f.bottom - f.top && b.right - b.left < f.right - f.left))
  {
  }

  /** Which candidates are eligible: others than the current one, visible if that is asked for, strictly ahead and in the
      same band of the screen; for Up and Down also outside of the band, if wholly above or below. */
  lemma EligibleExactly(key: Key, current: Candidate, visibleOnly: bool, isVisible: Candidate -> bool, c: Candidate)
    ensures var f, now := c.frame, current.frame;
      var sameRows, sameColumns := now.top <= f.bottom && f.top <= now.bottom, now.left <= f.right && f.left <= now.right;
      Eligible(key, current, visibleOnly, isVisible, c) <==>
        && c != current && (visibleOnly ==> isVisible(c))
        && match key
           case Right => f.left > now.left && sameRows
           case Left => f.right < now.right && sameRows
           case Up => f.bottom < now.bottom && (sameColumns || f.bottom <= now.top)
           case Down => f.top > now.top && (sameColumns || f.top >= now.bottom)
  {
  }

  lemma BestIsUnique(key: Key, current: Candidate, visibleOnly: bool, isVisible: Candidate -> bool,
                     candidates: seq<Candidate>, a: Candidate, b: Candidate)
    requires IsBest(key, current, visibleOnly, isVisible, candidates, a)
    requires IsBest(key, current, visibleOnly, isVisible, candidates, b)
    ensures a == b
  {
    BetterIsStrictTotal(key, current.frame, a, b, a);
  }

  // ---------------------------------------------------------------- the reference: one pass over the list

  /** The best eligible candidate of the list, found by comparing them one after the other. */
  function BestOf(key: Key, current: Candidate, visibleOnly: bool, isVisible: Candidate -> bool,
                  candidates: seq<Candidate>): Option<Candidate> {
    if candidates == [] then None
    else
      var rest := BestOf(key, current, visibleOnly, isVisible, candidates[1..]);
      var c := candidates[0];
      if !Eligible(key, current, visibleOnly, isVisible, c) then rest
      else if rest.None? || Better(key, current.frame, c, rest.value) then Some(c)
      else rest
  }

  lemma {:induction false} BestOfIsBest(key: Key, current: Candidate, visibleOnly: bool, isVisible: Candidate -> bool,
                                        candidates: seq<Candidate>)
    requires TagsTell(candidates)
    ensures var best := BestOf(key, current, visibleOnly, isVisible, candidates);
      if best.None? then forall c | c in candidates :: !Eligible(key, current, visibleOnly, isVisible, c)
      else IsBest(key, current, visibleOnly, isVisible, candidates, best.value)
  {
    if candidates != [] {
      var c := candidates[0];
      BestOfIsBest(key, current, visibleOnly, isVisible, candidates[1..]);
      assert forall x :: x in candidates <==> x == c || x in candidates[1..];
      var rest := BestOf(key, current, visibleOnly, isVisible, candidates[1..]);
      if rest.Some? && Eligible(key, current, visibleOnly, isVisible, c) && c != rest.value {
        BetterIsStrictTotal(key, current.frame, c, rest.value, c);
        if Better(key, current.frame, c, rest.value) {
          BestOfLonger(key, current, visibleOnly, isVisible, candidates, rest.value);
        }
      }
    }
  }

  /** The head of the list, if it beats the best of the rest, beats all of it. */
  lemma BestOfLonger(key: Key, current: Candidate, visibleOnly: bool, isVisible: Candidate -> bool,
                     candidates: seq<Candidate>, best: Candidate)
    requires candidates != [] && Eligible(key, current, visibleOnly, isVisible, candidates[0])
    requires IsBest(key, current, visibleOnly, isVisible, candidates[1..], best)
    requires Better(key, current.frame, candidates[0], best)
    ensures IsBest(key, current, visibleOnly, isVisible, candidates, candidates[0])
  {
    forall c | c in candidates && c != candidates[0] && Eligible(key, current, visibleOnly, isVisible, c)
      ensures Better(key, current.frame, candidates[0], c)
    {
      assert c in candidates[1..];
      BetterIsStrictTotal(key, current.frame, candidates[0], best, c);
    }
  }

  /** The order of the list does not matter. */
  lemma OrderDoesNotMatter(key: Key, current: Candidate, visibleOnly: bool, isVisible: Candidate -> bool,
                           these: seq<Candidate>, those: seq<Candidate>)
    requires multiset(these) == multiset(those) && TagsTell(these)
    ensures BestOf(key, current, visibleOnly, isVisible, these) == BestOf(key, current, visibleOnly, isVisible, those)
  {
    forall c ensures c in these <==> c in those {
      assert c in these <==> c in multiset(these);
      assert c in those <==> c in multiset(those);
    }
    BestOfIsBest(key, current, visibleOnly, isVisible, these);
    BestOfIsBest(key, current, visibleOnly, isVisible, those);
    var best, other := BestOf(key, current, visibleOnly, isVisible, these), BestOf(key, current, visibleOnly, isVisible, those);
    if best.Some? {
      assert IsBest(key, current, visibleOnly, isVisible, those, best.value);
      BestIsUnique(key, current, visibleOnly, isVisible, those, best.value, other.value);
    }
  }
}
