/** Integer rectangles, and lists of them as regions of pixels. */
module Rects {
  /** An SkIRect: the pixels from `left` and `top` up to, but without, `right` and `bottom`. */
  datatype Rect = Rect(left: int, top: int, right: int, bottom: int)
  {
    predicate IsEmpty() {
      left >= right || top >= bottom
    }

    /** SkIRect::contains: an empty rectangle contains nothing and lies in nothing. */
    predicate Contains(r: Rect) {
      !r.IsEmpty() && !IsEmpty() && left <= r.left && top <= r.top && right >= r.right && bottom >= r.bottom
    }
  }

  datatype Point = Point(x: int, y: int)

  predicate Covers(r: Rect, p: Point) {
    r.left <= p.x < r.right && r.top <= p.y < r.bottom
  }

  /** The pixel lies in one of the rectangles. */
  predicate Covered(rs: seq<Rect>, p: Point) {
    exists i | 0 <= i < |rs| :: Covers(rs[i], p)
  }

  /** No rectangle of the list contains another one. */
  ghost predicate Minimal(rs: seq<Rect>) {
    forall i, j | 0 <= i < |rs| && 0 <= j < |rs| && i != j :: !rs[i].Contains(rs[j])
  }

  /** Between rectangles that are not empty, containing is covering every pixel. */
  lemma ContainsExactly(a: Rect, b: Rect)
    requires a.left < a.right && a.top < a.bottom && b.left < b.right && b.top < b.bottom
    ensures a.Contains(b) <==> forall p: Point | Covers(b, p) :: Covers(a, p)
  {
    if forall p: Point | Covers(b, p) :: Covers(a, p) {
      assert Covers(b, Point(b.left, b.top)) && Covers(b, Point(b.right - 1, b.bottom - 1));
    }
  }

  /** A rectangle covers as many columns and rows of pixels as it is wide and high. */
  lemma CoversExactly(r: Rect, x: int, y: int)
    ensures Covers(r, Point(x, y)) <==> 0 <= x - r.left < r.right - r.left && 0 <= y - r.top < r.bottom - r.top
  {
  }

  lemma CoveredByConcat(a: seq<Rect>, b: seq<Rect>, p: Point)
    ensures Covered(a + b, p) <==> Covered(a, p) || Covered(b, p)
  {
    if Covered(a, p) {
      var i :| 0 <= i < |a| && Covers(a[i], p);
      assert Covers((a + b)[i], p);
    }
    if Covered(b, p) {
      var i :| 0 <= i < |b| && Covers(b[i], p);
      assert Covers((a + b)[|a| + i], p);
    }
  }

  /** The list without its element at `i`. */
  function Erase(rs: seq<Rect>, i: nat): (r: seq<Rect>)
    requires i < |rs|
    ensures |r| == |rs| - 1
  {
    rs[..i] + rs[i + 1..]
  }

  /** Erasing a rectangle that lies in `big` loses no pixel as long as `big` is going to be covered. */
  lemma ErasedIsCovered(rs: seq<Rect>, i: nat, big: Rect, p: Point)
    requires i < |rs| && big.Contains(rs[i])
    ensures Covered(Erase(rs, i), p) || Covers(big, p) <==> Covered(rs, p) || Covers(big, p)
  {
    CoveredByConcat(rs[..i], rs[i + 1..], p);
    CoveredByConcat(rs[..i], [rs[i]] + rs[i + 1..], p);
    CoveredByConcat([rs[i]], rs[i + 1..], p);
    assert rs == rs[..i] + ([rs[i]] + rs[i + 1..]);
  }

  lemma EraseKeepsMinimal(rs: seq<Rect>, i: nat)
    requires i < |rs| && Minimal(rs)
    ensures Minimal(Erase(rs, i))
  {
    var es := Erase(rs, i);
    forall m, n | 0 <= m < |es| && 0 <= n < |es| && m != n ensures !es[m].Contains(es[n]) {
      assert es[m] == rs[if m < i then m else m + 1] && es[n] == rs[if n < i then n else n + 1];
    }
  }

  lemma AppendKeepsMinimal(rs: seq<Rect>, r: Rect)
    requires Minimal(rs) && forall i | 0 <= i < |rs| :: !rs[i].Contains(r) && !r.Contains(rs[i])
    ensures Minimal(rs + [r])
  {
  }
}
