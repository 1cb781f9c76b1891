/** Host path names, and the two ways a rename acts on them.

    `Moved` is what the link table does to every name it knows when `from`
    becomes `to`. `Swap` trades the two subtrees; it is an involution, and on
    names that avoid `to` it coincides with `Moved`. Every rename below is
    therefore reasoned about as a swap. */
module HostNames {
  type Path = string

  /** `q` is `p` itself or a name beneath the directory `p`. */
  predicate Under(q: Path, p: Path) {
    q == p || (|q| > |p| && q[..|p|] == p && q[|p|] == '/')
  }

  /** Neither name is, or lies beneath, the other. */
  predicate Apart(x: Path, y: Path) {
    !Under(x, y) && !Under(y, x)
  }

  /** Where `q` is after `from` was renamed to `to`. */
  function Moved(q: Path, from: Path, to: Path): (r: Path)
    ensures Under(q, from) ==> Under(r, to)
  {
    if Under(q, from) then to + q[|from|..] else q
  }

  function Swap(q: Path, x: Path, y: Path): Path {
    if Under(q, x) then y + q[|x|..] else if Under(q, y) then x + q[|y|..] else q
  }

  lemma UnderTrans(r: Path, q: Path, p: Path)
    requires Under(r, q) && Under(q, p)
    ensures Under(r, p)
  {
    if q != p && r != q {
      assert r[..|p|] == r[..|q|][..|p|];
      assert r[|p|] == r[..|q|][|p|];
    }
  }

  /** Two ancestors of one name lie on one line. */
  lemma AncestorsComparable(q: Path, x: Path, y: Path)
    requires Under(q, x) && Under(q, y)
    ensures Under(x, y) || Under(y, x)
  {
    if |x| < |y| {
      assert y == q[..|y|];
      assert y[..|x|] == q[..|x|];
      assert y[|x|] == q[|x|];
    } else {
      assert x == q[..|x|];
      assert x[..|y|] == q[..|y|];
      if |y| < |x| { assert x[|y|] == q[|y|]; }
    }
  }

  /** A name below `from` keeps its tail below `to`, and every other name stays. */
  lemma MovedKeepsTail(q: Path, from: Path, to: Path, tail: string)
    requires tail == "" || tail[0] == '/'
    ensures Moved(from + tail, from, to) == to + tail
    ensures !Under(q, from) ==> Moved(q, from, to) == q
  {
    var n := from + tail;
    assert n[..|from|] == from && n[|from|..] == tail;
  }

  lemma MovedBack(q: Path, from: Path, to: Path)
    requires Under(q, from)
    ensures Moved(Moved(q, from, to), to, from) == q
  {
    var r := Moved(q, from, to);
    assert r[|to|..] == q[|from|..];
    assert from + q[|from|..] == q;
  }

  lemma SwapInvolution(q: Path, x: Path, y: Path)
    requires Apart(x, y)
    ensures Swap(Swap(q, x, y), x, y) == q
    ensures Under(q, x) <==> Under(Swap(q, x, y), y)
    ensures Under(q, y) <==> Under(Swap(q, x, y), x)
  {
    var r := Swap(q, x, y);
    if Under(q, x) {
      MovedBack(q, x, y);
      if Under(q, y) { AncestorsComparable(q, x, y); }
      if Under(r, x) { AncestorsComparable(r, x, y); }
    } else if Under(q, y) {
      MovedBack(q, y, x);
      if Under(r, y) { AncestorsComparable(r, x, y); }
    }
  }

  /** Swapping keeps the shape of the tree, away from the ancestors of x and y. */
  lemma SwapKeepsUnder(q: Path, p: Path, x: Path, y: Path)
    requires Apart(x, y) && Under(q, p) && (Under(p, x) || Under(p, y) || (!Under(q, x) && !Under(q, y)))
    ensures Under(Swap(q, x, y), Swap(p, x, y))
  {
    if Under(p, x) {
      UnderTrans(q, p, x);
      assert Swap(q, x, y)[..|Swap(p, x, y)|] == Swap(p, x, y);
    } else if Under(p, y) {
      UnderTrans(q, p, y);
      if Under(q, x) { AncestorsComparable(q, x, y); }
      assert Swap(q, x, y)[..|Swap(p, x, y)|] == Swap(p, x, y);
    }
  }

  /** What an ancestor of a swapped name was before the swap. */
  lemma SwapAncestor(q: Path, p: Path, x: Path, y: Path)
    requires Apart(x, y) && Under(Swap(q, x, y), p)
    ensures Under(q, Swap(p, x, y)) || (Under(q, x) && Under(y, p) && p != y) || (Under(q, y) && Under(x, p) && p != x)
  {
    var r := Swap(q, x, y);
    SwapInvolution(q, x, y);
    SwapInvolution(p, x, y);
    if Under(p, x) || Under(p, y) || (!Under(r, x) && !Under(r, y)) {
      SwapKeepsUnder(r, p, x, y);
    } else if Under(r, x) {
      AncestorsComparable(r, p, x);
    } else {
      AncestorsComparable(r, p, y);
    }
  }
}
