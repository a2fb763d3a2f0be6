/**
 The red-black discipline on the shapes of RbTreeShape: how each rebalancing
 step of kernel/libk/rbtree.c restores it, and the height it guarantees.
 */
module RbTreeColour {
  import opened RbTreeShape

  predicate IsRed(t: Tree) { t.Node? && t.red }

  function Blacken(t: Tree): Tree {
    if t.Leaf? then t else t.(red := false)
  }

  function Black(red: bool): nat { if red then 0 else 1 }

  /** No red node has a red child, and every way down crosses `h` black nodes. */
  ghost predicate RB(t: Tree, h: int) {
    match t
    case Leaf => h == 0
    case Node(l, _, red, r) =>
      && RB(l, h - Black(red)) && RB(r, h - Black(red))
      && (red ==> !IsRed(l) && !IsRed(r))
  }

  /** The same for a tree whose hole is to receive a tree of black height `h`. */
  ghost predicate PathRB(path: Path, h: int, holeRed: bool) {
    match path
    case Top => !holeRed
    case Step(_, _, red, sib, up) =>
      && RB(sib, h)
      && (red ==> !holeRed && !IsRed(sib))
      && PathRB(up, h + Black(red), red)
  }

  function BlackHeight(t: Tree): nat {
    match t
    case Leaf => 0
    case Node(l, _, red, _) => BlackHeight(l) + Black(red)
  }

  ghost predicate IsRedBlack(t: Tree) {
    !IsRed(t) && RB(t, BlackHeight(t))
  }

  lemma {:induction false} RBHeight(t: Tree, h: int)
    requires RB(t, h)
    ensures h == BlackHeight(t)
  {
    match t
    case Leaf =>
    case Node(l, _, red, r) => RBHeight(l, h - Black(red));
  }

  lemma {:induction false} PlugRB(t: Tree, path: Path, h: int)
    requires RB(t, h) && PathRB(path, h, IsRed(t))
    ensures IsRedBlack(Plug(t, path))
    decreases path
  {
    match path
    case Top => RBHeight(t, h);
    case Step(left, id, red, sib, up) => PlugRB(Join(left, t, id, red, sib), up, h + Black(red));
  }

  function Blacks(path: Path): nat {
    match path
    case Top => 0
    case Step(_, _, red, _, up) => Blacks(up) + Black(red)
  }

  lemma {:induction false} UnplugRB(t: Tree, path: Path, h: int)
    requires RB(Plug(t, path), h) && !IsRed(Plug(t, path))
    ensures RB(t, h - Blacks(path)) && PathRB(path, h - Blacks(path), IsRed(t))
    decreases path
  {
    match path
    case Top =>
    case Step(left, id, red, sib, up) => UnplugRB(Join(left, t, id, red, sib), up, h);
  }

  lemma {:induction false} RBJoin(left: bool, near: Tree, id: RbNode, red: bool, far: Tree, h: int)
    ensures RB(Join(left, near, id, red, far), h + Black(red)) <==>
            RB(near, h) && RB(far, h) && (red ==> !IsRed(near) && !IsRed(far))
  {
  }

  lemma {:induction false} RBKids(t: Tree, h: int)
    requires t.Node?
    ensures RB(t, h + Black(t.red)) ==>
              && RB(Kid(t, true), h) && RB(Kid(t, false), h)
              && (t.red ==> !IsRed(Kid(t, true)) && !IsRed(Kid(t, false)))
  {
  }

  lemma {:induction false} PathRBWeaken(path: Path, h: int, holeRed: bool)
    requires PathRB(path, h, holeRed)
    ensures PathRB(path, h, false)
  {
  }

  // ----- Insertion -----

  /** A red subtree sits where a black one would be in order. */
  ghost predicate InsertInv(t: Tree, path: Path, h: int) {
    IsRed(t) && RB(t, h) && PathRB(path, h, false)
  }

  /** A red parent is not the root. */
  lemma {:induction false} RedParent(t: Tree, path: Path, h: int)
    requires InsertInv(t, path, h) && path.Step? && path.red
    ensures RB(path.sib, h) && !IsRed(path.sib)
    ensures path.up.Step? && !path.up.red
    ensures RB(path.up.sib, h) && PathRB(path.up.up, h + 1, false)
  {
    assert PathRB(path.up, h, true);
  }

  lemma {:induction false} InsertRedUncle(t: Tree, path: Path, h: int) returns (t': Tree)
    requires InsertInv(t, path, h) && path.Step? && path.red && path.up.Step?
    ensures t' == Join(path.up.left, Join(path.left, t, path.id, false, path.sib),
                       path.up.id, true, Blacken(path.up.sib))
    ensures IsRed(path.up.sib) ==> InsertInv(t', path.up.up, h + 1)
  {
    RedParent(t, path, h);
    var inner := Join(path.left, t, path.id, false, path.sib);
    var uncle := path.up.sib;
    RBJoin(path.left, t, path.id, false, path.sib, h);
    if uncle.Node? {
      RBKids(uncle, h);
      RBJoin(true, uncle.l, uncle.id, false, uncle.r, h);
    }
    RBJoin(path.up.left, inner, path.up.id, true, Blacken(uncle), h + 1);
    t' := Join(path.up.left, inner, path.up.id, true, Blacken(uncle));
  }

  lemma {:induction false} InsertInnerKid(x: Tree, path: Path, h: int) returns (t': Tree, path': Path)
    requires InsertInv(x, path, h) && path.Step? && path.red
    requires path.up.Step? && path.left != path.up.left
    ensures var side := path.up.left;
            && t' == Join(side, path.sib, path.id, true, Kid(x, side))
            && path' == Step(side, x.id, true, Kid(x, !side), path.up)
    ensures InsertInv(t', path', h)
  {
    var side := path.up.left;
    RBKids(x, h);
    RBJoin(side, path.sib, path.id, true, Kid(x, side), h);
    t' := Join(side, path.sib, path.id, true, Kid(x, side));
    path' := Step(side, x.id, true, Kid(x, !side), path.up);
  }

  lemma {:induction false} InsertOuterKid(t: Tree, path: Path, h: int) returns (path': Path)
    requires InsertInv(t, path, h) && path.Step? && path.red
    requires path.up.Step? && path.left == path.up.left && !IsRed(path.up.sib)
    ensures var side := path.left;
            path' == Step(side, path.id, false,
                          Join(side, path.sib, path.up.id, true, path.up.sib), path.up.up)
    ensures InsertInv(t, path', h)
  {
    var side := path.left;
    RedParent(t, path, h);
    RBJoin(side, path.sib, path.up.id, true, path.up.sib, h);
    path' := Step(side, path.id, false,
                  Join(side, path.sib, path.up.id, true, path.up.sib), path.up.up);
  }

  lemma {:induction false} InsertDone(t: Tree, path: Path, h: int)
    requires InsertInv(t, path, h) && (path.Step? ==> !path.red)
    ensures Plug(t, path).Node? && IsRedBlack(Blacken(Plug(t, path)))
  {
    match path
    case Top => PlugRB(Blacken(t), Top, h + 1);
    case Step(_, _, _, _, _) => PlugRB(t, path, h); RootOnPath(t, path);
  }

  // ----- Erasure -----

  /** The hole asks for one more black level than `t` has, unless its red root turns black. */
  ghost predicate EraseInv(t: Tree, path: Path, h: int) {
    RB(Blacken(t), h + (if IsRed(t) then 1 else 0)) && PathRB(path, h + 1, false)
  }

  lemma {:induction false} EraseInvHasSibling(t: Tree, path: Path, h: int)
    requires EraseInv(t, path, h) && path.Step? && !IsRed(t)
    ensures h >= 0 && path.sib.Node?
    ensures path.sib.red ==> Kid(path.sib, true).Node? && Kid(path.sib, false).Node?
  {
    RBHeight(Blacken(t), h);
    var o := path.sib;
    if o.Node? && o.red {
      RBKids(o, h + 1);
      RBHeight(o.l, h + 1);
      RBHeight(o.r, h + 1);
    }
  }

  lemma {:induction false} EraseRedSibling(t: Tree, path: Path, h: int) returns (path': Path)
    requires EraseInv(t, path, h) && path.Step? && !IsRed(t) && IsRed(path.sib)
    ensures var o, side := path.sib, path.left;
            path' == Step(side, path.id, true, Kid(o, side), Step(side, o.id, false, Kid(o, !side), path.up))
    ensures EraseInv(t, path', h) && !IsRed(path'.sib)
  {
    var o, side := path.sib, path.left;
    RBKids(o, h + 1);
    path' := Step(side, path.id, true, Kid(o, side), Step(side, o.id, false, Kid(o, !side), path.up));
  }

  lemma {:induction false} EraseBlackNephews(t: Tree, path: Path, h: int) returns (t': Tree, h': int)
    requires EraseInv(t, path, h) && path.Step? && !IsRed(t)
    requires path.sib.Node? && !path.sib.red && !IsRed(path.sib.l) && !IsRed(path.sib.r)
    ensures t' == Join(path.left, t, path.id, path.red, path.sib.(red := true))
    ensures EraseInv(t', path.up, h')
  {
    var o := path.sib.(red := true);
    RBKids(path.sib, h);
    RBJoin(true, o.l, o.id, true, o.r, h);
    RBJoin(path.left, t, path.id, false, o, h);
    RBJoin(path.left, t, path.id, path.red, o, h);
    t' := Join(path.left, t, path.id, path.red, o);
    h' := h + Black(path.red);
    assert PathRB(path.up, h' + 1, path.red);
    PathRBWeaken(path.up, h' + 1, path.red);
    assert Blacken(t') == Join(path.left, t, path.id, false, o);
  }

  lemma {:induction false} EraseNearNephew(t: Tree, path: Path, h: int) returns (path': Path)
    requires EraseInv(t, path, h) && path.Step? && !IsRed(t)
    requires path.sib.Node? && !path.sib.red
    requires IsRed(Kid(path.sib, path.left)) && !IsRed(Kid(path.sib, !path.left))
    ensures var o, side := path.sib, path.left;
            var n := Kid(o, side);
            path' == path.(sib := Join(side, Kid(n, side), n.id, false,
                                       Join(side, Kid(n, !side), o.id, true, Kid(o, !side))))
    ensures EraseInv(t, path', h) && IsRed(Kid(path'.sib, !path.left))
  {
    var o, side := path.sib, path.left;
    var n := Kid(o, side);
    var far := Join(side, Kid(n, !side), o.id, true, Kid(o, !side));
    RBKids(o, h);
    RBKids(n, h);
    RBJoin(side, Kid(n, !side), o.id, true, Kid(o, !side), h);
    RBJoin(side, Kid(n, side), n.id, false, far, h);
    path' := path.(sib := Join(side, Kid(n, side), n.id, false, far));
  }

  lemma {:induction false} EraseFarNephew(t: Tree, path: Path, h: int) returns (t': Tree)
    requires EraseInv(t, path, h) && path.Step? && !IsRed(t)
    requires path.sib.Node? && !path.sib.red && IsRed(Kid(path.sib, !path.left))
    ensures var o, side := path.sib, path.left;
            t' == Join(side, Join(side, t, path.id, false, Kid(o, side)),
                       o.id, path.red, Blacken(Kid(o, !side)))
    ensures IsRedBlack(Plug(t', path.up))
  {
    var o, side := path.sib, path.left;
    var near := Join(side, t, path.id, false, Kid(o, side));
    var far := Kid(o, !side);
    RBKids(o, h);
    RBKids(far, h);
    RBJoin(true, far.l, far.id, false, far.r, h);
    RBJoin(side, t, path.id, false, Kid(o, side), h);
    RBJoin(side, near, o.id, path.red, Blacken(far), h + 1);
    t' := Join(side, near, o.id, path.red, Blacken(far));
    PlugRB(t', path.up, h + 1 + Black(path.red));
  }

  lemma {:induction false} EraseDone(t: Tree, path: Path, h: int)
    requires EraseInv(t, path, h) && (path.Top? || IsRed(t))
    ensures IsRedBlack(Plug(Blacken(t), path))
  {
    var k := h + (if IsRed(t) then 1 else 0);
    PlugRB(Blacken(t), path, k);
  }

  // ----- What the discipline buys -----

  function Size(t: Tree): nat {
    match t
    case Leaf => 0
    case Node(l, _, _, r) => Size(l) + 1 + Size(r)
  }

  function Height(t: Tree): nat {
    match t
    case Leaf => 0
    case Node(l, _, _, r) => 1 + (if Height(l) < Height(r) then Height(r) else Height(l))
  }

  function Pow2(n: nat): nat { if n == 0 then 1 else 2 * Pow2(n - 1) }

  lemma {:induction false} HeightByBlacks(t: Tree, h: int)
    requires RB(t, h)
    ensures Height(t) <= 2 * h + (if IsRed(t) then 1 else 0)
    ensures 0 <= h && Pow2(h) <= Size(t) + 1
  {
    match t
    case Leaf =>
    case Node(l, _, red, r) =>
      HeightByBlacks(l, h - Black(red));
      HeightByBlacks(r, h - Black(red));
  }

  lemma {:induction false} Pow2Monotone(a: nat, b: nat)
    requires a <= b
    ensures Pow2(a) <= Pow2(b)
    decreases b
  {
    if a < b { Pow2Monotone(a, b - 1); }
  }

  lemma {:induction false} Pow2Double(h: nat)
    ensures Pow2(2 * h) == Pow2(h) * Pow2(h)
  {
    if h > 0 { Pow2Double(h - 1); }
  }

  lemma {:induction false} SquareMonotone(a: nat, b: nat)
    requires a <= b
    ensures a * a <= b * b
  {
    assert a * a <= a * b;
  }

  /** 2^height <= (n+1)^2, that is, height <= 2*log2(n+1). */
  lemma {:induction false} HeightBound(t: Tree)
    requires IsRedBlack(t)
    ensures Pow2(Height(t)) <= (Size(t) + 1) * (Size(t) + 1)
  {
    var h := BlackHeight(t);
    HeightByBlacks(t, h);
    Pow2Monotone(Height(t), 2 * h);
    Pow2Double(h);
    SquareMonotone(Pow2(h), Size(t) + 1);
  }
}
