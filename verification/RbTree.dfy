/**
 kernel/libk/rbtree.c on real nodes: rotations, the two rebalancing loops,
 erasure with its successor splice, and iteration without a stack.

 `tree` is the shape the pointers spell out.  Every method is proved against it:
 insertion puts one node into the in-order sequence, erasure takes one out, and
 both leave a red-black tree with consistent parent links.
 */
module RbTree {
  import opened RbTreeShape
  import opened RbTreeColour

  ghost function Snap(S: set<RbNode>): (m: Mem)
    reads S
  {
    map n | n in S :: Cell(n.left, n.right, n.parent, n.red)
  }

  function KidOf(n: RbNode, left: bool): RbNode?
    reads n
  {
    if left then n.left else n.right
  }

  // ----- What single statements of the source do to a stored tree -----

  function Rotated(t: Tree, left: bool): Tree
    requires t.Node? && Kid(t, !left).Node?
  {
    var p := Kid(t, !left);
    Join(left, Join(left, Kid(t, left), t.id, t.red, Kid(p, left)), p.id, p.red, Kid(p, !left))
  }

  lemma {:induction false} RotatedInOrder(t: Tree, left: bool, path: Path)
    requires t.Node? && Kid(t, !left).Node?
    ensures InOrder(Plug(Rotated(t, left), path)) == InOrder(Plug(t, path))
  {
    var p := Kid(t, !left);
    var a, b, c := Kid(t, left), Kid(p, left), Kid(p, !left);
    if left {
      assert InOrder(a) + [t.id] + (InOrder(b) + [p.id] + InOrder(c))
          == (InOrder(a) + [t.id] + InOrder(b)) + [p.id] + InOrder(c);
    } else {
      assert (InOrder(c) + [p.id] + InOrder(b)) + [t.id] + InOrder(a)
          == InOrder(c) + [p.id] + (InOrder(b) + [t.id] + InOrder(a));
    }
    assert InOrder(Rotated(t, left)) == InOrder(t);
    PlugInOrder(t, path);
    PlugInOrder(Rotated(t, left), path);
  }

  lemma {:induction false} RecolouredInOrder(t: Tree, red: bool, path: Path)
    requires t.Node?
    ensures InOrder(Plug(t.(red := red), path)) == InOrder(Plug(t, path))
  {
    PlugInOrder(t, path);
    PlugInOrder(t.(red := red), path);
  }

  lemma {:induction false} RepJoin(m: Mem, left: bool, near: Tree, id: RbNode, red: bool, far: Tree, par: RbNode?)
    ensures Ids(Join(left, near, id, red, far)) == Ids(near) + {id} + Ids(far)
    ensures Rep(m, Join(left, near, id, red, far), par) <==>
              && id in m && m[id].Kid(left) == Ptr(near) && m[id].Kid(!left) == Ptr(far)
              && m[id].parent == par && m[id].red == red
              && id !in Ids(near) && id !in Ids(far) && Ids(near) !! Ids(far)
              && Rep(m, near, id) && Rep(m, far, id)
  {
  }

  /** The three subtrees under a rotation: only the middle one changes its parent. */
  lemma {:induction false} RotatedLocally(m: Mem, m': Mem, left: bool, a: Tree, x: RbNode, xRed: bool,
                       b: Tree, y: RbNode, yRed: bool, c: Tree, par: RbNode?)
    requires Rep(m, Join(left, a, x, xRed, Join(left, b, y, yRed, c)), par)
    requires Ids(a) + {x} + Ids(b) + {y} + Ids(c) <= m.Keys == m'.Keys
    requires m'[x] == m[x].SetKid(!left, Ptr(b)).(parent := y)
    requires m'[y] == m[y].SetKid(left, x).(parent := par)
    requires b.Node? ==> b.id in m && m'[b.id] == m[b.id].(parent := x)
    requires forall n | n in Ids(a) + Ids(b) + Ids(c) && n != Ptr(b) :: m'[n] == m[n]
    ensures Rep(m', Join(left, Join(left, a, x, xRed, b), y, yRed, c), par)
    ensures Ids(Join(left, Join(left, a, x, xRed, b), y, yRed, c)) == Ids(a) + {x} + Ids(b) + {y} + Ids(c)
    ensures Ids(Join(left, a, x, xRed, Join(left, b, y, yRed, c))) == Ids(a) + {x} + Ids(b) + {y} + Ids(c)
  {
    RepJoin(m, left, a, x, xRed, Join(left, b, y, yRed, c), par);
    RepJoin(m, left, b, y, yRed, c, x);
    assert b.Node? ==> b.id in Ids(b);
    RepFrame(m, m', a, x);
    Reparent(m, m', b, y, x);
    RepFrame(m, m', c, y);
    RepJoin(m', left, a, x, xRed, b, y);
    RepJoin(m', left, Join(left, a, x, xRed, b), y, yRed, c, par);
  }

  lemma {:induction false} RotatedBelow(m: Mem, m': Mem, t: Tree, left: bool, par: RbNode?)
    requires t.Node? && Kid(t, !left).Node? && Rep(m, t, par) && par !in Ids(t)
    requires Ids(t) <= m.Keys == m'.Keys
    requires Kid(t, !left).id in m && (Kid(Kid(t, !left), left).Node? ==> Kid(Kid(t, !left), left).id in m)
    requires var p := Kid(t, !left);
             var b := Kid(p, left);
             && m'[t.id] == m[t.id].SetKid(!left, Ptr(b)).(parent := p.id)
             && m'[p.id] == m[p.id].SetKid(left, t.id).(parent := par)
             && (b.Node? ==> m'[b.id] == m[b.id].(parent := t.id))
             && forall n | n in Ids(t) && n != t.id && n != p.id && n != Ptr(b) :: m'[n] == m[n]
    ensures Rep(m', Rotated(t, left), par) && Ids(Rotated(t, left)) == Ids(t)
  {
    var p := Kid(t, !left);
    var a, b, c := Kid(t, left), Kid(p, left), Kid(p, !left);
    RepJoin(m, left, a, t.id, t.red, p, par);
    RepJoin(m, left, b, p.id, p.red, c, t.id);
    hide Rep, Ids;
    RotatedLocally(m, m', left, a, t.id, t.red, b, p.id, p.red, c, par);
  }

  lemma {:induction false} RotatedRep(m: Mem, m': Mem, t: Tree, left: bool, path: Path)
    requires t.Node? && Kid(t, !left).Node?
    requires Rep(m, Plug(t, path), null)
    requires Ids(t) + PathIds(path) <= m.Keys == m'.Keys
    requires Kid(t, !left).id in m && (Kid(Kid(t, !left), left).Node? ==> Kid(Kid(t, !left), left).id in m)
    requires var p := Kid(t, !left);
             var b := Kid(p, left);
             && m'[t.id] == m[t.id].SetKid(!left, Ptr(b)).(parent := p.id)
             && m'[p.id] == m[p.id].SetKid(left, t.id).(parent := Par(path, null))
             && (b.Node? ==> m'[b.id] == m[b.id].(parent := t.id))
             && (path.Step? ==> m'[path.id] == m[path.id].SetKid(path.left, p.id))
             && forall n | n in Ids(t) + PathIds(path) && n != t.id && n != p.id && n != Ptr(b)
                           && n != Par(path, null) :: m'[n] == m[n]
    ensures Rep(m', Plug(Rotated(t, left), path), null)
  {
    Zoom(m, t, path, null);
    assert path.Step? ==> path.id in PathIds(path);
    RootsInside(t, left);
    hide Rep, Plug, Ids, PathIds;
    RotatedBelow(m, m', t, left, Par(path, null));
    Rehang(m, m', t, Rotated(t, left), path, null);
  }

  lemma {:induction false} RootsInside(t: Tree, left: bool)
    requires t.Node? && Kid(t, !left).Node?
    ensures t.id in Ids(t) && Kid(t, !left).id in Ids(t)
    ensures Kid(Kid(t, !left), left).Node? ==> Kid(Kid(t, !left), left).id in Ids(t)
  {
    var p := Kid(t, !left);
    assert p.id in Ids(p);
    if Kid(p, left).Node? { assert Kid(p, left).id in Ids(Kid(p, left)); }
  }

  lemma {:induction false} RecolouredRep(m: Mem, m': Mem, t: Tree, red: bool, path: Path)
    requires t.Node? && Rep(m, Plug(t, path), null) && m'.Keys == m.Keys
    requires forall n | n in Ids(t) + PathIds(path) :: n in m
    requires m'[t.id] == m[t.id].(red := red)
    requires forall n | n in Ids(t) + PathIds(path) && n != t.id :: m'[n] == m[n]
    ensures Rep(m', Plug(t.(red := red), path), null)
  {
    Zoom(m, t, path, null);
    RepFrame(m, m', t.l, t.id);
    RepFrame(m, m', t.r, t.id);
    assert Rep(m', t.(red := red), Par(path, null));
    Rehang(m, m', t, t.(red := red), path, null);
  }

  /** The same tree seen from the sibling of the hole. */
  lemma {:induction false} Flip(t: Tree, path: Path)
    requires path.Step?
    ensures Plug(t, path) == Plug(Join(path.left, t, path.id, path.red, path.sib), path.up)
    ensures Plug(t, path) == Plug(path.sib, Step(!path.left, path.id, path.red, t, path.up))
  {
  }

  /** The links and colours around a subtree. */
  lemma {:induction false} Around(m: Mem, t: Tree, path: Path)
    requires Rep(m, Plug(t, path), null)
    ensures t.Node? ==>
              t.id in m && m[t.id] == Cell(Ptr(t.l), Ptr(t.r), Par(path, null), t.red)
    ensures path.Step? ==>
              && path.id in m && m[path.id].red == path.red
              && m[path.id].parent == Par(path.up, null)
              && m[path.id].Kid(path.left) == Ptr(t)
              && m[path.id].Kid(!path.left) == Ptr(path.sib)
              && (t.Node? ==> t.id != Ptr(path.sib))
              && (path.sib.Node? ==> path.sib.id in m && m[path.sib.id].red == path.sib.red)
              && (path.sib.Node? ==>
                    m[path.sib.id] == Cell(Ptr(path.sib.l), Ptr(path.sib.r), path.id, path.sib.red))
  {
    Zoom(m, t, path, null);
    if path.Step? { Flip(t, path); PlugIds(t, path); }
  }

  /** The two subtrees of a node in the middle of a tree. */
  lemma {:induction false} Nephews(m: Mem, o: Tree, path: Path)
    requires Rep(m, Plug(o, path), null) && o.Node?
    ensures o.id in m && m[o.id].left == Ptr(o.l) && m[o.id].right == Ptr(o.r)
    ensures o.l.Node? ==> o.l.id in m && m[o.l.id].red == o.l.red
    ensures o.r.Node? ==> o.r.id in m && m[o.r.id].red == o.r.red
  {
    Zoom(m, o, path, null);
  }

  // ----- Taking a node out -----

  /** `s'` is `s` without the occurrence of `x` at `i`. */
  ghost predicate RemovedAt(s: seq<RbNode>, i: int, x: RbNode, s': seq<RbNode>) {
    0 <= i < |s| && s[i] == x && s' == s[..i] + s[i+1..]
  }

  ghost predicate Removed(s: seq<RbNode>, x: RbNode, s': seq<RbNode>) {
    exists i :: RemovedAt(s, i, x, s')
  }

  lemma RemovedInside<T>(b: seq<T>, s: seq<T>, a: seq<T>, k: nat)
    requires k < |s|
    ensures (b + s + a)[|b| + k] == s[k]
    ensures b + (s[..k] + s[k+1..]) + a == (b + s + a)[..|b| + k] + (b + s + a)[|b| + k + 1..]
  {
    assert (b + s + a)[..|b| + k] == b + s[..k];
    assert (b + s + a)[|b| + k + 1..] == s[k+1..] + a;
  }

  lemma {:induction false} PlugKeepsOrder(t: Tree, t': Tree, path: Path, n: RbNode, k: nat)
    requires RemovedAt(InOrder(t), k, n, InOrder(t'))
    ensures Removed(InOrder(Plug(t, path)), n, InOrder(Plug(t', path)))
  {
    hide InOrder, Plug, Before, After;
    PlugInOrder(t, path);
    PlugInOrder(t', path);
    RemovedInside(Before(path), InOrder(t), After(path), k);
    assert RemovedAt(InOrder(Plug(t, path)), |Before(path)| + k, n, InOrder(Plug(t', path)));
  }

  /** A node with at most one subtree gives its place to that subtree. */
  lemma {:induction false} UnlinkedRep(m: Mem, m': Mem, t: Tree, kid: Tree, path: Path)
    requires t.Node? && ((t.l == Leaf && kid == t.r) || (t.r == Leaf && kid == t.l))
    requires Rep(m, Plug(t, path), null)
    requires Ids(t) + PathIds(path) <= m.Keys == m'.Keys
    requires kid.Node? ==> kid.id in m && m'[kid.id] == m[kid.id].(parent := Par(path, null))
    requires path.Step? ==> m'[path.id] == m[path.id].SetKid(path.left, Ptr(kid))
    requires forall n | n in Ids(t) + PathIds(path) && n != t.id && n != Ptr(kid) && n != Par(path, null) ::
               m'[n] == m[n]
    ensures Rep(m', Plug(kid, path), null)
  {
    Zoom(m, t, path, null);
    Reparent(m, m', kid, t.id, Par(path, null));
    Rehang(m, m', t, kid, path, null);
  }

  /** Every step of the path goes to the given side. */
  predicate Spine(path: Path, left: bool) {
    path.Step? ==> path.left == left && Spine(path.up, left)
  }

  lemma {:induction false} SpineOrder(path: Path, left: bool)
    requires Spine(path, left)
    ensures left ==> Before(path) == []
    ensures !left ==> After(path) == []
  {
    if path.Step? { SpineOrder(path.up, left); }
  }

  /** What rb_erase leaves in each node when `s` takes the place of `n`. */
  ghost function SplicedCell(m: Mem, n: RbNode, s: RbNode, k: RbNode): Cell
    requires n in m && s in m && k in m
  {
    if k == n then m[n]
    else if k == s then
      Cell(m[n].left, if m[s].parent == n then m[s].right else m[n].right, m[n].parent, m[n].red)
    else
      var c := if k == m[n].parent then m[k].SetKid(m[k].left == n, s) else m[k];
      var c := if m[s].parent != n && k == m[s].parent then c.(left := m[s].right) else c;
      var c := if m[s].parent != n && k == m[s].right then c.(parent := m[s].parent) else c;
      if k == m[n].left || k == m[n].right then c.(parent := s) else c
  }

  ghost predicate Spliced(m: Mem, m': Mem, n: RbNode, s: RbNode)
    requires n in m && s in m
  {
    m'.Keys == m.Keys && forall k | k in m :: m'[k] == SplicedCell(m, n, s, k)
  }

  /** The nodes touched by the splice are where they should be, and distinct. */
  ghost predicate SpliceShape(m: Mem, n: RbNode, s: RbNode)
    requires n in m && s in m
  {
    var p, l, r, q, c := m[n].parent, m[n].left, m[n].right, m[s].parent, m[s].right;
    && l != null && r != null && q != null
    && l in m && r in m && q in m && (p != null ==> p in m) && (c != null ==> c in m)
    && s != n && q != s && r != n && (q == n <==> r == s)
    && p !in {n, s, l, r, q} && (p == null || p != c)
    && l !in {n, s, r, q, c}
    && c !in {n, s, q, r}
  }

  lemma {:induction false} SplicedElsewhere(m: Mem, n: RbNode, s: RbNode, k: RbNode)
    requires n in m && s in m && k in m && k != n && k != s
    requires k != m[n].parent && k != m[n].left && k != m[n].right
    requires m[s].parent != n ==> k != m[s].parent && k != m[s].right
    ensures SplicedCell(m, n, s, k) == m[k]
  {
  }

  lemma {:induction false} SplicedCellBelow(m: Mem, n: RbNode, s: RbNode, k: RbNode)
    requires n in m && s in m && k in m && k != n && k != s
    requires k != m[n].parent && k != m[n].left && m[s].parent != n && m[s].parent != m[s].right
    ensures var c := if k == m[s].parent then m[k].(left := m[s].right)
                     else if k == m[s].right then m[k].(parent := m[s].parent) else m[k];
            SplicedCell(m, n, s, k) == if k == m[n].right then c.(parent := s) else c
  {
  }

  lemma {:induction false} SplicedMemNear(m: Mem, m1: Mem, m3: Mem, n: RbNode, s: RbNode, k: RbNode)
    requires n in m && s in m && k in m && SpliceShape(m, n, s) && m[s].parent == n
    requires var p := m[n].parent;
             m1 == if p == null then m else m[p := m[p].SetKid(m[p].left == n, s)]
    requires var l := m[n].left;
             m3 == m1[s := Cell(l, m[s].right, m[n].parent, m[n].red)][l := m1[l].(parent := s)]
    ensures k in m3 && m3[k] == SplicedCell(m, n, s, k)
  {
  }

  lemma {:induction false} SplicedMemFar(m: Mem, m1: Mem, m2: Mem, m3: Mem, n: RbNode, s: RbNode, k: RbNode)
    requires n in m && s in m && k in m && SpliceShape(m, n, s) && m[s].parent != n
    requires var p := m[n].parent;
             m1 == if p == null then m else m[p := m[p].SetKid(m[p].left == n, s)]
    requires var c, p := m[s].right, m[s].parent;
             m2 == (if c == null then m1 else m1[c := m1[c].(parent := p)])[p := m1[p].(left := c)]
    requires var l, r := m[n].left, m[n].right;
             m3 == m2[s := Cell(l, r, m[n].parent, m[n].red)][l := m2[l].(parent := s)][r := m2[r].(parent := s)]
    ensures k in m3 && m3[k] == SplicedCell(m, n, s, k)
  {
  }

  lemma {:induction false} SplicedMem(m: Mem, m1: Mem, m2: Mem, m3: Mem, n: RbNode, s: RbNode)
    requires n in m && s in m && SpliceShape(m, n, s)
    requires var p := m[n].parent;
             m1 == if p == null then m else m[p := m[p].SetKid(m[p].left == n, s)]
    requires var c, p := m[s].right, m[s].parent;
             m2 == if p == n then m1
                   else (if c == null then m1 else m1[c := m1[c].(parent := p)])[p := m1[p].(left := c)]
    requires var l, r, deep := m[n].left, m[n].right, m[s].parent != n;
             var m2' := m2[s := Cell(l, if deep then r else m[s].right, m[n].parent, m[n].red)][l := m2[l].(parent := s)];
             m3 == if deep then m2'[r := m2[r].(parent := s)] else m2'
    ensures Spliced(m, m3, n, s)
  {
    forall k | k in m ensures k in m3 && m3[k] == SplicedCell(m, n, s, k) {
      if m[s].parent == n { SplicedMemNear(m, m1, m3, n, s, k); } else { SplicedMemFar(m, m1, m2, m3, n, s, k); }
    }
  }

  /** Where the nodes touched by the splice lie. */
  lemma {:induction false} SpliceSites(m: Mem, n: RbNode, r: Tree, st: Tree, inner: Path)
    requires Rep(m, r, n) && n !in Ids(r) && Ids(r) <= m.Keys
    requires r == Plug(st, inner) && st.Node? && st.l == Leaf
    ensures st.id in Ids(r) && st.id in m && Ids(r) == Ids(st.r) + {st.id} + PathIds(inner)
    ensures st.id !in Ids(st.r) && st.id !in PathIds(inner) && Ids(st.r) !! PathIds(inner)
    ensures m[st.id] == Cell(null, Ptr(st.r), Par(inner, n), st.red) && Rep(m, st.r, st.id)
    ensures inner.Step? ==> inner.id in PathIds(inner)
    ensures st.r.Node? ==> st.r.id in Ids(st.r)
  {
    Zoom(m, st, inner, n);
    PlugIds(st, inner);
  }

  /** First half of the splice: the leftmost node leaves the subtree. */
  lemma {:induction false} Detached(m: Mem, m1: Mem, n: RbNode, r: Tree, st: Tree, inner: Path)
    requires Rep(m, r, n) && n !in Ids(r) && Ids(r) <= m.Keys == m1.Keys
    requires r == Plug(st, inner) && Spine(inner, true) && inner.Step? && st.Node? && st.l == Leaf
    requires st.r.Node? ==> st.r.id in m && m1[st.r.id] == m[st.r.id].(parent := inner.id)
    requires inner.id in m && m1[inner.id] == m[inner.id].(left := Ptr(st.r))
    requires forall k | k in Ids(r) && k != Ptr(st.r) && k != inner.id :: m1[k] == m[k]
    ensures Rep(m1, Plug(st.r, inner), n)
    ensures Ptr(Plug(st.r, inner)) == Ptr(r)
    ensures Ids(Plug(st.r, inner)) == Ids(st.r) + PathIds(inner)
  {
    SpliceSites(m, n, r, st, inner);
    Reparent(m, m1, st.r, st.id, inner.id);
    Rehang(m, m1, st, st.r, inner, n);
    PlugKeepsPtr(st, st.r, inner);
    PlugIds(st.r, inner);
  }

  /** The right subtree of `n` loses its leftmost node `st.id` and hangs from it. */
  lemma {:induction false} SplicedBelow(m: Mem, m': Mem, n: RbNode, r: Tree, st: Tree, inner: Path)
    requires n in m && n !in Ids(r) && Rep(m, r, n) && Ids(r) <= m.Keys == m'.Keys
    requires r == Plug(st, inner) && Spine(inner, true) && st.Node? && st.l == Leaf && st.id in m
    requires m[n].right == Ptr(r) && m[n].left !in Ids(r) && m[n].parent !in Ids(r)
    requires forall k | k in Ids(r) :: m'[k] == SplicedCell(m, n, st.id, k)
    ensures Rep(m', Plug(st.r, inner), st.id)
    ensures Ids(Plug(st.r, inner)) == Ids(st.r) + PathIds(inner)
    ensures st.id in Ids(r) && Ptr(Plug(st.r, inner)) == m'[st.id].right
  {
    SpliceSites(m, n, r, st, inner);
    var s := st.id;
    if inner.Top? {
      forall k | k in Ids(st.r) ensures m'[k] == m[k] { SplicedElsewhere(m, n, s, k); }
      RepFrame(m, m', st.r, s);
    } else {
      SplicedDeep(m, m', n, r, st, inner);
    }
  }

  lemma {:induction false} SplicedDeep(m: Mem, m': Mem, n: RbNode, r: Tree, st: Tree, inner: Path)
    requires n in m && n !in Ids(r) && Rep(m, r, n) && Ids(r) <= m.Keys == m'.Keys
    requires r == Plug(st, inner) && Spine(inner, true) && inner.Step? && st.Node? && st.l == Leaf && st.id in m
    requires m[n].right == Ptr(r) && m[n].left !in Ids(r) && m[n].parent !in Ids(r)
    requires forall k | k in Ids(r) :: m'[k] == SplicedCell(m, n, st.id, k)
    ensures Rep(m', Plug(st.r, inner), st.id)
    ensures Ids(Plug(st.r, inner)) == Ids(st.r) + PathIds(inner) && Ptr(Plug(st.r, inner)) == Ptr(r)
  {
    hide Plug, Spine;
    SpliceSites(m, n, r, st, inner);
    var s := st.id;
    var m0 := if st.r.Node? then m[st.r.id := m[st.r.id].(parent := inner.id)] else m;
    var m1 := m0[inner.id := m0[inner.id].(left := Ptr(st.r))];
    Detached(m, m1, n, r, st, inner);
    var rest := Plug(st.r, inner);
    RootOnPath(st.r, inner);
    SplicedTop(m, m1, m', n, s, rest, Ptr(st.r), inner.id);
  }

  /** Second half of the splice: what is left of the subtree hangs from its former leftmost node. */
  lemma {:induction false} SplicedTop(m: Mem, m1: Mem, m': Mem, n: RbNode, s: RbNode, rest: Tree, c: RbNode?, q: RbNode)
    requires n in m && s in m && Ids(rest) <= m.Keys == m1.Keys == m'.Keys && n !in Ids(rest) && s !in Ids(rest)
    requires m[s].right == c && m[s].parent == q && q != n && q != c && m[n].left !in Ids(rest) && m[n].parent !in Ids(rest)
    requires rest.Node? && Rep(m1, rest, n) && m[n].right == rest.id
    requires forall k | k in Ids(rest) ::
               && m'[k] == SplicedCell(m, n, s, k)
               && m1[k] == if k == q then m[k].(left := c) else if k == c then m[k].(parent := q) else m[k]
    ensures Rep(m', rest, s)
  {
    forall k | k in Ids(rest) ensures m'[k] == if k == rest.id then m1[k].(parent := s) else m1[k] {
      SplicedCellBelow(m, n, s, k);
    }
    Reparent(m1, m', rest, n, s);
  }

  lemma {:induction false} SplicedRep(m: Mem, m': Mem, t: Tree, st: Tree, inner: Path, path: Path)
    requires t.Node? && t.l.Node? && t.r == Plug(st, inner) && Spine(inner, true) && st.Node? && st.l == Leaf
    requires Rep(m, Plug(t, path), null)
    requires Ids(t) + PathIds(path) <= m.Keys == m'.Keys
    requires st.id in m
    requires forall k | k in Ids(t) + PathIds(path) :: m'[k] == SplicedCell(m, t.id, st.id, k)
    ensures Rep(m', Plug(Node(t.l, st.id, t.red, Plug(st.r, inner)), path), null)
  {
    hide Plug, Spine, Join;
    Zoom(m, t, path, null);
    var n, s := t.id, st.id;
    assert t.l.id in Ids(t.l);
    assert path.Step? ==> path.id in PathIds(path);
    SpliceSites(m, n, t.r, st, inner);
    assert t.r.Node? ==> t.r.id in Ids(t.r);
    SplicedBelow(m, m', n, t.r, st, inner);
    assert Within(m, n, s, Ids(t.r));
    SplicedLeft(m, m', n, s, t.l, Ids(t.r));
    SplicedAbove(m, m', n, s, PathIds(path), Ids(t.r));
    SplicedHang(m, m', t, Node(t.l, s, t.red, Plug(st.r, inner)), path);
  }

  /** All that the splice touches, but for `n`, its left child and its parent, is in `r`. */
  ghost predicate Within(m: Mem, n: RbNode, s: RbNode, r: set<RbNode>)
    requires n in m && s in m
  {
    && s in r && n !in r && m[n].left !in r && m[n].parent !in r
    && (m[n].right != null ==> m[n].right in r)
    && (m[s].right != null ==> m[s].right in r)
    && (m[s].parent == n || m[s].parent in r)
  }

  lemma {:induction false} SplicedLeft(m: Mem, m': Mem, n: RbNode, s: RbNode, l: Tree, r: set<RbNode>)
    requires n in m && s in m && Within(m, n, s, r)
    requires l.Node? && Rep(m, l, n) && Ids(l) !! r && n !in Ids(l) && m[n].left == l.id && m[n].parent !in Ids(l)
    requires Ids(l) <= m.Keys == m'.Keys && forall k | k in Ids(l) :: m'[k] == SplicedCell(m, n, s, k)
    ensures Rep(m', l, s)
  {
    assert l.id in Ids(l);
    hide Rep, Ids;
    forall k | k in Ids(l) && k != l.id ensures m'[k] == m[k] { SplicedElsewhere(m, n, s, k); }
    Reparent(m, m', l, n, s);
  }

  lemma {:induction false} SplicedAbove(m: Mem, m': Mem, n: RbNode, s: RbNode, ids: set<RbNode>, r: set<RbNode>)
    requires n in m && s in m && Within(m, n, s, r)
    requires ids !! r && n !in ids && m[n].left !in ids
    requires ids <= m.Keys == m'.Keys && forall k | k in ids :: m'[k] == SplicedCell(m, n, s, k)
    ensures forall k | k in ids && k != m[n].parent :: m'[k] == m[k]
    ensures forall k | k in ids && k == m[n].parent :: m'[k] == m[k].SetKid(m[k].left == n, s)
  {
    forall k | k in ids && k != m[n].parent ensures m'[k] == m[k] { SplicedElsewhere(m, n, s, k); }
  }

  lemma {:induction false} SplicedHang(m: Mem, m': Mem, t: Tree, t': Tree, path: Path)
    requires t.Node? && t'.Node? && Rep(m, Plug(t, path), null)
    requires Ids(t) + PathIds(path) <= m.Keys == m'.Keys
    requires t'.id in Ids(t) && t'.id != t.id && Ids(t') <= Ids(t)
    requires t'.id !in Ids(t'.l) && t'.id !in Ids(t'.r) && Ids(t'.l) !! Ids(t'.r)
    requires m'[t'.id] == Cell(Ptr(t'.l), Ptr(t'.r), Par(path, null), t'.red)
    requires Rep(m', t'.l, t'.id) && Rep(m', t'.r, t'.id)
    requires forall k | k in PathIds(path) && k != Par(path, null) :: m'[k] == m[k]
    requires path.Step? ==> path.id in m && m'[path.id] == m[path.id].SetKid(m[path.id].left == t.id, t'.id)
    ensures Rep(m', Plug(t', path), null)
  {
    Zoom(m, t, path, null);
    Rehang(m, m', t, t', path, null);
  }

  lemma {:induction false} UnlinkOrder(m: Mem, t: Tree, sub: Tree, path: Path)
    requires Rep(m, Plug(t, path), null) && t.Node?
    requires (t.l == Leaf && sub == t.r) || (t.r == Leaf && sub == t.l)
    ensures Removed(InOrder(Plug(t, path)), t.id, InOrder(Plug(sub, path)))
    ensures Ids(Plug(sub, path)) == Ids(Plug(t, path)) - {t.id}
  {
    UnlinkIds(m, t, sub, path);
    OnlyKid(t, sub);
    PlugKeepsOrder(t, sub, path, t.id, |InOrder(t.l)|);
  }

  lemma {:induction false} OnlyKid(t: Tree, sub: Tree)
    requires t.Node? && ((t.l == Leaf && sub == t.r) || (t.r == Leaf && sub == t.l))
    ensures RemovedAt(InOrder(t), |InOrder(t.l)|, t.id, InOrder(sub))
  {
  }

  lemma {:induction false} UnlinkIds(m: Mem, t: Tree, sub: Tree, path: Path)
    requires Rep(m, Plug(t, path), null) && t.Node?
    requires (t.l == Leaf && sub == t.r) || (t.r == Leaf && sub == t.l)
    ensures Ids(Plug(sub, path)) == Ids(Plug(t, path)) - {t.id}
  {
    hide Plug;
    Zoom(m, t, path, null);
    PlugIds(t, path);
    PlugIds(sub, path);
  }

  lemma {:induction false} SpliceOrder(m: Mem, t: Tree, st: Tree, inner: Path, path: Path)
    requires Rep(m, Plug(t, path), null) && t.Node?
    requires t.r == Plug(st, inner) && Spine(inner, true) && st.Node? && st.l == Leaf
    ensures var t' := Node(t.l, st.id, t.red, Plug(st.r, inner));
            && Removed(InOrder(Plug(t, path)), t.id, InOrder(Plug(t', path)))
            && Ids(Plug(t', path)) == Ids(Plug(t, path)) - {t.id}
  {
    var t' := Node(t.l, st.id, t.red, Plug(st.r, inner));
    SpliceIds(m, t, st, inner, path);
    SpliceInOrder(t, st, inner);
    PlugKeepsOrder(t, t', path, t.id, |InOrder(t.l)|);
  }

  lemma {:induction false} SpliceIds(m: Mem, t: Tree, st: Tree, inner: Path, path: Path)
    requires Rep(m, Plug(t, path), null) && t.Node?
    requires t.r == Plug(st, inner) && st.Node? && st.l == Leaf
    ensures Ids(Plug(Node(t.l, st.id, t.red, Plug(st.r, inner)), path)) == Ids(Plug(t, path)) - {t.id}
  {
    hide Plug;
    var t' := Node(t.l, st.id, t.red, Plug(st.r, inner));
    Zoom(m, t, path, null);
    Zoom(m, st, inner, t.id);
    PlugIds(t, path);
    PlugIds(t', path);
    PlugIds(st, inner);
    PlugIds(st.r, inner);
  }

  lemma {:induction false} SpliceInOrder(t: Tree, st: Tree, inner: Path)
    requires t.Node? && t.r == Plug(st, inner) && Spine(inner, true) && st.Node? && st.l == Leaf
    ensures RemovedAt(InOrder(t), |InOrder(t.l)|, t.id, InOrder(Node(t.l, st.id, t.red, Plug(st.r, inner))))
  {
    hide Plug, Spine;
    LeftmostFirst(st, inner);
    NextInstead(InOrder(t.l), t.id, st.id, InOrder(Plug(st.r, inner)));
  }

  lemma {:induction false} LeftmostFirst(st: Tree, inner: Path)
    requires Spine(inner, true) && st.Node? && st.l == Leaf
    ensures InOrder(Plug(st, inner)) == [st.id] + InOrder(Plug(st.r, inner))
  {
    SpineOrder(inner, true);
    PlugInOrder(st, inner);
    PlugInOrder(st.r, inner);
    hide Plug, Spine, Before, After;
    assert InOrder(st) == [st.id] + InOrder(st.r);
  }

  lemma {:induction false} NextInstead(a: seq<RbNode>, x: RbNode, y: RbNode, b: seq<RbNode>)
    ensures RemovedAt(a + [x] + ([y] + b), |a|, x, a + [y] + b)
  {
  }

  lemma {:induction false} BlackenRB(t: Tree, h: int)
    requires RB(t, h)
    ensures RB(Blacken(t), h + (if IsRed(t) then 1 else 0))
  {
  }

  /** Taking a node with one subtree out from under `path`. */
  lemma {:induction false} UnhookColours(t: Tree, sub: Tree, path: Path, h: int)
    requires t.Node? && ((t.l == Leaf && sub == t.r) || (t.r == Leaf && sub == t.l))
    requires RB(t, h) && PathRB(path, h, IsRed(t))
    ensures !t.red ==> EraseInv(sub, path, h - 1)
    ensures t.red ==> IsRedBlack(Plug(sub, path))
  {
    RBKids(t, h - Black(t.red));
    PathRBWeaken(path, h, IsRed(t));
    BlackenRB(sub, h - Black(t.red));
    if t.red { PlugRB(sub, path, h); }
  }

  lemma {:induction false} UnlinkColours(whole: Tree, t: Tree, sub: Tree, path: Path) returns (h: int)
    requires IsRedBlack(whole) && whole == Plug(t, path) && t.Node?
    requires (t.l == Leaf && sub == t.r) || (t.r == Leaf && sub == t.l)
    ensures !t.red ==> EraseInv(sub, path, h)
    ensures t.red ==> IsRedBlack(Plug(sub, path))
  {
    var k := BlackHeight(whole);
    UnplugRB(t, path, k);
    UnhookColours(t, sub, path, k - Blacks(path));
    h := k - Blacks(path) - 1;
  }

  lemma {:induction false} RenamedPathRB(inner: Path, n: RbNode, s: RbNode, red: bool, l: Tree, path: Path,
                                         h: int, holeRed: bool)
    requires PathRB(Append(inner, Step(false, n, red, l, path)), h, holeRed)
    ensures PathRB(Append(inner, Step(false, s, red, l, path)), h, holeRed)
    decreases inner
  {
    if inner.Step? {
      RenamedPathRB(inner.up, n, s, red, l, path, h + Black(inner.red), inner.red);
    }
  }

  lemma {:induction false} SpliceColours(whole: Tree, t: Tree, st: Tree, inner: Path, path: Path)
    returns (h: int, sub: Tree, hole: Path)
    requires IsRedBlack(whole) && whole == Plug(t, path) && t.Node?
    requires t.r == Plug(st, inner) && st.Node? && st.l == Leaf
    ensures sub == st.r && hole == Append(inner, Step(false, st.id, t.red, t.l, path))
    ensures Par(hole, null) == if inner.Top? then st.id else inner.id
    ensures Plug(sub, hole) == Plug(Node(t.l, st.id, t.red, Plug(st.r, inner)), path)
    ensures !st.red ==> EraseInv(sub, hole, h)
    ensures st.red ==> IsRedBlack(Plug(sub, hole))
  {
    var k := BlackHeight(whole);
    var before := Step(false, t.id, t.red, t.l, path);
    var after := Step(false, st.id, t.red, t.l, path);
    sub, hole := st.r, Append(inner, after);
    PlugAppend(st, inner, before);
    PlugAppend(sub, inner, after);
    var full := Append(inner, before);
    assert Plug(st, full) == whole;
    UnplugRB(st, full, k);
    var j := k - Blacks(full);
    RenamedPathRB(inner, t.id, st.id, t.red, t.l, path, j, IsRed(st));
    UnhookColours(st, sub, hole, j);
    h := j - 1;
  }

  // ----- Putting a node in, and walking -----

  /** `s'` is `s` with `n` right before, or right after, the occurrence of `x` at `i`. */
  ghost predicate InsertedAt(s: seq<RbNode>, i: int, x: RbNode, before: bool, n: RbNode, s': seq<RbNode>) {
    && 0 <= i < |s| && s[i] == x
    && var j := if before then i else i + 1;
       s' == s[..j] + [n] + s[j..]
  }

  ghost predicate InsertedBeside(s: seq<RbNode>, x: RbNode, before: bool, n: RbNode, s': seq<RbNode>) {
    exists i :: InsertedAt(s, i, x, before, n, s')
  }

  lemma {:induction false} BesideOrder(t: Tree, path: Path, n: RbNode)
    requires path.Step? && t == Plug(Leaf, path)
    ensures InsertedBeside(InOrder(t), path.id, path.left, n, InOrder(Plug(Node(Leaf, n, true, Leaf), path)))
  {
    PlugInOrder(Leaf, path);
    PlugInOrder(Node(Leaf, n, true, Leaf), path);
    var b, a := Before(path), After(path);
    var s := b + a;
    assert InOrder(t) == s;
    var i := if path.left then |b| else |b| - 1;
    assert s[i] == path.id;
    assert s[..|b|] == b && s[|b|..] == a;
    assert InsertedAt(s, i, path.id, path.left, n, InOrder(Plug(Node(Leaf, n, true, Leaf), path)));
  }

  lemma {:induction false} LinkedRep(m: Mem, m': Mem, n: RbNode, path: Path)
    requires Rep(m, Plug(Leaf, path), null) && PathIds(path) <= m.Keys && n !in PathIds(path)
    requires n in m' && m'[n] == Cell(null, null, Par(path, null), true)
    requires forall k | k in PathIds(path) :: k in m'
    requires forall k | k in PathIds(path) && k != Par(path, null) :: m'[k] == m[k]
    requires path.Step? ==> m'[path.id] == m[path.id].SetKid(path.left, n)
    ensures Rep(m', Plug(Node(Leaf, n, true, Leaf), path), null)
    ensures Ptr(Plug(Node(Leaf, n, true, Leaf), path)) == if path.Top? then n else Ptr(Plug(Leaf, path))
  {
    Rehang(m, m', Leaf, Node(Leaf, n, true, Leaf), path, null);
    if path.Step? { PlugKeepsPtr(Leaf, Node(Leaf, n, true, Leaf), path); }
  }

  /** A free slot, as the hole that a red leaf may fill. */
  lemma {:induction false} EmptySlot(m: Mem, t: Tree, parent: RbNode?, left: bool, n: RbNode) returns (path: Path)
    requires Rep(m, t, null) && IsRedBlack(t)
    requires parent == null ==> t == Leaf
    requires parent != null ==> parent in Ids(t) && parent in m && m[parent].Kid(left) == null
    ensures Plug(Leaf, path) == t && PathIds(path) == Ids(t)
    ensures Par(path, null) == parent && (path.Step? ==> path.left == left)
    ensures InsertInv(Node(Leaf, n, true, Leaf), path, 0)
    ensures parent != null ==>
              InsertedBeside(InOrder(t), parent, left, n, InOrder(Plug(Node(Leaf, n, true, Leaf), path)))
  {
    path := Top;
    if parent != null {
      var s, up := Locate(t, parent, Top);
      Around(m, s, up);
      path := Step(left, parent, s.red, Kid(s, !left), up);
      BesideOrder(t, path, n);
      assert path.id == parent && path.left == left;
    }
    PlugIds(Leaf, path);
    UnplugRB(Leaf, path, BlackHeight(t));
  }

  /** `r` follows, or precedes, `n` in `s`; null at the end. */
  ghost predicate IsNeighbour(s: seq<RbNode>, n: RbNode, forward: bool, r: RbNode?) {
    exists i :: NeighbourAt(s, i, n, forward, r)
  }

  ghost predicate NeighbourAt(s: seq<RbNode>, i: int, n: RbNode, forward: bool, r: RbNode?) {
    && 0 <= i < |s| && s[i] == n
    && var j := if forward then i + 1 else i - 1;
       r == if 0 <= j < |s| then s[j] else null
  }

  predicate Distinct<T(==)>(s: seq<T>) {
    forall i, j | 0 <= i < j < |s| :: s[i] != s[j]
  }

  /** rb_prev undoes rb_next, and the other way round. */
  lemma NeighbourUndone(s: seq<RbNode>, n: RbNode, forward: bool, r: RbNode?, back: RbNode?)
    requires Distinct(s) && IsNeighbour(s, n, forward, r) && r != null && IsNeighbour(s, r, !forward, back)
    ensures back == n
  {
  }

  lemma {:induction false} RepDistinct(m: Mem, t: Tree, par: RbNode?)
    requires Rep(m, t, par)
    ensures Distinct(InOrder(t))
  {
    match t
    case Leaf =>
    case Node(l, id, _, r) =>
      RepDistinct(m, l, id);
      RepDistinct(m, r, id);
      var s, k := InOrder(t), |InOrder(l)|;
      forall i, j | 0 <= i < j < |s| ensures s[i] != s[j] {
        assert i < k ==> s[i] == InOrder(l)[i];
        assert j < k ==> s[j] == InOrder(l)[j];
        assert i > k ==> s[i] == InOrder(r)[i - k - 1];
        assert j > k ==> s[j] == InOrder(r)[j - k - 1];
        InOrderMember(l, s[i]);
        InOrderMember(r, s[j]);
      }
  }

  lemma {:induction false} OwnParent(m: Mem, t: Tree, n: RbNode)
    requires Rep(m, t, null) && n in Ids(t)
    ensures n in m && m[n].parent != n
  {
    var s, q := Locate(t, n, Top);
    Zoom(m, s, q, null);
    Around(m, s, q);
    assert q.Step? ==> q.id in PathIds(q);
  }

  lemma {:induction false} OutermostOrder(t: Tree, st: Tree, inner: Path, left: bool)
    requires t == Plug(st, inner) && Spine(inner, left) && st.Node? && Kid(st, left) == Leaf
    ensures |InOrder(t)| > 0 && InOrder(t)[if left then 0 else |InOrder(t)| - 1] == st.id
  {
    SpineOrder(inner, left);
    PlugInOrder(st, inner);
  }

  function Beyond(path: Path, forward: bool): seq<RbNode> {
    if forward then After(path) else Before(path)
  }

  lemma {:induction false} NeighbourBelow(whole: Tree, t: Tree, path: Path, forward: bool, r: RbNode)
    requires whole == Plug(t, path) && t.Node? && |InOrder(Kid(t, !forward))| > 0
    requires var k := InOrder(Kid(t, !forward)); r == k[if forward then 0 else |k| - 1]
    ensures IsNeighbour(InOrder(whole), t.id, forward, r)
  {
    PlugInOrder(t, path);
    var w, b, a := InOrder(whole), Before(path), After(path);
    var i := |b| + |InOrder(t.l)|;
    assert w == b + (InOrder(t.l) + [t.id] + InOrder(t.r)) + a;
    assert w[i] == t.id;
    if forward {
      assert w[i+1] == InOrder(t.r)[0];
    } else {
      assert w[i-1] == InOrder(t.l)[|InOrder(t.l)| - 1];
    }
    assert NeighbourAt(w, i, t.id, forward, r);
  }

  lemma {:induction false} NeighbourAbove(whole: Tree, t: Tree, path: Path, q: Path, forward: bool)
    requires whole == Plug(t, path) && t.Node? && Kid(t, !forward) == Leaf
    requires Beyond(q, forward) == Beyond(path, forward)
    requires q.Step? ==> q.left == forward
    ensures IsNeighbour(InOrder(whole), t.id, forward, Par(q, null))
  {
    PlugInOrder(t, path);
    var w, b, a := InOrder(whole), Before(path), After(path);
    var i := |b| + |InOrder(t.l)|;
    assert w == b + (InOrder(t.l) + [t.id] + InOrder(t.r)) + a;
    assert w[i] == t.id;
    if forward {
      assert |w| == i + 1 + |a|;
      assert q.Step? ==> a[0] == q.id && w[i+1] == a[0];
    } else {
      assert i == |b|;
      assert q.Step? ==> b[|b| - 1] == q.id && w[i-1] == b[|b| - 1];
    }
    assert NeighbourAt(w, i, t.id, forward, Par(q, null));
  }

  class RbRoot {
    var node: RbNode?
    ghost var tree: Tree

    ghost predicate Stores(S: set<RbNode>, t: Tree)
      reads this, S
    {
      Rep(Snap(S), t, null) && node == Ptr(t)
    }

    /** A red-black tree, correctly linked in both directions. */
    ghost predicate Valid()
      reads this, Ids(tree)
    {
      Stores(Ids(tree), tree) && IsRedBlack(tree)
    }

    constructor ()
      ensures Valid() && tree == Leaf
    {
      node, tree := null, Leaf;
    }

    method SetColour(n: RbNode, red: bool, ghost S: set<RbNode>, ghost t: Tree, ghost path: Path)
      requires Stores(S, Plug(t, path)) && t.Node? && t.id == n && n in S
      modifies n`red
      ensures Stores(S, Plug(t.(red := red), path))
      ensures InOrder(Plug(t.(red := red), path)) == InOrder(Plug(t, path))
    {
      ghost var m := Snap(S);
      PlugIds(t, path);
      RepInMem(m, Plug(t, path), null);
      n.red := red;
      RecolouredRep(m, Snap(S), t, red, path);
      PlugKeepsPtr(t, t.(red := red), path);
      RecolouredInOrder(t, red, path);
    }

    /** The pointer writes of a rotation, on four distinct nodes. */
    method RotateLinks(n: RbNode, left: bool, ghost S: set<RbNode>)
      requires n in S && KidOf(n, !left) != null && KidOf(n, !left) in S
      requires var y := KidOf(n, !left);
               var b := KidOf(y, left);
               && y != n && b != n && b != y && n.parent != n && n.parent != y
               && (b != null ==> b in S && n.parent != b)
               && (n.parent != null ==> n.parent in S)
      modifies this`node, S
      ensures var y := old(KidOf(n, !left));
              var b := old(KidOf(y, left));
              var p := old(n.parent);
              var m, m' := old(Snap(S)), Snap(S);
              && node == (if p == null then y else old(node))
              && m'[n] == m[n].SetKid(!left, b).(parent := y)
              && m'[y] == m[y].SetKid(left, n).(parent := p)
              && (b != null ==> m'[b] == m[b].(parent := n))
              && (p != null ==> m'[p] == m[p].SetKid(if m[p].Kid(left) == n then left else !left, y))
              && forall k | k in S && k != n && k != y && k != b && k != p :: m'[k] == m[k]
    {
      var pivot := KidOf(n, !left);
      var parent := n.parent;
      var inner := KidOf(pivot, left);
      SetKid(n, !left, inner);
      if inner != null { inner.parent := n; }
      SetKid(pivot, left, n);
      pivot.parent := parent;
      if parent != null {
        if n == KidOf(parent, left) {
          SetKid(parent, left, pivot);
        } else {
          SetKid(parent, !left, pivot);
        }
      } else {
        node := pivot;
      }
      n.parent := pivot;
    }

    method Rotate(n: RbNode, left: bool, ghost S: set<RbNode>, ghost t: Tree, ghost path: Path)
      requires Stores(S, Plug(t, path)) && t.Node? && t.id == n && Kid(t, !left).Node?
      modifies this`node, S
      ensures Stores(S, Plug(Rotated(t, left), path))
      ensures InOrder(Plug(Rotated(t, left), path)) == InOrder(Plug(t, path))
    {
      ghost var m := Snap(S);
      Zoom(m, t, path, null);
      PlugIds(t, path);
      RepInMem(m, Plug(t, path), null);
      ghost var p := Kid(t, !left);
      RepJoin(m, left, Kid(t, left), t.id, t.red, p, Par(path, null));
      RepJoin(m, left, Kid(p, left), p.id, p.red, Kid(p, !left), t.id);
      assert m[n].Kid(!left) == KidOf(n, !left);
      assert m[p.id].Kid(left) == KidOf(p.id, left);
      RotateLinks(n, left, S);
      RotatedRep(m, Snap(S), t, left, path);
      if path.Step? { PlugKeepsPtr(t, Rotated(t, left), path); }
      RotatedInOrder(t, left, path);
    }

    /** rb_insert_color: `t0` is the freshly linked red leaf, or any red subtree in its place. */
    method InsertColour(start: RbNode, ghost S: set<RbNode>, ghost t0: Tree, ghost path0: Path, ghost h0: int)
      requires Stores(S, Plug(t0, path0)) && InsertInv(t0, path0, h0) && t0.id == start
      modifies this, S
      ensures Stores(S, tree) && IsRedBlack(tree)
      ensures InOrder(tree) == InOrder(Plug(t0, path0))
    {
      var n := start;
      ghost var t, path, h := t0, path0, h0;
      Around(Snap(S), t, path);
      var parent := n.parent;
      while parent != null && parent.red
        invariant Stores(S, Plug(t, path)) && InsertInv(t, path, h) && t.id == n
        invariant parent == Par(path, null)
        invariant parent != null ==> parent in S && parent.red == path.red
        invariant InOrder(Plug(t, path)) == InOrder(Plug(t0, path0))
        decreases Depth(path)
      {
        n, t, path, h := InsertStep(n, parent, S, t, path, h);
        Around(Snap(S), t, path);
        parent := n.parent;
      }
      InsertDone(t, path, h);
      BlackenRoot(S, Plug(t, path));
    }

    method BlackenRoot(ghost S: set<RbNode>, ghost whole: Tree)
      requires Stores(S, whole) && whole.Node?
      modifies this, S
      ensures Stores(S, tree) && tree == Blacken(whole) && InOrder(tree) == InOrder(whole)
    {
      Around(Snap(S), whole, Top);
      SetColour(node, false, S, whole, Top);
      tree := Blacken(whole);
    }

    /** One turn of the loop of rb_insert_color, under a red parent. */
    method InsertStep(n0: RbNode, parent0: RbNode, ghost S: set<RbNode>,
                      ghost t0: Tree, ghost path0: Path, ghost h0: int)
      returns (n: RbNode, ghost t: Tree, ghost path: Path, ghost h: int)
      requires Stores(S, Plug(t0, path0)) && InsertInv(t0, path0, h0) && t0.id == n0
      requires path0.Step? && path0.id == parent0 && path0.red
      modifies this, S
      ensures Stores(S, Plug(t, path)) && InsertInv(t, path, h) && t.id == n
      ensures InOrder(Plug(t, path)) == InOrder(Plug(t0, path0))
      ensures Depth(path) < Depth(path0)
    {
      n, t, path, h := n0, t0, path0, h0;
      var parent := parent0;
      RedParent(t, path, h);
      Around(Snap(S), t, path);
      Flip(t, path);
      Around(Snap(S), Join(path.left, t, path.id, path.red, path.sib), path.up);
      var gparent := parent.parent;
      var side := parent == gparent.left;
      var uncle := KidOf(gparent, !side);
      if uncle != null && uncle.red {
        t, h := InsertRecolour(uncle, parent, gparent, S, t, path, h);
        n, path := gparent, path.up.up;
      } else {
        if KidOf(parent, !side) == n {
          parent, n, t, path := InsertTurn(n, parent, side, S, t, path, h);
        }
        path := InsertRaise(parent, gparent, side, S, t, path, h);
      }
    }

    method InsertRecolour(uncle: RbNode, parent: RbNode, gparent: RbNode, ghost S: set<RbNode>,
                          ghost t0: Tree, ghost path0: Path, ghost h0: int)
      returns (ghost t: Tree, ghost h: int)
      requires Stores(S, Plug(t0, path0)) && InsertInv(t0, path0, h0)
      requires path0.Step? && path0.red && path0.id == parent && path0.up.Step? && path0.up.id == gparent
      requires IsRed(path0.up.sib) && path0.up.sib.id == uncle && {uncle, parent, gparent} <= S
      modifies S
      ensures Stores(S, Plug(t, path0.up.up)) && InsertInv(t, path0.up.up, h) && t.id == gparent
      ensures InOrder(Plug(t, path0.up.up)) == InOrder(Plug(t0, path0))
    {
      t := InsertRedUncle(t0, path0, h0);
      h := h0 + 1;
      RedParent(t0, path0, h0);
      ghost var low := Join(path0.left, t0, parent, true, path0.sib);
      ghost var g := path0.up;
      Flip(t0, path0);
      Flip(low, g);
      SetColour(uncle, false, S, g.sib, Step(!g.left, gparent, false, low, g.up));
      ghost var g' := g.(sib := Blacken(g.sib));
      Flip(low, g');
      SetColour(parent, false, S, low, g');
      ghost var low' := Join(path0.left, t0, parent, false, path0.sib);
      Flip(low', g');
      SetColour(gparent, true, S, Join(g.left, low', gparent, false, g'.sib), g.up);
    }

    method InsertTurn(n0: RbNode, parent0: RbNode, side: bool, ghost S: set<RbNode>,
                      ghost t0: Tree, ghost path0: Path, ghost h: int)
      returns (parent: RbNode, n: RbNode, ghost t: Tree, ghost path: Path)
      requires Stores(S, Plug(t0, path0)) && InsertInv(t0, path0, h) && t0.id == n0
      requires path0.Step? && path0.red && path0.id == parent0
      requires path0.up.Step? && path0.up.left == side != path0.left
      modifies this, S
      ensures Stores(S, Plug(t, path)) && InsertInv(t, path, h) && t.id == n
      ensures InOrder(Plug(t, path)) == InOrder(Plug(t0, path0))
      ensures path.Step? && path.red && path.id == parent && path.left == side && path.up == path0.up
      ensures parent in S
    {
      t, path := InsertInnerKid(t0, path0, h);
      Flip(t0, path0);
      ghost var low := Join(path0.left, t0, parent0, true, path0.sib);
      Rotate(parent0, side, S, low, path0.up);
      parent, n := n0, parent0;
      Around(Snap(S), Rotated(low, side), path0.up);
      Flip(t, path);
      assert Rotated(low, side) == Join(side, t, n0, true, path.sib);
    }

    method InsertRaise(parent: RbNode, gparent: RbNode, side: bool, ghost S: set<RbNode>,
                       ghost t: Tree, ghost path0: Path, ghost h: int)
      returns (ghost path: Path)
      requires Stores(S, Plug(t, path0)) && InsertInv(t, path0, h)
      requires path0.Step? && path0.red && path0.id == parent && path0.left == side
      requires path0.up.Step? && path0.up.left == side && path0.up.id == gparent && !IsRed(path0.up.sib)
      requires {parent, gparent} <= S
      modifies this, S
      ensures Stores(S, Plug(t, path)) && InsertInv(t, path, h)
      ensures InOrder(Plug(t, path)) == InOrder(Plug(t, path0))
      ensures Depth(path) < Depth(path0)
    {
      path := InsertOuterKid(t, path0, h);
      RedParent(t, path0, h);
      ghost var g := path0.up;
      ghost var low := Join(side, t, parent, true, path0.sib);
      ghost var low' := Join(side, t, parent, false, path0.sib);
      Flip(t, path0);
      SetColour(parent, false, S, low, g);
      Flip(low', g);
      SetColour(gparent, true, S, Join(side, low', gparent, false, g.sib), g.up);
      ghost var top := Join(side, low', gparent, true, g.sib);
      Rotate(gparent, !side, S, top, g.up);
      Flip(t, path);
      assert Rotated(top, !side) == Join(side, t, parent, false, path.sib);
    }

    /** __rb_erase_color: the hole of `path0` received one black level too few. */
    method EraseColour(child: RbNode?, parent0: RbNode?, ghost S: set<RbNode>,
                       ghost t0: Tree, ghost path0: Path, ghost h0: int)
      requires Stores(S, Plug(t0, path0)) && EraseInv(t0, path0, h0)
      requires child == Ptr(t0) && parent0 == Par(path0, null)
      modifies this, S
      ensures Stores(S, tree) && IsRedBlack(tree) && InOrder(tree) == InOrder(Plug(t0, path0))
    {
      var n, parent := child, parent0;
      ghost var t, path, h := t0, path0, h0;
      ghost var level := false;
      Around(Snap(S), t, path);
      while (n == null || !n.red) && n != node
        invariant Stores(S, Plug(t, path)) && EraseInv(t, path, h) && !level
        invariant n == Ptr(t) && parent == Par(path, null)
        invariant n != null ==> n in S && n.red == t.red
        invariant InOrder(Plug(t, path)) == InOrder(Plug(t0, path0))
        decreases if IsRed(t) then 0 else Depth(path) + 1
      {
        AtRoot(S, t, path);
        var fin;
        fin, n, parent, t, path, h := EraseStep(n, parent, S, t, path, h);
        if fin {
          level := true;
          break;
        }
        Around(Snap(S), t, path);
      }
      if !level {
        AtRoot(S, t, path);
        EraseDone(t, path, h);
      }
      Settle(n, S, t, path);
    }

    method Settle(n: RbNode?, ghost S: set<RbNode>, ghost t: Tree, ghost path: Path)
      requires Stores(S, Plug(t, path)) && n == Ptr(t) && (n != null ==> n in S)
      modifies this, S
      ensures Stores(S, tree) && tree == Plug(Blacken(t), path) && InOrder(tree) == InOrder(Plug(t, path))
    {
      if n != null {
        SetColour(n, false, S, t, path);
      }
      tree := Plug(Blacken(t), path);
    }

    lemma {:induction false} AtRoot(S: set<RbNode>, t: Tree, path: Path)
      requires Stores(S, Plug(t, path))
      ensures Ptr(t) == node <==> path.Top?
    {
      if path.Step? {
        RootOnPath(t, path);
        Zoom(Snap(S), t, path, null);
      }
    }

    /** One turn of the loop of __rb_erase_color; `fin` is its `break`. */
    method EraseStep(n0: RbNode?, parent0: RbNode, ghost S: set<RbNode>,
                     ghost t0: Tree, ghost path0: Path, ghost h0: int)
      returns (fin: bool, n: RbNode?, parent: RbNode?, ghost t: Tree, ghost path: Path, ghost h: int)
      requires Stores(S, Plug(t0, path0)) && EraseInv(t0, path0, h0) && !IsRed(t0)
      requires n0 == Ptr(t0) && path0.Step? && parent0 == path0.id
      modifies this, S
      ensures Stores(S, Plug(t, path)) && n == Ptr(t) && (n != null ==> n in S)
      ensures InOrder(Plug(t, path)) == InOrder(Plug(t0, path0))
      ensures fin ==> path.Top? && IsRedBlack(t) && t.Node?
      ensures !fin ==> EraseInv(t, path, h) && parent == Par(path, null)
      ensures !fin ==> (IsRed(t) || Depth(path) < Depth(path0))
    {
      path := path0;
      EraseInvHasSibling(t0, path, h0);
      Around(Snap(S), t0, path);
      var side := parent0.left == n0;
      var other := KidOf(parent0, !side);
      if other.red {
        other, path := EraseTurn(parent0, other, side, S, t0, path, h0);
      }
      fin, n, parent, t, path, h := EraseUnderBlack(n0, parent0, other, side, S, t0, path, h0);
    }

    /** The rest of the turn, once the sibling is black. */
    method EraseUnderBlack(n0: RbNode?, parent0: RbNode, other0: RbNode, side: bool, ghost S: set<RbNode>,
                           ghost t0: Tree, ghost path0: Path, ghost h0: int)
      returns (fin: bool, n: RbNode?, parent: RbNode?, ghost t: Tree, ghost path: Path, ghost h: int)
      requires Stores(S, Plug(t0, path0)) && EraseInv(t0, path0, h0) && !IsRed(t0)
      requires n0 == Ptr(t0) && path0.Step? && parent0 == path0.id && path0.left == side
      requires path0.sib.Node? && !path0.sib.red && path0.sib.id == other0
      modifies this, S
      ensures Stores(S, Plug(t, path)) && n == Ptr(t) && (n != null ==> n in S)
      ensures InOrder(Plug(t, path)) == InOrder(Plug(t0, path0))
      ensures fin ==> path.Top? && IsRedBlack(t) && t.Node?
      ensures !fin ==> EraseInv(t, path, h) && parent == Par(path, null)
      ensures !fin ==> path == path0.up && IsRed(t) == path0.red
    {
      n, parent, t, path, h := n0, parent0, t0, path0, h0;
      var other := other0;
      ghost var view := Step(!side, path.id, path.red, t, path.up);
      Flip(t, path);
      Around(Snap(S), t, path);
      Nephews(Snap(S), path.sib, view);
      var near, far := KidOf(other, side), KidOf(other, !side);
      if (near == null || !near.red) && (far == null || !far.red) {
        SetColour(other, true, S, path.sib, view);
        t, h := EraseBlackNephews(t, path, h);
        Flip(path.sib.(red := true), view);
        path := path.up;
        n := parent0;
        Around(Snap(S), t, path);
        parent := parent0.parent;
        fin := false;
      } else {
        if far == null || !far.red {
          other, path := EraseInner(parent0, other, near, side, S, t, path, h);
        }
        t := EraseOuter(parent0, other, side, S, t, path, h);
        n := node;
        path := Top;
        Around(Snap(S), t, path);
        fin := true;
      }
    }

    method EraseTurn(parent: RbNode, other0: RbNode, side: bool, ghost S: set<RbNode>,
                     ghost t: Tree, ghost path0: Path, ghost h: int)
      returns (other: RbNode, ghost path: Path)
      requires Stores(S, Plug(t, path0)) && EraseInv(t, path0, h) && !IsRed(t) && {parent, other0} <= S
      requires path0.Step? && path0.left == side && path0.id == parent
      requires IsRed(path0.sib) && path0.sib.id == other0
      modifies this, S
      ensures Stores(S, Plug(t, path)) && EraseInv(t, path, h)
      ensures InOrder(Plug(t, path)) == InOrder(Plug(t, path0))
      ensures path.Step? && path.left == side && path.id == parent && path.red
      ensures path.sib.Node? && !path.sib.red && path.sib.id == other
    {
      path := EraseRedSibling(t, path0, h);
      EraseInvHasSibling(t, path0, h);
      ghost var o := path0.sib;
      Flip(t, path0);
      SetColour(other0, false, S, o, Step(!side, parent, path0.red, t, path0.up));
      ghost var o' := Blacken(o);
      Flip(t, path0.(sib := o'));
      ghost var low := Join(side, t, parent, path0.red, o');
      SetColour(parent, true, S, low, path0.up);
      ghost var low' := Join(side, t, parent, true, o');
      Rotate(parent, side, S, low', path0.up);
      Flip(t, path);
      Flip(Join(side, t, parent, true, path.sib), path.up);
      assert Rotated(low', side) == Join(side, Join(side, t, parent, true, path.sib), other0, false, path.up.sib);
      Around(Snap(S), t, path);
      other := KidOf(parent, !side);
    }

    method EraseInner(parent: RbNode, other0: RbNode, near: RbNode, side: bool, ghost S: set<RbNode>,
                      ghost t: Tree, ghost path0: Path, ghost h: int)
      returns (other: RbNode, ghost path: Path)
      requires Stores(S, Plug(t, path0)) && EraseInv(t, path0, h) && !IsRed(t) && {parent, other0, near} <= S
      requires path0.Step? && path0.left == side && path0.id == parent
      requires path0.sib.Node? && !path0.sib.red && path0.sib.id == other0
      requires IsRed(Kid(path0.sib, side)) && Kid(path0.sib, side).id == near && !IsRed(Kid(path0.sib, !side))
      modifies this, S
      ensures Stores(S, Plug(t, path)) && EraseInv(t, path, h)
      ensures InOrder(Plug(t, path)) == InOrder(Plug(t, path0))
      ensures path.Step? && path.left == side && path.id == parent && path.up == path0.up
      ensures path.sib.Node? && !path.sib.red && path.sib.id == other && IsRed(Kid(path.sib, !side))
    {
      path := EraseNearNephew(t, path0, h);
      ghost var o := path0.sib;
      ghost var k, far := Kid(o, side), Kid(o, !side);
      ghost var view := Step(!side, parent, path0.red, t, path0.up);
      Flip(t, path0);
      Flip(k, Step(side, other0, false, far, view));
      SetColour(near, false, S, k, Step(side, other0, false, far, view));
      Flip(Blacken(k), Step(side, other0, false, far, view));
      SetColour(other0, true, S, Join(side, Blacken(k), other0, false, far), view);
      ghost var o' := Join(side, Blacken(k), other0, true, far);
      Rotate(other0, !side, S, o', view);
      assert Rotated(o', !side) == path.sib;
      Flip(path.sib, view);
      Flip(t, path);
      Around(Snap(S), t, path);
      other := KidOf(parent, !side);
    }

    method EraseOuter(parent: RbNode, other: RbNode, side: bool, ghost S: set<RbNode>,
                      ghost t: Tree, ghost path: Path, ghost h: int)
      returns (ghost whole: Tree)
      requires Stores(S, Plug(t, path)) && EraseInv(t, path, h) && !IsRed(t) && {parent} <= S
      requires path.Step? && path.left == side && path.id == parent
      requires path.sib.Node? && !path.sib.red && path.sib.id == other && IsRed(Kid(path.sib, !side))
      modifies this, S
      ensures Stores(S, whole) && IsRedBlack(whole) && whole.Node?
      ensures InOrder(whole) == InOrder(Plug(t, path))
    {
      ghost var fixed := EraseFarNephew(t, path, h);
      whole := Plug(fixed, path.up);
      ghost var o := path.sib;
      ghost var near, far := Kid(o, side), Kid(o, !side);
      ghost var view := Step(!side, parent, path.red, t, path.up);
      Flip(t, path);
      Around(Snap(S), t, path);
      SetColour(other, parent.red, S, o, view);
      ghost var o' := Join(side, near, other, path.red, far);
      Flip(o', view);
      SetColour(parent, false, S, Join(side, t, parent, path.red, o'), path.up);
      ghost var view' := view.(red := false);
      Flip(o', view');
      Flip(far, Step(!side, other, path.red, near, view'));
      Nephews(Snap(S), o', view');
      var farNode := KidOf(other, !side);
      EraseLast(parent, farNode, side, S, t, path.(red := false, sib := o'));
      assert Rotated(Join(side, t, parent, false, Join(side, near, other, path.red, Blacken(far))), side) == fixed;
      if path.up.Step? { RootOnPath(fixed, path.up); }
    }

    /** The far nephew becomes black and the parent turns. */
    method EraseLast(parent: RbNode, far: RbNode, side: bool, ghost S: set<RbNode>, ghost t: Tree, ghost path: Path)
      requires Stores(S, Plug(t, path)) && {parent, far} <= S
      requires path.Step? && path.left == side && path.id == parent && path.sib.Node?
      requires Kid(path.sib, !side).Node? && Kid(path.sib, !side).id == far
      modifies this, S
      ensures tree == old(tree)
      ensures var o := path.sib;
              var low := Join(side, t, parent, path.red, Join(side, Kid(o, side), o.id, o.red, Blacken(Kid(o, !side))));
              && Stores(S, Plug(Rotated(low, side), path.up))
              && InOrder(Plug(Rotated(low, side), path.up)) == InOrder(Plug(t, path))
    {
      ghost var o := path.sib;
      ghost var view := Step(!side, parent, path.red, t, path.up);
      ghost var hole := Step(!side, o.id, o.red, Kid(o, side), view);
      Flip(t, path);
      Flip(Kid(o, !side), hole);
      SetColour(far, false, S, Kid(o, !side), hole);
      ghost var o' := Join(side, Kid(o, side), o.id, o.red, Blacken(Kid(o, !side)));
      Flip(Blacken(Kid(o, !side)), hole);
      Flip(o', view);
      Rotate(parent, side, S, Join(side, t, parent, path.red, o'), path.up);
    }

    /** rb_erase, when one subtree at most hangs from the node. */
    method Unlink(n: RbNode, kid: RbNode?, ghost S: set<RbNode>, ghost t: Tree, ghost sub: Tree, ghost path: Path)
      requires Stores(S, Plug(t, path)) && t.Node? && t.id == n && kid == Ptr(sub)
      requires (t.l == Leaf && sub == t.r) || (t.r == Leaf && sub == t.l)
      modifies this`node, S
      ensures Stores(S, Plug(sub, path))
    {
      ghost var m := Snap(S);
      Zoom(m, t, path, null);
      PlugIds(t, path);
      RepInMem(m, Plug(t, path), null);
      assert sub.Node? ==> sub.id in Ids(t);
      UnlinkFields(n, kid, S);
      UnlinkedRep(m, Snap(S), t, sub, path);
      if path.Step? { PlugKeepsPtr(t, sub, path); }
    }

    method UnlinkFields(n: RbNode, kid: RbNode?, ghost S: set<RbNode>)
      requires n in S && (kid != null ==> kid in S) && kid != n && n.parent != n
      requires n.parent != null ==> n.parent in S && n.parent != kid
      modifies this`node, S
      ensures var p, m, m' := old(n.parent), old(Snap(S)), Snap(S);
              && node == (if p == null then kid else old(node))
              && (kid != null ==> m'[kid] == m[kid].(parent := p))
              && (p != null ==> m'[p] == m[p].SetKid(m[p].left == n, kid))
              && forall k | k in S && k != kid && k != p :: m'[k] == m[k]
    {
      var parent := n.parent;
      if kid != null { kid.parent := parent; }
      if parent != null {
        if parent.left == n { parent.left := kid; } else { parent.right := kid; }
      } else {
        node := kid;
      }
    }

    /** Redirects to `s` the link by which the tree reaches `n`. */
    method HangAt(n: RbNode, s: RbNode, ghost S: set<RbNode>)
      requires n in S && s in S && (n.parent != null ==> n.parent in S)
      modifies this`node, S
      ensures node == if old(n.parent) == null then s else old(node)
      ensures var m := old(Snap(S));
              Snap(S) == if old(n.parent) == null then m
                         else m[old(n.parent) := m[old(n.parent)].SetKid(m[old(n.parent)].left == n, s)]
    {
      if n.parent != null {
        if n.parent.left == n { n.parent.left := s; } else { n.parent.right := s; }
      } else {
        node := s;
      }
    }

    /** Gives the place of `s`, a left child, to `child`. */
    method Bypass(child: RbNode?, parent: RbNode, ghost S: set<RbNode>)
      requires parent in S && (child != null ==> child in S) && child != parent
      modifies S
      ensures var m := old(Snap(S));
              var m1 := if child == null then m else m[child := m[child].(parent := parent)];
              Snap(S) == m1[parent := m[parent].(left := child)]
    {
      if child != null { child.parent := parent; }
      parent.left := child;
    }

    /** Lets `s` take over the fields of `n`, and its right subtree too if `deep`. */
    method TakeOver(n: RbNode, s: RbNode, deep: bool, ghost S: set<RbNode>)
      requires n in S && s in S && s != n && n.left != null && n.left in S && n.right != null && n.right in S
      requires n.left !in {n, s, n.right} && n.right != n && (deep ==> n.right != s)
      modifies S
      ensures var m := old(Snap(S));
              var l, r := old(n.left), old(n.right);
              var m1 := m[s := Cell(l, if deep then r else m[s].right, m[n].parent, m[n].red)][l := m[l].(parent := s)];
              Snap(S) == if deep then m1[r := m[r].(parent := s)] else m1
    {
      ghost var m := Snap(S);
      if deep { TakeRight(n, s, S); }
      assert Snap(S)[n] == m[n];
      TakeRest(n, s, S);
    }

    method TakeRight(n: RbNode, s: RbNode, ghost S: set<RbNode>)
      requires n in S && s in S && s != n && n.right != null && n.right in S && n.right !in {n, s}
      modifies S
      ensures var m, r := old(Snap(S)), old(n.right);
              Snap(S) == m[s := m[s].(right := r)][r := m[r].(parent := s)]
    {
      s.right := n.right;
      n.right.parent := s;
    }

    method TakeRest(n: RbNode, s: RbNode, ghost S: set<RbNode>)
      requires n in S && s in S && s != n && n.left != null && n.left in S && n.left !in {n, s}
      modifies S
      ensures var m, l := old(Snap(S)), old(n.left);
              Snap(S) == m[s := Cell(l, m[s].right, m[n].parent, m[n].red)][l := m[l].(parent := s)]
    {
      s.parent := n.parent;
      s.red := n.red;
      s.left := n.left;
      n.left.parent := s;
    }

    /** The pointer writes by which rb_erase puts `s`, the successor, in the place of `n`. */
    method SpliceLinks(n: RbNode, s: RbNode, ghost S: set<RbNode>)
      requires n in S && s in S && SpliceShape(Snap(S), n, s)
      modifies this`node, S
      ensures Spliced(old(Snap(S)), Snap(S), n, s)
      ensures node == if old(n.parent) == null then s else old(node)
    {
      ghost var m := Snap(S);
      HangAt(n, s, S);
      ghost var m1 := Snap(S);
      var child := s.right;
      var parent := s.parent;
      assert m1[s] == m[s] && m1[n] == m[n];
      if parent != n {
        Bypass(child, parent, S);
      }
      ghost var m2 := Snap(S);
      assert m2[s] == m[s] && m2[n] == m[n];
      TakeOver(n, s, parent != n, S);
      SplicedMem(m, m1, m2, Snap(S), n, s);
    }

    method Splice(n: RbNode, s: RbNode, ghost S: set<RbNode>, ghost t: Tree, ghost st: Tree,
                  ghost inner: Path, ghost path: Path)
      requires Stores(S, Plug(t, path)) && t.Node? && t.id == n && t.l.Node?
      requires t.r == Plug(st, inner) && Spine(inner, true) && st.Node? && st.id == s && st.l == Leaf
      modifies this`node, S
      ensures Stores(S, Plug(Node(t.l, s, t.red, Plug(st.r, inner)), path))
    {
      ghost var m := Snap(S);
      Zoom(m, t, path, null);
      PlugIds(t, path);
      RepInMem(m, Plug(t, path), null);
      SpliceSites(m, n, t.r, st, inner);
      assert t.l.id in Ids(t.l);
      assert path.Step? ==> path.id in PathIds(path);
      if inner.Step? { RootOnPath(st, inner); }
      SpliceLinks(n, s, S);
      SplicedRep(m, Snap(S), t, st, inner, path);
      if path.Step? { PlugKeepsPtr(t, Node(t.l, s, t.red, Plug(st.r, inner)), path); }
    }

    /** The last node that `start` reaches going to one side. */
    method Outermost(start: RbNode, left: bool, ghost S: set<RbNode>, ghost t: Tree, ghost par: RbNode?)
      returns (s: RbNode, ghost st: Tree, ghost inner: Path)
      requires Rep(Snap(S), t, par) && t.Node? && t.id == start
      ensures t == Plug(st, inner) && Spine(inner, left) && st.Node? && st.id == s && Kid(st, left) == Leaf
    {
      s, st, inner := start, t, Top;
      Zoom(Snap(S), st, inner, par);
      while KidOf(s, left) != null
        invariant t == Plug(st, inner) && Spine(inner, left) && st.Node? && st.id == s
        invariant s in S && KidOf(s, left) == Ptr(Kid(st, left))
        decreases st
      {
        s := KidOf(s, left);
        inner := Step(left, st.id, st.red, Kid(st, !left), inner);
        st := Kid(st, left);
        Zoom(Snap(S), st, inner, par);
      }
    }

    /** The part of rb_erase that unhooks `n0`, up to its label `color`. */
    method Detach(n0: RbNode)
      returns (child: RbNode?, parent: RbNode?, red: bool, ghost sub: Tree, ghost hole: Path, ghost h: int)
      requires Valid() && n0 in Ids(tree)
      modifies this`node, Ids(tree)
      ensures Stores(Ids(tree), Plug(sub, hole)) && child == Ptr(sub) && parent == Par(hole, null)
      ensures !red ==> EraseInv(sub, hole, h)
      ensures red ==> IsRedBlack(Plug(sub, hole))
      ensures Removed(InOrder(tree), n0, InOrder(Plug(sub, hole)))
      ensures Ids(Plug(sub, hole)) == Ids(tree) - {n0}
    {
      ghost var S := Ids(tree);
      ghost var t, path := Locate(tree, n0, Top);
      Around(Snap(S), t, path);
      if n0.left == null || n0.right == null {
        child := if n0.left == null then n0.right else n0.left;
        parent, red := n0.parent, n0.red;
        sub, hole := if t.l.Leaf? then t.r else t.l, path;
        UnlinkOrder(Snap(S), t, sub, path);
        h := UnlinkColours(tree, t, sub, path);
        Unlink(n0, child, S, t, sub, path);
      } else {
        Zoom(Snap(S), t, path, null);
        PlugIds(t, path);
        var s;
        ghost var st, inner;
        s, st, inner := Outermost(n0.right, true, S, t.r, n0);
        SpliceSites(Snap(S), n0, t.r, st, inner);
        child, parent, red := s.right, s.parent, s.red;
        if parent == n0 { parent := s; }
        SpliceOrder(Snap(S), t, st, inner, path);
        h, sub, hole := SpliceColours(tree, t, st, inner, path);
        Splice(n0, s, S, t, st, inner, path);
      }
    }

    /** rb_erase: takes exactly `n0` out of the in-order sequence. */
    method Erase(n0: RbNode)
      requires Valid() && n0 in Ids(tree)
      modifies this, Ids(tree)
      ensures Valid()
      ensures Removed(old(InOrder(tree)), n0, InOrder(tree))
      ensures Ids(tree) == old(Ids(tree)) - {n0}
    {
      ghost var S := Ids(tree);
      var child, parent, red;
      ghost var sub, hole, h;
      child, parent, red, sub, hole, h := Detach(n0);
      if !red {
        EraseColour(child, parent, S, sub, hole, h);
      } else {
        tree := Plug(sub, hole);
      }
      SameOrderSameIds(tree, Plug(sub, hole));
      Narrow(S);
    }

    /** Nodes outside the tree do not matter. */
    lemma {:induction false} Narrow(S: set<RbNode>)
      requires Stores(S, tree) && IsRedBlack(tree) && Ids(tree) <= S
      ensures Valid()
    {
      RepFrame(Snap(S), Snap(Ids(tree)), tree, null);
    }

    /** rb_link_node and rb_insert_color: `n` becomes the given child of `parent`, or the root. */
    method Insert(n: RbNode, parent: RbNode?, left: bool)
      requires Valid() && n !in Ids(tree)
      requires parent == null ==> tree == Leaf
      requires parent != null ==> parent in Ids(tree) && KidOf(parent, left) == null
      modifies this, n, Ids(tree)
      ensures Valid() && Ids(tree) == old(Ids(tree)) + {n}
      ensures parent == null ==> InOrder(tree) == [n]
      ensures parent != null ==> InsertedBeside(old(InOrder(tree)), parent, left, n, InOrder(tree))
    {
      hide InsertedBeside, InsertInv, IsRedBlack, Plug, Rep, InOrder;
      ghost var S := Ids(tree) + {n};
      ghost var leaf := Node(Leaf, n, true, Leaf);
      ghost var path := Link(n, parent, left);
      InsertColour(n, S, leaf, path, 0);
      PlugIds(leaf, path);
      SameOrderSameIds(tree, Plug(leaf, path));
      Narrow(S);
    }

    /** rb_link_node: the red leaf hangs in the tree, which is otherwise as it was. */
    method Link(n: RbNode, parent: RbNode?, left: bool) returns (ghost path: Path)
      requires Valid() && n !in Ids(tree)
      requires parent == null ==> tree == Leaf
      requires parent != null ==> parent in Ids(tree) && KidOf(parent, left) == null
      modifies this`node, n, Ids(tree)
      ensures Plug(Leaf, path) == tree && Ids(tree) == PathIds(path)
      ensures Stores(Ids(tree) + {n}, Plug(Node(Leaf, n, true, Leaf), path))
      ensures InsertInv(Node(Leaf, n, true, Leaf), path, 0)
      ensures parent == null ==> path == Top && InOrder(Plug(Node(Leaf, n, true, Leaf), path)) == [n]
      ensures parent != null ==>
                InsertedBeside(InOrder(tree), parent, left, n, InOrder(Plug(Node(Leaf, n, true, Leaf), path)))
    {
      ghost var m := Snap(Ids(tree));
      path := EmptySlot(m, tree, parent, left, n);
      Around(m, Leaf, path);
      assert path.Step? ==> path.id in PathIds(path);
      LinkFields(n, parent, left, Ids(tree) + {n});
      LinkedRep(m, Snap(Ids(tree) + {n}), n, path);
    }

    method LinkFields(n: RbNode, parent: RbNode?, left: bool, ghost S: set<RbNode>)
      requires n in S && parent != n && (parent != null ==> parent in S)
      modifies this`node, n, S
      ensures node == if parent == null then n else old(node)
      ensures Snap(S)[n] == Cell(null, null, parent, true)
      ensures parent != null ==> Snap(S)[parent] == old(Snap(S))[parent].SetKid(left, n)
      ensures forall k | k in S && k != n && k != parent :: Snap(S)[k] == old(Snap(S))[k]
    {
      n.parent := parent;
      n.red := true;
      n.left, n.right := null, null;
      if parent != null { SetKid(parent, left, n); } else { node := n; }
    }

    /** rb_first (`left`) and rb_last. */
    method End(left: bool) returns (r: RbNode?)
      requires Valid()
      ensures tree == Leaf ==> r == null
      ensures tree != Leaf ==> |InOrder(tree)| > 0 && r == InOrder(tree)[if left then 0 else |InOrder(tree)| - 1]
    {
      r := node;
      if r == null { return; }
      ghost var st, inner;
      r, st, inner := Outermost(r, left, Ids(tree), tree, null);
      OutermostOrder(tree, st, inner, left);
    }

    /** rb_next (`forward`) and rb_prev; a node that is its own parent is in no tree. */
    method Neighbour(start: RbNode, forward: bool) returns (r: RbNode?)
      requires start.parent == start || (Valid() && start in Ids(tree))
      ensures start.parent == start ==> r == null
      ensures start.parent != start ==> IsNeighbour(InOrder(tree), start, forward, r)
    {
      if start.parent == start { return null; }
      ghost var S := Ids(tree);
      ghost var t, path := Locate(tree, start, Top);
      Around(Snap(S), t, path);
      if KidOf(start, !forward) != null {
        ghost var st, inner;
        Zoom(Snap(S), t, path, null);
        r, st, inner := Outermost(KidOf(start, !forward), forward, S, Kid(t, !forward), start);
        OutermostOrder(Kid(t, !forward), st, inner, forward);
        NeighbourBelow(tree, t, path, forward, r);
        return;
      }
      var n := start;
      r := n.parent;
      ghost var x, q := t, path;
      while r != null && n == KidOf(r, !forward)
        invariant Plug(x, q) == tree && x.Node? && x.id == n && r == Par(q, null)
        invariant r != null ==> r in S
        invariant Beyond(q, forward) == Beyond(path, forward)
        decreases q
      {
        Around(Snap(S), x, q);
        n := r;
        x, q := Join(q.left, x, q.id, q.red, q.sib), q.up;
        Around(Snap(S), x, q);
        r := n.parent;
      }
      Around(Snap(S), x, q);
      NeighbourAbove(tree, t, path, q, forward);
    }

    /** One step from a node of the tree, and back again: rb_prev undoes rb_next and conversely. */
    method StepAndBack(start: RbNode, forward: bool) returns (r: RbNode?, back: RbNode?)
      requires Valid() && start in Ids(tree)
      ensures IsNeighbour(InOrder(tree), start, forward, r)
      ensures r != null ==> back == start
    {
      ghost var m := Snap(Ids(tree));
      RepDistinct(m, tree, null);
      OwnParent(m, tree, start);
      r := Neighbour(start, forward);
      back := null;
      if r != null {
        assert r in InOrder(tree);
        InOrderMember(tree, r);
        OwnParent(m, tree, r);
        back := Neighbour(r, !forward);
        NeighbourUndone(InOrder(tree), start, forward, r, back);
      }
    }

    /** Starting at one end and stepping with rb_next or rb_prev until it returns NULL. */
    method Walk(forward: bool) returns (visited: seq<RbNode>)
      requires Valid()
      ensures forward ==> visited == InOrder(tree)
      ensures !forward ==> |visited| == |InOrder(tree)|
                           && forall i | 0 <= i < |visited| :: visited[i] == InOrder(tree)[|visited| - 1 - i]
    {
      ghost var s := InOrder(tree);
      RepDistinct(Snap(Ids(tree)), tree, null);
      visited := [];
      var n := End(forward);
      while n != null
        invariant |visited| <= |s|
        invariant forall i | 0 <= i < |visited| :: visited[i] == s[if forward then i else |s| - 1 - i]
        invariant |visited| == |s| <==> n == null
        invariant |visited| < |s| ==> n == s[if forward then |visited| else |s| - 1 - |visited|]
        decreases |s| - |visited|
      {
        visited := visited + [n];
        assert n in s;
        InOrderMember(tree, n);
        OwnParent(Snap(Ids(tree)), tree, n);
        n := Neighbour(n, forward);
      }
    }

    method SetKid(n: RbNode, left: bool, kid: RbNode?)
      modifies n`left, n`right
      ensures KidOf(n, left) == kid && KidOf(n, !left) == old(KidOf(n, !left))
    {
      if left { n.left := kid; } else { n.right := kid; }
    }
  }
}
