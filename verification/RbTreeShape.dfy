/**
 The values behind the intrusive red-black tree of kernel/libk/rbtree.c.

 A `Tree` is the shape that the pointers of the nodes spell out, and a `Path`
 is a tree with one hole, read from the hole up to the root.  `Mem` is a
 snapshot of the fields of the nodes; `Rep` says that a snapshot stores a tree,
 parent links included.  Mirror-image cases of the source are stated once, with
 a flag `left` naming the side.
 */
module RbTreeShape {

  /** One node as the users of the tree embed it. */
  class RbNode {
    var left: RbNode?
    var right: RbNode?
    var parent: RbNode?
    var red: bool

    constructor ()
      ensures left == null && right == null && parent == null && red
    {
      left, right, parent, red := null, null, null, true;
    }
  }

  /** The four fields of a node at one moment. */
  datatype Cell = Cell(left: RbNode?, right: RbNode?, parent: RbNode?, red: bool) {
    function Kid(onLeft: bool): RbNode? { if onLeft then left else right }

    function SetKid(onLeft: bool, k: RbNode?): Cell {
      if onLeft then this.(left := k) else this.(right := k)
    }
  }

  type Mem = map<RbNode, Cell>

  datatype Tree = Leaf | Node(l: Tree, id: RbNode, red: bool, r: Tree)

  /** A tree with a hole: `left` says on which side of `id` the hole lies. */
  datatype Path = Top | Step(left: bool, id: RbNode, red: bool, sib: Tree, up: Path)

  /** A node with `near` on the given side and `far` on the other one. */
  function Join(left: bool, near: Tree, id: RbNode, red: bool, far: Tree): Tree {
    if left then Node(near, id, red, far) else Node(far, id, red, near)
  }

  function Kid(t: Tree, left: bool): Tree
    requires t.Node?
  {
    if left then t.l else t.r
  }

  function Plug(t: Tree, path: Path): Tree
    decreases path
  {
    match path
    case Top => t
    case Step(left, id, red, sib, up) => Plug(Join(left, t, id, red, sib), up)
  }

  function Append(inner: Path, outer: Path): Path {
    match inner
    case Top => outer
    case Step(left, id, red, sib, up) => Step(left, id, red, sib, Append(up, outer))
  }

  function Ids(t: Tree): set<RbNode> {
    match t
    case Leaf => {}
    case Node(l, id, _, r) => Ids(l) + {id} + Ids(r)
  }

  function PathIds(path: Path): set<RbNode> {
    match path
    case Top => {}
    case Step(_, id, _, sib, up) => Ids(sib) + {id} + PathIds(up)
  }

  function Depth(path: Path): nat {
    match path
    case Top => 0
    case Step(_, _, _, _, up) => 1 + Depth(up)
  }

  /** The nodes from left to right. */
  function InOrder(t: Tree): seq<RbNode> {
    match t
    case Leaf => []
    case Node(l, id, _, r) => InOrder(l) + [id] + InOrder(r)
  }

  /** What the path contributes to the left, and to the right, of its hole. */
  function Before(path: Path): seq<RbNode> {
    match path
    case Top => []
    case Step(left, id, _, sib, up) => if left then Before(up) else Before(up) + InOrder(sib) + [id]
  }

  function After(path: Path): seq<RbNode> {
    match path
    case Top => []
    case Step(left, id, _, sib, up) => if left then [id] + InOrder(sib) + After(up) else After(up)
  }

  lemma {:induction false} Regroup<T>(a: seq<T>, b: seq<T>, c: seq<T>, d: seq<T>, e: seq<T>)
    ensures a + (b + c + d) + e == a + b + (c + d + e)
    ensures a + (b + c + d) + e == a + b + c + d + e
  {
  }

  lemma {:induction false} PlugInOrder(t: Tree, path: Path)
    ensures InOrder(Plug(t, path)) == Before(path) + InOrder(t) + After(path)
    decreases path
  {
    match path
    case Top =>
    case Step(left, id, red, sib, up) =>
      PlugInOrder(Join(left, t, id, red, sib), up);
      if left {
        Regroup(Before(up), InOrder(t), [id], InOrder(sib), After(up));
      } else {
        Regroup(Before(up), InOrder(sib), [id], InOrder(t), After(up));
      }
  }

  lemma {:induction false} PlugAppend(t: Tree, inner: Path, outer: Path)
    ensures Plug(t, Append(inner, outer)) == Plug(Plug(t, inner), outer)
    decreases inner
  {
    match inner
    case Top =>
    case Step(left, id, red, sib, up) => PlugAppend(Join(left, t, id, red, sib), up, outer);
  }

  lemma {:induction false} PlugIds(t: Tree, path: Path)
    ensures Ids(Plug(t, path)) == Ids(t) + PathIds(path)
    decreases path
  {
    match path
    case Top =>
    case Step(left, id, red, sib, up) => PlugIds(Join(left, t, id, red, sib), up);
  }

  lemma {:induction false} InOrderMember(t: Tree, n: RbNode)
    ensures n in InOrder(t) <==> n in Ids(t)
  {
    match t
    case Leaf =>
    case Node(l, id, _, r) => InOrderMember(l, n); InOrderMember(r, n);
  }

  lemma {:induction false} SameOrderSameIds(t: Tree, t': Tree)
    requires InOrder(t) == InOrder(t')
    ensures Ids(t) == Ids(t')
  {
    forall n | n in Ids(t) ensures n in Ids(t') { InOrderMember(t, n); InOrderMember(t', n); }
    forall n | n in Ids(t') ensures n in Ids(t) { InOrderMember(t, n); InOrderMember(t', n); }
  }

  /** Every node of a tree can be brought to the hole of some path. */
  lemma {:induction false} Locate(t: Tree, n: RbNode, path: Path) returns (s: Tree, q: Path)
    requires n in Ids(t)
    ensures s.Node? && s.id == n && Plug(s, q) == Plug(t, path)
    decreases t
  {
    if t.id == n {
      s, q := t, path;
    } else if n in Ids(t.l) {
      s, q := Locate(t.l, n, Step(true, t.id, t.red, t.r, path));
    } else {
      s, q := Locate(t.r, n, Step(false, t.id, t.red, t.l, path));
    }
  }

  // ----- Trees in memory -----

  function Ptr(t: Tree): RbNode? {
    if t.Leaf? then null else t.id
  }

  function Par(path: Path, top: RbNode?): RbNode? {
    if path.Top? then top else path.id
  }

  /** `m` stores `t` with the root's parent link naming `par`; no node occurs twice. */
  ghost predicate Rep(m: Mem, t: Tree, par: RbNode?) {
    match t
    case Leaf => true
    case Node(l, id, red, r) =>
      && id in m
      && m[id] == Cell(Ptr(l), Ptr(r), par, red)
      && id !in Ids(l) && id !in Ids(r) && Ids(l) !! Ids(r)
      && Rep(m, l, id) && Rep(m, r, id)
  }

  lemma {:induction false} RepFrame(m: Mem, m': Mem, t: Tree, par: RbNode?)
    requires Rep(m, t, par)
    requires forall n | n in Ids(t) :: n in m && n in m' && m'[n] == m[n]
    ensures Rep(m', t, par)
  {
    match t
    case Leaf =>
    case Node(l, id, _, r) => RepFrame(m, m', l, id); RepFrame(m, m', r, id);
  }

  lemma {:induction false} RepInMem(m: Mem, t: Tree, par: RbNode?)
    requires Rep(m, t, par)
    ensures Ids(t) <= m.Keys
  {
    match t
    case Leaf =>
    case Node(l, id, _, r) => RepInMem(m, l, id); RepInMem(m, r, id);
  }

  /** Only the parent link of the root differs. */
  lemma {:induction false} Reparent(m: Mem, m': Mem, t: Tree, par: RbNode?, par': RbNode?)
    requires Rep(m, t, par)
    requires forall n | n in Ids(t) :: n in m && n in m'
    requires forall n | n in Ids(t) && n != Ptr(t) :: m'[n] == m[n]
    requires t.Node? ==> m'[t.id] == m[t.id].(parent := par')
    ensures Rep(m', t, par')
  {
    match t
    case Leaf =>
    case Node(l, id, _, r) => RepFrame(m, m', l, id); RepFrame(m, m', r, id);
  }

  /** What holds around the hole of a tree in memory. */
  lemma {:induction false} Zoom(m: Mem, t: Tree, path: Path, top: RbNode?)
    requires Rep(m, Plug(t, path), top)
    ensures Rep(m, t, Par(path, top))
    ensures Ids(t) !! PathIds(path)
    ensures path.Step? ==>
              && path.id in m && path.id !in Ids(path.sib) && path.id !in PathIds(path.up)
              && Ids(path.sib) !! PathIds(path.up)
              && m[path.id].red == path.red && m[path.id].parent == Par(path.up, top)
              && m[path.id].Kid(path.left) == Ptr(t)
              && m[path.id].Kid(!path.left) == Ptr(path.sib)
              && Rep(m, path.sib, path.id)
    decreases path
  {
    match path
    case Top =>
    case Step(left, id, red, sib, up) => Zoom(m, Join(left, t, id, red, sib), up, top);
  }

  /** Filling the hole with another stored tree, after its link has been redirected. */
  lemma {:induction false} Rehang(m: Mem, m': Mem, t: Tree, t': Tree, path: Path, top: RbNode?)
    requires Rep(m, Plug(t, path), top)
    requires Rep(m', t', Par(path, top))
    requires Ids(t') !! PathIds(path)
    requires forall n | n in PathIds(path) :: n in m && n in m'
    requires forall n | n in PathIds(path) && n != Par(path, top) :: m'[n] == m[n]
    requires path.Step? ==> m'[path.id] == m[path.id].SetKid(path.left, Ptr(t'))
    ensures Rep(m', Plug(t', path), top)
    decreases path
  {
    Zoom(m, t, path, top);
    match path
    case Top =>
    case Step(left, id, red, sib, up) =>
      RepFrame(m, m', sib, id);
      var s, s' := Join(left, t, id, red, sib), Join(left, t', id, red, sib);
      Zoom(m, s, up, top);
      Rehang(m, m', s, s', up, top);
  }

  lemma {:induction false} RootOnPath(t: Tree, path: Path)
    requires path.Step?
    ensures Plug(t, path).Node? && Plug(t, path).id in PathIds(path)
    decreases path
  {
    var s := Join(path.left, t, path.id, path.red, path.sib);
    if path.up.Step? { RootOnPath(s, path.up); }
  }

  lemma {:induction false} PlugKeepsPtr(t: Tree, t': Tree, path: Path)
    requires path.Step? || Ptr(t) == Ptr(t')
    ensures Ptr(Plug(t, path)) == Ptr(Plug(t', path))
    decreases path
  {
    match path
    case Top =>
    case Step(left, id, red, sib, up) =>
      PlugKeepsPtr(Join(left, t, id, red, sib), Join(left, t', id, red, sib), up);
  }
}
