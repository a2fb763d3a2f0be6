/**
 The radix tree of kernel/kern/radix.c: growing, inserting and looking up.  Nodes
 live in `nodes`, by address; `place` records for each node its level above the
 leaves and the digits that lead to it.
 */
module Radix {
  import opened ModArith
  import opened Words

  const FANOUT: nat := 64
  const KEYS: nat := WORD
  const MAX_HEIGHT: nat := 6

  datatype Child<T> = Null | Node(id: nat) | Item(value: T)

  datatype Error = Ok | NoMemory | Exists

  datatype Place = Place(level: nat, prefix: nat)

  // ----- Keys and digits -----

  /** A key without its `level` lowest digits of six bits. */
  function Prefix(key: nat, level: nat): nat {
    if level == 0 then key else Prefix(key, level - 1) / FANOUT
  }

  /** NEXT_CHILD for a node `level` levels above the items. */
  function Digit(key: nat, level: nat): (d: nat)
    requires level >= 1
    ensures d < FANOUT
  {
    Prefix(key, level - 1) % FANOUT
  }

  function Capacity(height: nat): (c: nat)
    ensures c >= 1
  {
    if height == 0 then 1 else FANOUT * Capacity(height - 1)
  }

  /** MAX_KEY_ID */
  function MaxKey(height: nat): nat {
    if height == MAX_HEIGHT then KEYS - 1 else Capacity(height) - 1
  }

  lemma {:induction false} PrefixShift(key: nat, level: nat)
    ensures Prefix(key, level + 1) == Prefix(key / FANOUT, level)
  {
    if level > 0 { PrefixShift(key, level - 1); }
  }

  /** The digits up to `height` exhaust a key exactly when it is below the capacity. */
  lemma {:induction false} PrefixZero(key: nat, height: nat)
    ensures Prefix(key, height) == 0 <==> key < Capacity(height)
  {
    if height > 0 {
      PrefixShift(key, height - 1);
      PrefixZero(key / FANOUT, height - 1);
    }
  }

  lemma {:induction false} MaxKeyIs(key: nat, height: nat)
    requires key < KEYS && height <= MAX_HEIGHT
    ensures key <= MaxKey(height) <==> Prefix(key, height) == 0
    ensures height == MAX_HEIGHT ==> key <= MaxKey(height)
  {
    PrefixZero(key, height);
    assert Capacity(6) == 0x10_0000_0000 by {
      assert Capacity(1) == 64 && Capacity(2) == 0x1000 && Capacity(3) == 0x4_0000;
      assert Capacity(4) == 0x100_0000 && Capacity(5) == 0x4000_0000;
    }
  }

  lemma PrefixStep(key: nat, level: nat)
    requires level >= 1
    ensures Prefix(key, level - 1) == Prefix(key, level) * FANOUT + Digit(key, level)
  {
  }

  /** The digits of all levels determine the key. */
  lemma {:induction false} DigitsDetermine(a: nat, b: nat, height: nat)
    requires Prefix(a, height) == Prefix(b, height)
    requires forall l | 1 <= l <= height :: Digit(a, l) == Digit(b, l)
    ensures a == b
  {
    if height > 0 {
      PrefixStep(a, height);
      PrefixStep(b, height);
      DigitsDetermine(a, b, height - 1);
    }
  }

  /** So in a tree of any height two keys that fit and take the same path are the same key. */
  lemma {:induction false} SamePathSameKey(a: nat, b: nat, height: nat)
    requires height <= MAX_HEIGHT && a < KEYS && b < KEYS && a <= MaxKey(height) && b <= MaxKey(height)
    requires forall l | 1 <= l <= height :: Digit(a, l) == Digit(b, l)
    ensures a == b
  {
    MaxKeyIs(a, height);
    MaxKeyIs(b, height);
    DigitsDetermine(a, b, height);
  }

  // ----- The digits as the code computes them -----

  /** a & b */
  function And(a: nat, b: nat): nat {
    if a == 0 || b == 0 then 0 else (a % 2) * (b % 2) + 2 * And(a / 2, b / 2)
  }

  /** a << s, before it is cut to a word */
  function Shl(a: nat, s: nat): nat { if s == 0 then a else 2 * Shl(a, s - 1) }

  /** a >> s */
  function Shr(a: nat, s: nat): nat { if s == 0 then a else Shr(a / 2, s - 1) }

  /** NEXT_CHILD: the mask is shifted in 32 bits, and so loses its upper bits at the sixth level. */
  function NextChild(key: nat, level: nat): nat
    requires level >= 1
  {
    Shr(And(Shl(0x3F, 6 * (level - 1)) % WORD, key), 6 * (level - 1))
  }

  lemma {:induction false} AndShifted(a: nat, b: nat, s: nat)
    ensures And(Shl(a, s), b) == Shl(And(a, Shr(b, s)), s)
  {
    if s > 0 { AndShifted(a, b / 2, s - 1); }
  }

  lemma {:induction false} ShiftedBack(a: nat, s: nat)
    ensures Shr(Shl(a, s), s) == a
  {
    if s > 0 { ShiftedBack(a, s - 1); }
  }

  lemma {:induction false} AndOdd(a: nat, b: nat)
    ensures And(2 * a + 1, b) == b % 2 + 2 * And(a, b / 2)
  {
  }

  lemma {:induction false} HalfMod(x: nat, m: nat)
    requires m > 0
    ensures x % 2 + 2 * (x / 2 % m) == x % (2 * m)
  {
    var q, r := x / 2 / m, x / 2 % m;
    assert x / 2 == q * m + r;
    assert q * (2 * m) == 2 * (q * m);
    ModUnique(x, q, x % 2 + 2 * r, 2 * m);
  }

  lemma {:induction false} LowTwo(x: nat)
    ensures And(3, x) == x % 4
  {
    HalfMod(x, 2);
    AndOdd(1, x);
    AndOdd(0, x / 2);
  }

  lemma {:induction false} LowThree(x: nat)
    ensures And(7, x) == x % 8
  {
    hide And;
    HalfMod(x, 4);
    AndOdd(3, x);
    LowTwo(x / 2);
  }

  lemma {:induction false} LowFour(x: nat)
    ensures And(15, x) == x % 16
  {
    hide And;
    HalfMod(x, 8);
    AndOdd(7, x);
    LowThree(x / 2);
  }

  lemma {:induction false} LowFive(x: nat)
    ensures And(31, x) == x % 32
  {
    hide And;
    HalfMod(x, 16);
    AndOdd(15, x);
    LowFour(x / 2);
  }

  lemma {:induction false} LowSix(x: nat)
    ensures And(63, x) == x % 64
  {
    hide And;
    HalfMod(x, 32);
    AndOdd(31, x);
    LowFive(x / 2);
  }

  lemma {:induction false} ShrSix(a: nat, s: nat)
    ensures Shr(a, s + 6) == Shr(a / FANOUT, s)
  {
    var b := a / 2;
    var c := b / 2;
    var d := c / 2;
    var e := d / 2;
    var f := e / 2;
    assert Shr(a, s + 6) == Shr(b, s + 5) && Shr(b, s + 5) == Shr(c, s + 4) && Shr(c, s + 4) == Shr(d, s + 3);
    assert Shr(d, s + 3) == Shr(e, s + 2) && Shr(e, s + 2) == Shr(f, s + 1) && Shr(f, s + 1) == Shr(f / 2, s);
    assert c == a / 4 && d == a / 8 && e == a / 16 && f == a / 32;
  }

  lemma {:induction false} ShlSix(a: nat, s: nat)
    ensures Shl(a, s + 6) == FANOUT * Shl(a, s)
  {
    assert Shl(a, s + 6) == 2 * Shl(a, s + 5) && Shl(a, s + 5) == 2 * Shl(a, s + 4) && Shl(a, s + 4) == 2 * Shl(a, s + 3);
    assert Shl(a, s + 3) == 2 * Shl(a, s + 2) && Shl(a, s + 2) == 2 * Shl(a, s + 1) && Shl(a, s + 1) == 2 * Shl(a, s);
  }

  lemma {:induction false} ShrPrefix(key: nat, level: nat)
    ensures Shr(key, 6 * level) == Prefix(key, level)
  {
    if level > 0 {
      PrefixShift(key, level - 1);
      ShrPrefix(key / FANOUT, level - 1);
      ShrSix(key, 6 * (level - 1));
    }
  }

  /** a << 6 * level */
  lemma {:induction false} ShlCapacity(a: nat, level: nat)
    ensures Shl(a, 6 * level) == a * Capacity(level)
  {
    if level > 0 {
      ShlCapacity(a, level - 1);
      ShlSix(a, 6 * (level - 1));
    }
  }

  lemma {:induction false} MaskInWord(level: nat)
    requires 1 <= level <= MAX_HEIGHT
    ensures Shl(0x3F, 6 * (level - 1)) % WORD == Shl(if level < MAX_HEIGHT then 0x3F else 3, 6 * (level - 1))
  {
    ShlCapacity(0x3F, level - 1);
    ShlCapacity(3, level - 1);
    hide Shl;
    assert Capacity(1) == 64 && Capacity(2) == 0x1000 && Capacity(3) == 0x4_0000;
    assert Capacity(4) == 0x100_0000 && Capacity(5) == 0x4000_0000;
  }

  /** At every level of every tree the macro yields the digit of the key. */
  lemma {:induction false} NextChildIsDigit(key: nat, level: nat)
    requires key < KEYS && 1 <= level <= MAX_HEIGHT
    ensures NextChild(key, level) == Digit(key, level)
  {
    var mask, s := if level < MAX_HEIGHT then 0x3F else 3, 6 * (level - 1);
    var x := Shr(key, s);
    MaskInWord(level);
    AndShifted(mask, key, s);
    ShiftedBack(And(mask, x), s);
    ShrPrefix(key, level - 1);
    LowSix(x);
    LowTwo(x);
    if level == MAX_HEIGHT { TopDigit(key); }
  }

  /** Two bits are left for the sixth digit. */
  lemma {:induction false} TopDigit(key: nat)
    requires key < KEYS
    ensures Prefix(key, MAX_HEIGHT - 1) < 4
  {
    assert Prefix(key, 1) < 0x400_0000;
    assert Prefix(key, 2) < 0x10_0000;
    assert Prefix(key, 3) < 0x4000;
    assert Prefix(key, 4) < 0x100;
  }

  // ----- Trees -----

  datatype Tree<T> = Tree(root: Child<T>, height: nat, maxKey: nat, nodes: map<nat, seq<Child<T>>>)

  /** A child stands one level lower, under one more digit. */
  predicate ChildOk<T>(keys: set<nat>, place: map<nat, Place>, at: Place, d: nat, c: Child<T>) {
    match c
    case Null => true
    case Item(_) => at.level == 1
    case Node(m) =>
      at.level > 1 && m in keys && m in place && place[m] == Place(at.level - 1, at.prefix * FANOUT + d)
  }

  ghost predicate NodeOk<T>(nodes: map<nat, seq<Child<T>>>, place: map<nat, Place>, n: nat) {
    && n in nodes && n in place && |nodes[n]| == FANOUT && place[n].level >= 1
    && forall d | 0 <= d < FANOUT :: ChildOk(nodes.Keys, place, place[n], d, nodes[n][d])
  }

  /** The nodes, without what is said about the root. */
  ghost predicate Nodes<T>(nodes: map<nat, seq<Child<T>>>, place: map<nat, Place>) {
    forall n {:trigger NodeOk(nodes, place, n)} | n in nodes :: NodeOk(nodes, place, n)
  }

  ghost predicate Inv<T>(t: Tree<T>, place: map<nat, Place>) {
    && t.height <= MAX_HEIGHT && t.maxKey == MaxKey(t.height)
    && (t.height == 0 ==> t.root.Null?)
    && (t.height > 0 ==> t.root.Node? && t.root.id in t.nodes && t.root.id in place
                         && place[t.root.id] == Place(t.height, 0))
    && Nodes(t.nodes, place)
  }

  /** What the descent from node `n` at `level` finds for a key. */
  function Descend<T>(nodes: map<nat, seq<Child<T>>>, n: nat, level: nat, key: nat): Child<T>
    decreases level
  {
    if level == 0 || n !in nodes || |nodes[n]| != FANOUT then Null
    else
      var c := nodes[n][Digit(key, level)];
      if level == 1 then c else if c.Node? then Descend(nodes, c.id, level - 1, key) else Null
  }

  /** radix_tree_lookup */
  function Get<T>(t: Tree<T>, key: nat): Child<T> {
    if !t.root.Node? || key > t.maxKey then Null else Descend(t.nodes, t.root.id, t.height, key)
  }

  /** A node without children. */
  function Blank<T>(): seq<Child<T>> { seq(FANOUT, i => Null) }

  // ----- Growing -----

  function Expanded<T>(t: Tree<T>, r: nat): Tree<T> {
    Tree(Node(r), t.height + 1, MaxKey(t.height + 1), t.nodes[r := Blank()[0 := t.root]])
  }

  /** New nodes do not show in descents that do not reach them. */
  lemma {:induction false} DescendFrame<T>(nodes: map<nat, seq<Child<T>>>, nodes': map<nat, seq<Child<T>>>,
                                           place: map<nat, Place>, n: nat, level: nat, key: nat)
    requires Nodes(nodes, place)
    requires forall m | m in nodes :: m in nodes' && nodes'[m] == nodes[m]
    requires n in nodes && n in place && place[n].level == level
    ensures Descend(nodes', n, level, key) == Descend(nodes, n, level, key)
    decreases level
  {
    assert NodeOk(nodes, place, n);
    var c := nodes[n][Digit(key, level)];
    assert ChildOk(nodes.Keys, place, place[n], Digit(key, level), c);
    if level > 1 && c.Node? { DescendFrame(nodes, nodes', place, c.id, level - 1, key); }
  }

  lemma {:induction false} ExpandKeeps<T>(t: Tree<T>, place: map<nat, Place>, r: nat)
    requires Inv(t, place) && t.height < MAX_HEIGHT && r !in t.nodes
    ensures Inv(Expanded(t, r), place[r := Place(t.height + 1, 0)])
  {
    var t', place' := Expanded(t, r), place[r := Place(t.height + 1, 0)];
    forall n | n in t'.nodes ensures NodeOk(t'.nodes, place', n) {
      if n != r {
        assert NodeOk(t.nodes, place, n);
        forall d | 0 <= d < FANOUT ensures ChildOk(t'.nodes.Keys, place', place'[n], d, t'.nodes[n][d]) {
          assert ChildOk(t.nodes.Keys, place, place[n], d, t.nodes[n][d]);
        }
      }
    }
  }

  /** Growing the tree changes no lookup. */
  lemma {:induction false} ExpandPreserves<T>(t: Tree<T>, place: map<nat, Place>, r: nat, key: nat)
    requires Inv(t, place) && t.height < MAX_HEIGHT && r !in t.nodes && key < KEYS
    ensures Get(Expanded(t, r), key) == Get(t, key)
  {
    var t', h := Expanded(t, r), t.height;
    MaxKeyIs(key, h);
    MaxKeyIs(key, h + 1);
    PrefixStep(key, h + 1);
    if key <= t.maxKey {
      assert Digit(key, h + 1) == 0;
      if h > 0 { DescendFrame(t.nodes, t'.nodes, place, t.root.id, h, key); }
    } else if key <= t'.maxKey {
      assert Digit(key, h + 1) != 0;
    }
  }

  // ----- Inserting -----

  /** create_node: a blank node becomes child `d` of `n`. */
  function Grown<T>(nodes: map<nat, seq<Child<T>>>, n: nat, d: nat, m: nat): map<nat, seq<Child<T>>>
    requires n in nodes && d < |nodes[n]|
  {
    nodes[m := Blank()][n := nodes[n][d := Node(m)]]
  }

  lemma {:induction false} GrowKeeps<T>(nodes: map<nat, seq<Child<T>>>, place: map<nat, Place>, n: nat, d: nat, m: nat)
    requires Nodes(nodes, place) && n in nodes && n in place && m !in nodes && place[n].level > 1 && d < |nodes[n]|
    ensures Nodes(Grown(nodes, n, d, m), place[m := Place(place[n].level - 1, place[n].prefix * FANOUT + d)])
  {
    var nodes', place' := Grown(nodes, n, d, m), place[m := Place(place[n].level - 1, place[n].prefix * FANOUT + d)];
    forall x | x in nodes' ensures NodeOk(nodes', place', x) {
      if x != m {
        assert NodeOk(nodes, place, x);
        forall e | 0 <= e < FANOUT ensures ChildOk(nodes'.Keys, place', place'[x], e, nodes'[x][e]) {
          assert ChildOk(nodes.Keys, place, place[x], e, nodes[x][e]);
        }
      }
    }
  }

  /** A blank node where there was none changes no descent. */
  lemma {:induction false} GrowPreserves<T>(nodes: map<nat, seq<Child<T>>>, place: map<nat, Place>, n: nat, d: nat, m: nat,
                                            x: nat, level: nat, key: nat)
    requires Nodes(nodes, place) && n in nodes && n in place && m !in nodes && place[n].level > 1
    requires d < |nodes[n]| && nodes[n][d] == Null
    requires x in nodes && x in place && place[x].level == level
    ensures Descend(Grown(nodes, n, d, m), x, level, key) == Descend(nodes, x, level, key)
    decreases level
  {
    var nodes' := Grown(nodes, n, d, m);
    assert NodeOk(nodes, place, x);
    var e := Digit(key, level);
    var c := nodes[x][e];
    assert ChildOk(nodes.Keys, place, place[x], e, c);
    if level > 1 {
      if c.Node? {
        GrowPreserves(nodes, place, n, d, m, c.id, level - 1, key);
      } else if x == n && e == d {
        assert nodes'[x][e] == Node(m) && nodes'[m] == Blank<T>();
      }
    }
  }

  /** The descent for a key passes through `n` at `low`. */
  predicate Reaches<T>(nodes: map<nat, seq<Child<T>>>, x: nat, level: nat, key: nat, n: nat, low: nat)
    decreases level
  {
    if level <= low then level == low && x == n
    else
      && x in nodes && |nodes[x]| == FANOUT
      && (var c := nodes[x][Digit(key, level)]; c.Node? && Reaches(nodes, c.id, level - 1, key, n, low))
  }

  lemma {:induction false} ReachesDown<T>(nodes: map<nat, seq<Child<T>>>, x: nat, level: nat, key: nat, n: nat, low: nat)
    requires Reaches(nodes, x, level, key, n, low) && low >= 1
    requires n in nodes && |nodes[n]| == FANOUT && nodes[n][Digit(key, low)].Node?
    ensures Reaches(nodes, x, level, key, nodes[n][Digit(key, low)].id, low - 1)
    decreases level
  {
    if level > low { ReachesDown(nodes, nodes[x][Digit(key, level)].id, level - 1, key, n, low); }
  }

  lemma {:induction false} GrowReaches<T>(nodes: map<nat, seq<Child<T>>>, place: map<nat, Place>, n: nat, d: nat, m: nat,
                                          x: nat, level: nat, key: nat)
    requires Nodes(nodes, place) && n in nodes && n in place && m !in nodes && d < |nodes[n]|
    requires x in nodes && x in place && place[x].level == level && Reaches(nodes, x, level, key, n, place[n].level)
    ensures Reaches(Grown(nodes, n, d, m), x, level, key, n, place[n].level)
    decreases level
  {
    if level > place[n].level {
      assert NodeOk(nodes, place, x);
      assert ChildOk(nodes.Keys, place, place[x], Digit(key, level), nodes[x][Digit(key, level)]);
      GrowReaches(nodes, place, n, d, m, nodes[x][Digit(key, level)].id, level - 1, key);
    }
  }

  /** What a descent finds is what the node it reaches holds. */
  lemma {:induction false} ReachesFinds<T>(nodes: map<nat, seq<Child<T>>>, x: nat, level: nat, key: nat, n: nat)
    requires Reaches(nodes, x, level, key, n, 1) && level >= 1 && n in nodes && |nodes[n]| == FANOUT
    ensures Descend(nodes, x, level, key) == nodes[n][Digit(key, 1)]
    decreases level
  {
    if level > 1 { ReachesFinds(nodes, nodes[x][Digit(key, level)].id, level - 1, key, n); }
  }

  /** The store of an item into its leaf. */
  function Stored<T>(nodes: map<nat, seq<Child<T>>>, n: nat, d: nat, v: T): map<nat, seq<Child<T>>>
    requires n in nodes && d < |nodes[n]|
  {
    nodes[n := nodes[n][d := Item(v)]]
  }

  lemma {:induction false} StoreKeeps<T>(nodes: map<nat, seq<Child<T>>>, place: map<nat, Place>, n: nat, d: nat, v: T)
    requires Nodes(nodes, place) && n in nodes && n in place && place[n].level == 1 && d < |nodes[n]|
    ensures Nodes(Stored(nodes, n, d, v), place)
  {
    var nodes' := Stored(nodes, n, d, v);
    assert nodes'.Keys == nodes.Keys;
    forall x | x in nodes' ensures NodeOk(nodes', place, x) {
      assert NodeOk(nodes, place, x);
      forall e | 0 <= e < FANOUT ensures ChildOk(nodes'.Keys, place, place[x], e, nodes'[x][e]) {
        assert ChildOk(nodes.Keys, place, place[x], e, nodes[x][e]);
      }
    }
  }

  /** Descents for other keys do not see the stored item. */
  lemma {:induction false} StorePreserves<T>(nodes: map<nat, seq<Child<T>>>, place: map<nat, Place>, n: nat, d: nat, v: T,
                                             x: nat, level: nat, key: nat)
    requires Nodes(nodes, place) && n in nodes && n in place && place[n].level == 1 && d < |nodes[n]|
    requires x in nodes && x in place && place[x] == Place(level, Prefix(key, level))
    requires key != place[n].prefix * FANOUT + d
    ensures Descend(Stored(nodes, n, d, v), x, level, key) == Descend(nodes, x, level, key)
    decreases level
  {
    assert NodeOk(nodes, place, x);
    var e := Digit(key, level);
    PrefixStep(key, level);
    assert ChildOk(nodes.Keys, place, place[x], e, nodes[x][e]);
    if level > 1 && nodes[x][e].Node? {
      StorePreserves(nodes, place, n, d, v, nodes[x][e].id, level - 1, key);
    }
  }

  lemma {:induction false} StoreReaches<T>(nodes: map<nat, seq<Child<T>>>, place: map<nat, Place>, n: nat, d: nat, v: T,
                                           x: nat, level: nat, key: nat)
    requires Nodes(nodes, place) && n in nodes && n in place && place[n].level == 1 && d < |nodes[n]|
    requires x in nodes && x in place && place[x].level == level && Reaches(nodes, x, level, key, n, 1)
    ensures Reaches(Stored(nodes, n, d, v), x, level, key, n, 1)
    decreases level
  {
    if level > 1 {
      assert NodeOk(nodes, place, x);
      assert ChildOk(nodes.Keys, place, place[x], Digit(key, level), nodes[x][Digit(key, level)]);
      StoreReaches(nodes, place, n, d, v, nodes[x][Digit(key, level)].id, level - 1, key);
    }
  }

  /** A descent that meets a missing node finds nothing. */
  lemma {:induction false} StopsAt<T>(nodes: map<nat, seq<Child<T>>>, x: nat, level: nat, key: nat, n: nat, low: nat)
    requires Reaches(nodes, x, level, key, n, low) && low >= 1
    requires n in nodes && |nodes[n]| == FANOUT && nodes[n][Digit(key, low)] == Null
    ensures Descend(nodes, x, level, key) == Null
    decreases level
  {
    if level > low { StopsAt(nodes, nodes[x][Digit(key, level)].id, level - 1, key, n, low); }
  }

  class RadixTree<T(!new)> {
    var root: Child<T>
    var height: nat
    var maxKey: nat
    var nodes: map<nat, seq<Child<T>>>
    var nextId: nat                    // a fresh address
    var supply: nat                    // how many nodes kmem_alloc will still hand out
    ghost var place: map<nat, Place>

    ghost function Now(): Tree<T>
      reads this
    {
      Tree(root, height, maxKey, nodes)
    }

    ghost predicate Valid()
      reads this
    {
      Inv(Now(), place) && forall n | n in nodes :: n < nextId
    }

    /** radix_tree_init */
    constructor (supply: nat)
      ensures Valid() && this.supply == supply && forall k :: Get(Now(), k) == Null
    {
      this.supply := supply;
      root, height, maxKey, nodes, nextId, place := Null, 0, 0, map[], 0, map[];
    }

    /** radix_item_info_lookup and radix_tree_lookup */
    method Lookup(key: nat) returns (c: Child<T>)
      requires Valid()
      ensures c == Get(Now(), key)
    {
      if root.Null? { return Null; }
      if key > maxKey { return Null; }
      var n, level := root.id, height;
      while level > 1
        invariant 1 <= level <= height && n in nodes && n in place && place[n].level == level
        invariant Descend(nodes, n, level, key) == Get(Now(), key)
        decreases level
      {
        assert NodeOk(nodes, place, n);
        c := nodes[n][Digit(key, level)];
        assert ChildOk(nodes.Keys, place, place[n], Digit(key, level), c);
        if c.Null? { return; }
        n, level := c.id, level - 1;
      }
      assert NodeOk(nodes, place, n);
      c := nodes[n][Digit(key, 1)];
    }

    /** expand_tree */
    method Expand() returns (err: Error)
      requires Valid() && height < MAX_HEIGHT
      modifies this
      ensures Valid()
      ensures err == if old(supply) == 0 then NoMemory else Ok
      ensures err.Ok? ==> height == old(height) + 1 && supply == old(supply) - 1
      ensures err.NoMemory? ==> Now() == old(Now())
      ensures forall k | 0 <= k < KEYS :: Get(Now(), k) == old(Get(Now(), k))
    {
      if supply == 0 { return NoMemory; }
      ghost var was := Now();
      ExpandKeeps(was, place, nextId);
      forall k | 0 <= k < KEYS ensures Get(Expanded(was, nextId), k) == Get(was, k) {
        ExpandPreserves(was, place, nextId, k);
      }
      nodes := nodes[nextId := Blank<T>()[0 := root]];
      root := Node(nextId);
      height := height + 1;
      maxKey := MaxKey(height);
      place := place[nextId := Place(height, 0)];
      nextId, supply := nextId + 1, supply - 1;
      err := Ok;
      assert Now() == Expanded(was, nextId - 1);
    }

    /** create_node */
    method CreateNode(n: nat, d: nat, ghost key: nat) returns (err: Error)
      requires Valid() && n in nodes && n in place && d < |nodes[n]| && nodes[n][d] == Null && place[n].level > 1
      requires root.Node? && Reaches(nodes, root.id, height, key, n, place[n].level)
      modifies this`nodes, this`place, this`nextId, this`supply
      ensures Valid() && n in nodes && n in place && place[n] == old(place[n])
      ensures err == if old(supply) == 0 then NoMemory else Ok
      ensures err.Ok? ==> supply == old(supply) - 1 && d < |nodes[n]| && nodes[n][d].Node?
      ensures err.Ok? ==> Reaches(nodes, root.id, height, key, n, place[n].level)
      ensures err.NoMemory? ==> Now() == old(Now())
      ensures forall k | 0 <= k < KEYS :: Get(Now(), k) == old(Get(Now(), k))
    {
      if supply == 0 { return NoMemory; }
      ghost var was, wasPlace := nodes, place;
      GrowKeeps(nodes, place, n, d, nextId);
      GrowReaches(nodes, place, n, d, nextId, root.id, height, key);
      forall k | 0 <= k < KEYS
        ensures Descend(Grown(was, n, d, nextId), root.id, height, k) == Descend(was, root.id, height, k) {
        GrowPreserves(was, wasPlace, n, d, nextId, root.id, height, k);
      }
      nodes := nodes[nextId := Blank()];
      nodes := nodes[n := nodes[n][d := Node(nextId)]];
      place := place[nextId := Place(place[n].level - 1, place[n].prefix * FANOUT + d)];
      assert nodes == Grown(was, n, d, nextId);
      nextId, supply := nextId + 1, supply - 1;
      err := Ok;
    }

    /** The first loop of radix_tree_insert: grow until the key fits. */
    method Fit(key: nat) returns (err: Error)
      requires Valid() && key < KEYS
      modifies this
      ensures Valid() && (err.Ok? || err.NoMemory?)
      ensures err.Ok? ==> root.Node? && key <= maxKey && supply + height == old(supply + height)
      ensures err.NoMemory? ==> old(supply) < MAX_HEIGHT && old(Get(Now(), key)) == Null
      ensures old(height) <= height && (old(height) < height && height > 1 ==> MaxKey(height - 1) < key)
      ensures old(Get(Now(), key)) != Null ==> Now() == old(Now())
      ensures forall k | 0 <= k < KEYS :: Get(Now(), k) == old(Get(Now(), k))
    {
      err := Ok;
      while height == 0 || maxKey < key
        invariant Valid() && err == Ok && supply + height == old(supply + height)
        invariant old(height) <= height && (old(height) < height && height > 1 ==> MaxKey(height - 1) < key)
        invariant old(Get(Now(), key)) != Null ==> Now() == old(Now())
        invariant forall k | 0 <= k < KEYS :: Get(Now(), k) == old(Get(Now(), k))
        decreases MAX_HEIGHT - height
      {
        MaxKeyIs(key, height);
        err := Expand();
        if err.NoMemory? { return; }
      }
    }

    /** The second loop of radix_tree_insert: the leaf node of the key, created on the way where it is missing. */
    method Leaf(key: nat) returns (err: Error, n: nat)
      requires Valid() && key < KEYS && root.Node? && key <= maxKey
      modifies this`nodes, this`place, this`nextId, this`supply
      ensures Valid() && (err.Ok? || err.NoMemory?)
      ensures err.Ok? ==> n in nodes && n in place && Reaches(nodes, root.id, height, key, n, 1)
      ensures err.Ok? ==> place[n] == Place(1, Prefix(key, 1))
      ensures err.NoMemory? ==> old(supply) < height - 1 && old(Get(Now(), key)) == Null
      ensures old(Get(Now(), key)) != Null ==> Now() == old(Now())
      ensures forall k | 0 <= k < KEYS :: Get(Now(), k) == old(Get(Now(), k))
    {
      var level := height;
      n, err := root.id, Ok;
      MaxKeyIs(key, height);
      while level > 1
        invariant Valid() && err == Ok && 1 <= level <= height && n in nodes && n in place
        invariant place[n] == Place(level, Prefix(key, level)) && Reaches(nodes, root.id, height, key, n, level)
        invariant supply + height - level >= old(supply)
        invariant old(Get(Now(), key)) != Null ==> Now() == old(Now())
        invariant forall k | 0 <= k < KEYS :: Get(Now(), k) == old(Get(Now(), k))
        decreases level
      {
        assert NodeOk(nodes, place, n);
        var d := Digit(key, level);
        assert ChildOk(nodes.Keys, place, place[n], d, nodes[n][d]);
        if nodes[n][d].Null? {
          StopsAt(nodes, root.id, height, key, n, level);
          err := CreateNode(n, d, key);
          if err.NoMemory? { return; }
        }
        assert NodeOk(nodes, place, n);
        assert ChildOk(nodes.Keys, place, place[n], d, nodes[n][d]);
        ReachesDown(nodes, root.id, height, key, n, level);
        PrefixStep(key, level);
        n, level := nodes[n][d].id, level - 1;
      }
    }

    /**
     radix_tree_insert.  Whatever the outcome, no other key changes; a present key is
     refused and leaves the tree as it is; the tree grows no higher than the key needs;
     and memory can only run out when fewer than 11 nodes are left.
     */
    method Insert(key: nat, item: T) returns (err: Error)
      requires Valid() && key < KEYS
      modifies this
      ensures Valid()
      ensures err.Exists? <==> old(Get(Now(), key)) != Null
      ensures err.Exists? ==> Now() == old(Now())
      ensures err.NoMemory? ==> old(supply) < 11
      ensures old(height) <= height && (old(height) < height && height > 1 ==> MaxKey(height - 1) < key)
      ensures Get(Now(), key) == if err.Ok? then Item(item) else old(Get(Now(), key))
      ensures forall k | 0 <= k < KEYS && k != key :: Get(Now(), k) == old(Get(Now(), k))
    {
      err := Fit(key);
      if err.NoMemory? { return; }
      var n;
      err, n := Leaf(key);
      if err.NoMemory? { return; }
      assert NodeOk(nodes, place, n);
      var d := Digit(key, 1);
      ReachesFinds(nodes, root.id, height, key, n);
      if !nodes[n][d].Null? { return Exists; }
      err := Put(key, n, item);
    }

    /** The store of radix_tree_insert. */
    method Put(key: nat, n: nat, item: T) returns (err: Error)
      requires Valid() && key < KEYS && root.Node? && key <= maxKey && n in nodes && n in place
      requires place[n] == Place(1, Prefix(key, 1)) && Reaches(nodes, root.id, height, key, n, 1)
      modifies this`nodes
      ensures Valid() && err == Ok && Get(Now(), key) == Item(item)
      ensures forall k | 0 <= k < KEYS && k != key :: Get(Now(), k) == old(Get(Now(), k))
    {
      var d := Digit(key, 1);
      assert NodeOk(nodes, place, n);
      StoreKeeps(nodes, place, n, d, item);
      StoreReaches(nodes, place, n, d, item, root.id, height, key);
      PrefixStep(key, 1);
      forall k | 0 <= k < KEYS && k != key && k <= maxKey
        ensures Descend(Stored(nodes, n, d, item), root.id, height, k) == Descend(nodes, root.id, height, k)
      {
        MaxKeyIs(k, height);
        StorePreserves(nodes, place, n, d, item, root.id, height, k);
      }
      nodes := nodes[n := nodes[n][d := Item(item)]];
      ReachesFinds(nodes, root.id, height, key, n);
      err := Ok;
    }
  }
}
