/** lib/binary_tree.c: the search tree on a heap of nodes, changed in place.

    `Shape` is the specification's picture of the pointer structure: which node
    hangs where.  `View` reads keys and values through it into a tree value, and
    every operation is proved equal to the operation of module SearchTree. */
module BinaryTree {
  import opened Collections
  import opened Keys
  import opened SearchTree

  class BTNode<V> {
    var left: BTNode?<V>
    var right: BTNode?<V>
    var key: Key
    var value: V

    constructor (key: Key, value: V)
      ensures left == null && right == null && this.key == key && this.value == value
    {
      left, right := null, null;
      this.key, this.value := key, value;
    }
  }

  datatype Shape<V> = Nil | At(left: Shape<V>, node: BTNode<V>, right: Shape<V>)

  ghost function Nodes<V>(s: Shape<V>): set<BTNode<V>> {
    match s
    case Nil => {}
    case At(l, n, r) => Nodes(l) + {n} + Nodes(r)
  }

  /** No node hangs in two places. */
  ghost predicate Distinct<V>(s: Shape<V>) {
    s.At? ==>
      && s.node !in Nodes(s.left) && s.node !in Nodes(s.right)
      && Nodes(s.left) !! Nodes(s.right)
      && Distinct(s.left) && Distinct(s.right)
  }

  // The contents of the nodes of a set, as a value.

  datatype Cell<V> = Cell(left: BTNode?<V>, right: BTNode?<V>, key: Key, value: V)

  ghost function Snap<V>(ns: set<BTNode<V>>): (h: map<BTNode<V>, Cell<V>>)
    reads ns
    ensures h.Keys == ns
  {
    map n | n in ns :: Cell(n.left, n.right, n.key, n.value)
  }

  ghost predicate Linked<V>(h: map<BTNode<V>, Cell<V>>, n: BTNode?<V>, s: Shape<V>) {
    match s
    case Nil => n == null
    case At(l, node, r) => n == node && node in h && Linked(h, h[node].left, l) && Linked(h, h[node].right, r)
  }

  ghost function View<V>(h: map<BTNode<V>, Cell<V>>, s: Shape<V>): Tree<V>
    requires Nodes(s) <= h.Keys
  {
    match s
    case Nil => Leaf
    case At(l, n, r) => Node(View(h, l), h[n].key, h[n].value, View(h, r))
  }

  lemma {:induction false} Frame<V>(h: map<BTNode<V>, Cell<V>>, h': map<BTNode<V>, Cell<V>>, n: BTNode?<V>, s: Shape<V>)
    requires Nodes(s) <= h.Keys && Nodes(s) <= h'.Keys
    requires forall o :: o in Nodes(s) ==> h[o] == h'[o]
    ensures Linked(h, n, s) == Linked(h', n, s)
    ensures View(h, s) == View(h', s)
    decreases s
  {
    if s.At? {
      Frame(h, h', h[s.node].left, s.left);
      Frame(h, h', h[s.node].right, s.right);
    }
  }

  lemma SingleNode<V>(n: BTNode<V>)
    requires n.left == null && n.right == null
    ensures var s := At(Nil, n, Nil);
      && Nodes(s) == {n} && Distinct(s) && Linked(Snap(Nodes(s)), n, s)
      && View(Snap(Nodes(s)), s) == Node(Leaf, n.key, n.value, Leaf)
  {
    assert Snap(Nodes(At(Nil, n, Nil)))[n] == Cell(null, null, n.key, n.value);
  }

  // Paths: false goes left, true goes right.

  ghost function Child<V>(s: Shape<V>, right: bool): Shape<V>
    requires s.At?
  {
    if right then s.right else s.left
  }

  ghost predicate ValidPath<V>(s: Shape<V>, p: seq<bool>) {
    p == [] || (s.At? && ValidPath(Child(s, p[0]), p[1..]))
  }

  ghost function SubShape<V>(s: Shape<V>, p: seq<bool>): Shape<V>
    requires ValidPath(s, p)
  {
    if p == [] then s else SubShape(Child(s, p[0]), p[1..])
  }

  ghost function Replace<V>(s: Shape<V>, p: seq<bool>, x: Shape<V>): Shape<V>
    requires ValidPath(s, p)
  {
    if p == [] then x
    else if p[0] then At(s.left, s.node, Replace(s.right, p[1..], x))
    else At(Replace(s.left, p[1..], x), s.node, s.right)
  }

  /** The node whose pointer the last step of a path follows. */
  ghost function Owner<V>(s: Shape<V>, p: seq<bool>): BTNode<V>
    requires p != [] && ValidPath(s, p)
  {
    if |p| == 1 then s.node else Owner(Child(s, p[0]), p[1..])
  }

  ghost predicate Last(p: seq<bool>)
    requires p != []
  {
    p[|p| - 1]
  }

  lemma {:induction false} PathFacts<V>(h: map<BTNode<V>, Cell<V>>, n: BTNode?<V>, s: Shape<V>, p: seq<bool>)
    requires ValidPath(s, p) && Distinct(s) && Linked(h, n, s)
    ensures Nodes(SubShape(s, p)) <= Nodes(s) && Distinct(SubShape(s, p))
    ensures p == [] ==> Linked(h, n, SubShape(s, p))
    ensures p != [] ==>
      var o := Owner(s, p);
      o in Nodes(s) - Nodes(SubShape(s, p)) && o in h
      && Linked(h, if Last(p) then h[o].right else h[o].left, SubShape(s, p))
  {
    if p != [] {
      PathFacts(h, if p[0] then h[s.node].right else h[s.node].left, Child(s, p[0]), p[1..]);
    }
  }

  lemma {:induction false} ExtendPath<V>(s: Shape<V>, p: seq<bool>, d: bool)
    requires ValidPath(s, p) && SubShape(s, p).At?
    ensures ValidPath(s, p + [d])
    ensures SubShape(s, p + [d]) == Child(SubShape(s, p), d)
    ensures Owner(s, p + [d]) == SubShape(s, p).node
  {
    if p == [] {
      assert p + [d] == [d];
    } else {
      ExtendPath(Child(s, p[0]), p[1..], d);
      assert (p + [d])[1..] == p[1..] + [d];
    }
  }

  /** h' is h but for the pointer stored in the owner's left or right field. */
  ghost predicate Stored<V>(h: map<BTNode<V>, Cell<V>>, h': map<BTNode<V>, Cell<V>>,
                            ns: set<BTNode<V>>, owner: BTNode<V>, right: bool, x: BTNode?<V>)
  {
    && ns <= h.Keys && ns <= h'.Keys
    && forall o :: o in ns ==>
         h'[o] == if o != owner then h[o] else if right then h[o].(right := x) else h[o].(left := x)
  }

  lemma {:induction false} ReplaceNodes<V>(s: Shape<V>, p: seq<bool>, x: Shape<V>)
    requires ValidPath(s, p) && Distinct(s) && Distinct(x)
    requires Nodes(x) !! Nodes(s) - Nodes(SubShape(s, p))
    ensures Nodes(SubShape(s, p)) <= Nodes(s)
    ensures Distinct(Replace(s, p, x))
    ensures Nodes(Replace(s, p, x)) == Nodes(s) - Nodes(SubShape(s, p)) + Nodes(x)
  {
    if p != [] {
      var c, o := Child(s, p[0]), Child(s, !p[0]);
      assert Nodes(s) == Nodes(c) + Nodes(o) + {s.node};
      SubNodes(c, p[1..]);
      assert Nodes(s) - Nodes(SubShape(s, p)) == (Nodes(c) - Nodes(SubShape(s, p))) + Nodes(o) + {s.node};
      ReplaceNodes(c, p[1..], x);
      assert Nodes(Replace(s, p, x)) == Nodes(Replace(c, p[1..], x)) + Nodes(o) + {s.node};
    }
  }

  lemma {:induction false} SubNodes<V>(s: Shape<V>, p: seq<bool>)
    requires ValidPath(s, p)
    ensures Nodes(SubShape(s, p)) <= Nodes(s)
  {
    if p != [] {
      SubNodes(Child(s, p[0]), p[1..]);
    }
  }

  /** Storing x's root at the end of a path replaces the subtree there, and nothing
      else.  `same` holds at least the nodes outside the replaced subtree. */
  lemma {:induction false} Relink<V>(h: map<BTNode<V>, Cell<V>>, h': map<BTNode<V>, Cell<V>>, same: set<BTNode<V>>,
                                     n: BTNode?<V>, s: Shape<V>, p: seq<bool>, xn: BTNode?<V>, x: Shape<V>)
    requires p != [] && ValidPath(s, p)
    requires Linked(h, n, s) && Distinct(s) && Nodes(s) <= h.Keys
    requires Nodes(s) - Nodes(SubShape(s, p)) <= same
    requires Stored(h, h', same, Owner(s, p), Last(p), xn)
    requires Linked(h', xn, x) && Nodes(x) <= h'.Keys
    requires Nodes(Replace(s, p, x)) <= h'.Keys
    ensures Linked(h', n, Replace(s, p, x))
    ensures View(h', Replace(s, p, x)) == ReplaceTree(View(h, s), p, View(h', x))
  {
    var c, o := Child(s, p[0]), Child(s, !p[0]);
    var m := if p[0] then h[s.node].right else h[s.node].left;
    PathFacts(h, m, c, p[1..]);
    assert Nodes(SubShape(s, p)) <= Nodes(c);
    Frame(h, h', if p[0] then h[s.node].left else h[s.node].right, o);
    if |p| > 1 {
      Relink(h, h', same, m, c, p[1..], xn, x);
    }
  }

  /** Relink, for snapshots of exactly the nodes involved. */
  lemma Graft<V>(h: map<BTNode<V>, Cell<V>>, hx: map<BTNode<V>, Cell<V>>, h': map<BTNode<V>, Cell<V>>,
                 n: BTNode?<V>, s: Shape<V>, p: seq<bool>, xn: BTNode?<V>, x: Shape<V>)
    requires p != [] && ValidPath(s, p)
    requires h.Keys == Nodes(s) && hx.Keys == Nodes(x) && h'.Keys == Nodes(Replace(s, p, x))
    requires Linked(h, n, s) && Distinct(s) && Linked(hx, xn, x) && Distinct(x)
    requires Nodes(x) !! Nodes(s) - Nodes(SubShape(s, p))
    requires forall o :: o in Nodes(x) && o in h' ==> h'[o] == hx[o]
    requires forall o :: o in Nodes(s) - Nodes(SubShape(s, p)) && o in h' ==>
      h'[o] == if o != Owner(s, p) then h[o] else if Last(p) then h[o].(right := xn) else h[o].(left := xn)
    ensures Linked(h', n, Replace(s, p, x))
    ensures View(h', Replace(s, p, x)) == ReplaceTree(View(h, s), p, View(hx, x))
  {
    ReplaceNodes(s, p, x);
    Frame(hx, h', xn, x);
    Relink(h, h', Nodes(s) - Nodes(SubShape(s, p)), n, s, p, xn, x);
  }

  /** Replacing a child of the subtree at p leaves the way to p as it was. */
  lemma {:induction false} ReplaceChild<V>(s: Shape<V>, p: seq<bool>, d: bool, x: Shape<V>)
    requires ValidPath(s, p) && SubShape(s, p).At?
    ensures ValidPath(s, p + [d])
    ensures var sub, s' := SubShape(s, p), Replace(s, p + [d], x);
      && ValidPath(s', p) && (p != [] ==> Owner(s', p) == Owner(s, p))
      && SubShape(s', p) == (if d then At(sub.left, sub.node, x) else At(x, sub.node, sub.right))
      && Replace(s', p, Nil) == Replace(s, p, Nil)
  {
    if p == [] {
      assert p + [d] == [d] && [d][1..] == [];
    } else {
      assert (p + [d])[1..] == p[1..] + [d];
      ReplaceChild(Child(s, p[0]), p[1..], d, x);
    }
  }

  lemma {:induction false} ReplaceSame<V>(s: Shape<V>, p: seq<bool>)
    requires ValidPath(s, p)
    ensures Replace(s, p, SubShape(s, p)) == s
  {
    if p != [] {
      ReplaceSame(Child(s, p[0]), p[1..]);
    }
  }

  // The same paths in the tree value.

  ghost function SubTree<V>(t: Tree<V>, p: seq<bool>): Tree<V> {
    if p == [] || t.Leaf? then t else SubTree(if p[0] then t.right else t.left, p[1..])
  }

  ghost function Branch<V>(t: Tree<V>, right: bool): Tree<V> {
    if t.Leaf? then t else if right then t.right else t.left
  }

  ghost function ReplaceTree<V>(t: Tree<V>, p: seq<bool>, x: Tree<V>): Tree<V> {
    if p == [] || t.Leaf? then x
    else if p[0] then t.(right := ReplaceTree(t.right, p[1..], x))
    else t.(left := ReplaceTree(t.left, p[1..], x))
  }

  /** The way the comparisons with key lead, down to the key or to an empty link. */
  ghost function Route<V>(t: Tree<V>, key: Key): seq<bool> {
    if t.Leaf? || Strcmp(key, t.key) == 0 then []
    else if Strcmp(key, t.key) > 0 then [true] + Route(t.right, key)
    else [false] + Route(t.left, key)
  }

  lemma {:induction false} RouteStep<V>(t: Tree<V>, p: seq<bool>, key: Key)
    requires p <= Route(t, key)
    ensures p == Route(t, key) <==> SubTree(t, p).Leaf? || Strcmp(key, SubTree(t, p).key) == 0
    ensures p != Route(t, key) ==> p + [Strcmp(key, SubTree(t, p).key) > 0] <= Route(t, key)
  {
    if p != [] {
      var c := if p[0] then t.right else t.left;
      assert Route(t, key) == [p[0]] + Route(c, key);
      RouteStep(c, p[1..], key);
    }
  }

  /** What happens at the end of the route happens to the whole tree. */
  lemma {:induction false} RouteDecides<V>(t: Tree<V>, p: seq<bool>, key: Key)
    requires p <= Route(t, key)
    ensures Find(t, key) == Find(SubTree(t, p), key)
    ensures Delete(t, key) == ReplaceTree(t, p, Delete(SubTree(t, p), key))
  {
    if p != [] {
      RouteDecides(if p[0] then t.right else t.left, p[1..], key);
    }
  }

  lemma {:induction false} RouteInserts<V>(t: Tree<V>, p: seq<bool>, key: Key, value: V)
    requires p <= Route(t, key)
    ensures Insert(t, key, value) == ReplaceTree(t, p, Insert(SubTree(t, p), key, value))
  {
    if p != [] {
      RouteInserts(if p[0] then t.right else t.left, p[1..], key, value);
    }
  }

  lemma {:induction false} SubTreeWithin<V>(t: Tree<V>, p: seq<bool>, lo: real, hi: real) returns (lo': real, hi': real)
    requires Within(t, lo, hi)
    ensures Within(SubTree(t, p), lo', hi')
  {
    if p == [] || t.Leaf? {
      return lo, hi;
    } else if p[0] {
      lo', hi' := SubTreeWithin(t.right, p[1..], Rank(t.key), hi);
    } else {
      lo', hi' := SubTreeWithin(t.left, p[1..], lo, Rank(t.key));
    }
  }

  /** A child that has the key lies on the key's route. */
  lemma RouteToChild<V>(t: Tree<V>, p: seq<bool>, key: Key, d: bool)
    requires Bst(t) && p <= Route(t, key) && SubTree(t, p).Node?
    requires Branch(SubTree(t, p), d).Node? && Strcmp(Branch(SubTree(t, p), d).key, key) == 0
    ensures Route(t, key) == p + [d]
  {
    var sub := SubTree(t, p);
    var lo, hi := SubTreeWithin(t, p, -1.0, 1.0);
    StrcmpIsRankOrder(Branch(sub, d).key, key);
    StrcmpIsRankOrder(key, sub.key);
    RouteStep(t, p, key);
    assert Strcmp(key, sub.key) != 0 && (Strcmp(key, sub.key) > 0) == d;
    SubTreeConcat(t, p, [d]);
    StrcmpIsRankOrder(key, key);
    RouteStep(t, p + [d], key);
  }

  lemma {:induction false} InsertPresent<V>(t: Tree<V>, key: Key, value: V)
    requires Find(t, key).Some?
    ensures Insert(t, key, value) == t
  {
    if Strcmp(key, t.key) != 0 {
      InsertPresent(if Strcmp(key, t.key) > 0 then t.right else t.left, key, value);
    }
  }

  lemma {:induction false} ReplaceDeeper<V>(t: Tree<V>, p: seq<bool>, y: Tree<V>, q: seq<bool>, z: Tree<V>)
    requires SubTree(t, p).Node?
    ensures ReplaceTree(ReplaceTree(t, p, y), p + q, z) == ReplaceTree(t, p, ReplaceTree(y, q, z))
  {
    if p == [] {
      assert p + q == q;
    } else {
      assert (p + q)[1..] == p[1..] + q;
      ReplaceDeeper(if p[0] then t.right else t.left, p[1..], y, q, z);
    }
  }

  /** Overwriting the key and the value of one node leaves the links alone. */
  lemma {:induction false} Rekey<V>(h: map<BTNode<V>, Cell<V>>, h': map<BTNode<V>, Cell<V>>, n: BTNode?<V>,
                                    s: Shape<V>, p: seq<bool>)
    requires ValidPath(s, p) && SubShape(s, p).At? && Linked(h, n, s) && Distinct(s)
    requires Nodes(s) <= h.Keys && Nodes(s) <= h'.Keys
    requires forall o :: o in Nodes(s) ==>
      if o != SubShape(s, p).node then h'[o] == h[o]
      else h'[o].left == h[o].left && h'[o].right == h[o].right
    ensures Linked(h', n, s)
    ensures SubShape(s, p).node in Nodes(s) && SubTree(View(h, s), p).Node?
    ensures var c := h'[SubShape(s, p).node];
      View(h', s) == ReplaceTree(View(h, s), p, SubTree(View(h, s), p).(key := c.key, value := c.value))
  {
    if p == [] {
      Frame(h, h', h[s.node].left, s.left);
      Frame(h, h', h[s.node].right, s.right);
    } else {
      PathFacts(h, if p[0] then h[s.node].right else h[s.node].left, Child(s, p[0]), p[1..]);
      Frame(h, h', if p[0] then h[s.node].left else h[s.node].right, Child(s, !p[0]));
      Rekey(h, h', if p[0] then h[s.node].right else h[s.node].left, Child(s, p[0]), p[1..]);
    }
  }

  ghost predicate LeftSpine(q: seq<bool>) {
    forall i :: 0 <= i < |q| ==> !q[i]
  }

  /** The leftmost node holds the minimum, and splicing it out removes just that. */
  lemma {:induction false} LeftmostIsMinimum<V>(t: Tree<V>, q: seq<bool>)
    requires t.Node? && LeftSpine(q)
    requires SubTree(t, q).Node? && SubTree(t, q).left.Leaf?
    ensures Minimum(t) == (SubTree(t, q).key, SubTree(t, q).value)
    ensures RemoveMinimum(t) == ReplaceTree(t, q, SubTree(t, q).right)
  {
    if q != [] {
      if t.left.Leaf? {
        assert false;
      }
      LeftmostIsMinimum(t.left, q[1..]);
    }
  }

  lemma {:induction false} SubTreeConcat<V>(t: Tree<V>, p: seq<bool>, q: seq<bool>)
    ensures SubTree(t, p + q) == SubTree(SubTree(t, p), q)
  {
    if p == [] || t.Leaf? {
      assert p == [] ==> p + q == q;
    } else {
      assert (p + q)[1..] == p[1..] + q;
      SubTreeConcat(if p[0] then t.right else t.left, p[1..], q);
    }
  }

  lemma {:induction false} SubTreeReplaced<V>(t: Tree<V>, p: seq<bool>, y: Tree<V>)
    requires SubTree(t, p).Node?
    ensures SubTree(ReplaceTree(t, p, y), p) == y
  {
    if p != [] {
      SubTreeReplaced(if p[0] then t.right else t.left, p[1..], y);
    }
  }

  /** Copying the successor up into the node at p and splicing it out below is DeleteRoot there. */
  lemma SuccessorSplice<V>(t: Tree<V>, p: seq<bool>, q: seq<bool>, t1: Tree<V>)
    requires SubTree(t, p).Node? && SubTree(t, p).left.Node? && SubTree(t, p).right.Node?
    requires LeftSpine(q) && SubTree(t, p + [true] + q).Node? && SubTree(t, p + [true] + q).left.Leaf?
    requires var m := SubTree(t, p + [true] + q);
             t1 == ReplaceTree(t, p, SubTree(t, p).(key := m.key, value := m.value))
    ensures ReplaceTree(t1, p + [true] + q, Branch(SubTree(t1, p + [true] + q), true))
         == ReplaceTree(t, p, DeleteRoot(SubTree(t, p)))
  {
    var u := SubTree(t, p);
    var r := [true] + q;
    assert p + [true] + q == p + r && r[1..] == q;
    SubTreeConcat(t, p, r);
    LeftmostIsMinimum(u.right, q);
    var m := SubTree(u.right, q);
    var y := u.(key := m.key, value := m.value);
    SubTreeReplaced(t, p, y);
    SubTreeConcat(t1, p, r);
    ReplaceDeeper(t, p, y, r, m.right);
  }

  lemma {:induction false} ViewSub<V>(h: map<BTNode<V>, Cell<V>>, s: Shape<V>, p: seq<bool>)
    requires Nodes(s) <= h.Keys && ValidPath(s, p)
    ensures Nodes(SubShape(s, p)) <= Nodes(s)
    ensures View(h, SubShape(s, p)) == SubTree(View(h, s), p)
  {
    if p != [] {
      ViewSub(h, Child(s, p[0]), p[1..]);
    }
  }

  datatype LookupResult<V> = Found(value: V) | Missing | NullDereference

  /** A `BTNode **`: the place a node pointer is stored in. */
  datatype Slot<V> = Root(tree: BTree<V>) | LeftOf(owner: BTNode<V>) | RightOf(owner: BTNode<V>)
  {
    ghost function Holder(): object {
      if Root? then tree else owner
    }
  }

  ghost predicate SlotAt<V>(slot: Slot<V>, tree: BTree<V>, s: Shape<V>, p: seq<bool>)
    requires ValidPath(s, p)
  {
    slot == if p == [] then Root(tree) else if Last(p) then RightOf(Owner(s, p)) else LeftOf(Owner(s, p))
  }

  method SetChild<V>(o: BTNode<V>, right: bool, n: BTNode?<V>)
    modifies o
    ensures o.key == old(o.key) && o.value == old(o.value)
    ensures if right then o.right == n && o.left == old(o.left) else o.left == n && o.right == old(o.right)
  {
    if right {
      o.right := n;
    } else {
      o.left := n;
    }
  }

  class BTree<V> {
    var root: BTNode?<V>
    ghost var shape: Shape<V>
    ghost var freed: set<BTNode<V>>

    /** The pointers form a tree, whatever its keys. */
    ghost predicate WellLinked()
      reads this, Nodes(shape)
    {
      Linked(Snap(Nodes(shape)), root, shape) && Distinct(shape)
    }

    /** The path p from the root ends in the slot. */
    ghost predicate Points(slot: Slot<V>, p: seq<bool>)
      reads this, Nodes(shape)
    {
      WellLinked() && ValidPath(shape, p) && SlotAt(slot, this, shape, p)
    }

    ghost function Value(): Tree<V>
      reads this, Nodes(shape)
    {
      View(Snap(Nodes(shape)), shape)
    }

    ghost predicate Valid()
      reads this, Nodes(shape)
    {
      WellLinked() && Bst(Value()) && freed !! Nodes(shape)
    }

    ghost function Contents(): map<Key, V>
      reads this, Nodes(shape)
    {
      ToMap(Value())
    }

    /** bt_initialize */
    constructor ()
      ensures Valid() && Contents() == map[] && shape == Nil && freed == {}
    {
      root := null;
      shape := Nil;
      freed := {};
    }

    function Load(slot: Slot<V>): BTNode?<V>
      reads this, slot.Holder()
    {
      match slot
      case Root(t) => t.root
      case LeftOf(o) => o.left
      case RightOf(o) => o.right
    }

    /** The slot at the end of a path holds the root of the subtree there. */
    lemma SlotHolds(slot: Slot<V>, p: seq<bool>)
      requires Points(slot, p)
      ensures slot.Holder() == this || slot.Holder() in Nodes(shape)
      ensures Linked(Snap(Nodes(shape)), Load(slot), SubShape(shape, p))
      ensures SubShape(shape, p).Nil? <==> Load(slot) == null
      ensures Load(slot) != null ==> Load(slot) == SubShape(shape, p).node && Load(slot) in Nodes(shape)
    {
      PathFacts(Snap(Nodes(shape)), root, shape, p);
    }

    method StoreBelow(o: BTNode<V>, right: bool, n: BTNode?<V>, ghost p: seq<bool>, ghost x: Shape<V>)
      requires WellLinked() && ValidPath(shape, p) && p != [] && o == Owner(shape, p) && right == Last(p)
      requires Linked(Snap(Nodes(x)), n, x) && Distinct(x)
      requires Nodes(x) !! Nodes(shape) - Nodes(SubShape(shape, p))
      modifies this, o
      ensures WellLinked() && shape == Replace(old(shape), p, x) && freed == old(freed)
      ensures Nodes(shape) == old(Nodes(shape) - Nodes(SubShape(shape, p))) + Nodes(x)
      ensures Value() == ReplaceTree(old(Value()), p, old(View(Snap(Nodes(x)), x)))
    {
      hide Linked, Distinct, ValidPath, SubShape, Replace, Owner, View, ReplaceTree, Nodes;
      ghost var s, h, hx := shape, Snap(Nodes(shape)), Snap(Nodes(x));
      PathFacts(h, root, s, p);
      ReplaceNodes(s, p, x);
      assert o in Nodes(s) - Nodes(SubShape(s, p)) && o !in Nodes(x);
      SetChild(o, right, n);
      assert Snap(Nodes(x)) == hx;
      shape := Replace(s, p, x);
      Graft(h, hx, Snap(Nodes(shape)), root, s, p, n, x);
    }

    /** *slot = n, where n roots the shape x. */
    method Store(slot: Slot<V>, n: BTNode?<V>, ghost p: seq<bool>, ghost x: Shape<V>)
      requires Points(slot, p)
      requires Linked(Snap(Nodes(x)), n, x) && Distinct(x)
      requires Nodes(x) !! Nodes(shape) - Nodes(SubShape(shape, p))
      modifies this, if p == [] then {} else {Owner(shape, p)}
      ensures WellLinked() && shape == Replace(old(shape), p, x) && freed == old(freed)
      ensures Nodes(shape) == old(Nodes(shape) - Nodes(SubShape(shape, p))) + Nodes(x)
      ensures Value() == ReplaceTree(old(Value()), p, old(View(Snap(Nodes(x)), x)))
    {
      match slot
      case Root(_) =>
        root, shape := n, x;
      case LeftOf(o) => StoreBelow(o, false, n, p, x);
      case RightOf(o) => StoreBelow(o, true, n, p, x);
    }

    /** Where the child slots of a node on a path lead. */
    lemma Descend(p: seq<bool>, d: bool)
      requires WellLinked() && ValidPath(shape, p) && SubShape(shape, p).At?
      ensures SubTree(Value(), p).Node?
      ensures SubShape(shape, p).node in Nodes(shape)
      ensures SubTree(Value(), p).key == SubShape(shape, p).node.key
      ensures SubTree(Value(), p).value == SubShape(shape, p).node.value
      ensures ValidPath(shape, p + [d]) && SubShape(shape, p + [d]) == Child(SubShape(shape, p), d)
      ensures var n := SubShape(shape, p).node; SlotAt(if d then RightOf(n) else LeftOf(n), this, shape, p + [d])
      ensures Nodes(SubShape(shape, p + [d])) <= Nodes(shape)
      ensures SubTree(Value(), p + [d]) == View(Snap(Nodes(shape)), SubShape(shape, p + [d]))
      ensures SubTree(Value(), p + [d]) == Branch(SubTree(Value(), p), d)
    {
      SubTreeConcat(Value(), p, [d]);
      ExtendPath(shape, p, d);
      ViewSub(Snap(Nodes(shape)), shape, p);
      ViewSub(Snap(Nodes(shape)), shape, p + [d]);
    }

    /** bt_find_node, from the node in `slot`, to which the prefix p of the route led. */
    function FindNode(slot: Slot<V>, key: Key, ghost p: seq<bool>): (out: Option<Slot<V>>)
      requires Points(slot, p) && SubShape(shape, p).At?
      requires p <= Route(Value(), key)
      reads this, Nodes(shape)
      ensures ValidPath(shape, Route(Value(), key))
      ensures out.Some? <==> SubTree(Value(), Route(Value(), key)).Node?
      ensures out.Some? ==> SlotAt(out.value, this, shape, Route(Value(), key))
      decreases SubShape(shape, p)
    {
      SlotHolds(slot, p);
      var n := Load(slot);
      var rv := Strcmp(key, n.key);
      Descend(p, rv > 0);
      RouteStep(Value(), p, key);
      if rv == 0 then Some(slot)
      else
        var next := if rv < 0 then LeftOf(n) else RightOf(n);
        SlotHolds(next, p + [rv > 0]);
        if Load(next) == null then
          RouteStep(Value(), p + [rv > 0], key);
          None
        else FindNode(next, key, p + [rv > 0])
    }

    /** The child of a node on the route of a key, and whether the route ends there. */
    lemma ParentFacts(key: Key, p: seq<bool>, d: bool)
      requires Valid() && ValidPath(shape, p) && SubShape(shape, p).At? && p <= Route(Value(), key)
      ensures SubShape(shape, p).node in Nodes(shape)
      ensures var n, next := SubShape(shape, p).node, Child(SubShape(shape, p), d);
        var c := if d then n.right else n.left;
        && SubTree(Value(), p).Node? && SubTree(Value(), p).key == n.key
        && ValidPath(shape, p + [d]) && SubShape(shape, p + [d]) == next && Owner(shape, p + [d]) == n
        && (c == null <==> next == Nil) && (c == null <==> SubTree(Value(), p + [d]).Leaf?)
        && (c != null ==> next.At? && c == next.node && c in Nodes(shape) && SubTree(Value(), p + [d]).key == c.key)
        && (c != null && Strcmp(c.key, key) == 0 ==> Route(Value(), key) == p + [d])
    {
      Descend(p, d);
      ExtendPath(shape, p, d);
      var n := SubShape(shape, p).node;
      SlotHolds(if d then RightOf(n) else LeftOf(n), p + [d]);
      ViewSub(Snap(Nodes(shape)), shape, p + [d]);
      var c := if d then n.right else n.left;
      if c != null && Strcmp(c.key, key) == 0 {
        RouteToChild(Value(), p, key, d);
      }
    }

    /** bt_find_parent, from the node to which the prefix p of the route led. */
    function FindParent(node: BTNode<V>, childKey: Key, ghost p: seq<bool>): (out: BTNode?<V>)
      requires Valid() && ValidPath(shape, p) && SubShape(shape, p).At? && SubShape(shape, p).node == node
      requires p <= Route(Value(), childKey) && (p == [] || p != Route(Value(), childKey))
      reads this, Nodes(shape)
      ensures ValidPath(shape, Route(Value(), childKey))
      ensures out != null <==> Route(Value(), childKey) != [] && SubTree(Value(), Route(Value(), childKey)).Node?
      ensures out != null ==> out == Owner(shape, Route(Value(), childKey))
      decreases SubShape(shape, p)
    {
      ParentFacts(childKey, p, false);
      ParentFacts(childKey, p, true);
      if node.left != null && Strcmp(node.left.key, childKey) == 0 then node
      else if node.right != null && Strcmp(node.right.key, childKey) == 0 then node
      else
        var rv := Strcmp(childKey, node.key);
        var next := if rv < 0 then node.left else node.right;
        RouteStep(Value(), p, childKey);
        if rv == 0 then null
        else
          RouteStep(Value(), p + [rv > 0], childKey);
          if next == null then null
          else
            StrcmpIsRankOrder(childKey, next.key);
            StrcmpIsRankOrder(next.key, childKey);
            FindParent(next, childKey, p + [rv > 0])
    }

    /** bt_add */
    method Add(key: Key, value: V) returns (rv: int)
      requires Valid()
      modifies this, Nodes(shape)
      ensures Valid() && freed == old(freed)
      ensures rv == (if key in old(Contents()) then -1 else 0)
      ensures Contents() == if rv == 0 then old(Contents())[key := value] else old(Contents())
      ensures if rv == 0 then AddedOne(old(Nodes(shape))) else shape == old(shape)
      ensures fresh(Nodes(shape) - old(Nodes(shape)))
    {
      AddFacts(key, value);
      if root == null {
        CreateNode(Root(this), key, value, []);
        rv := 0;
      } else {
        rv := AddRec(root, key, value, []);
      }
    }

    lemma AddFacts(key: Key, value: V)
      requires Valid()
      ensures Bst(Insert(Value(), key, value))
      ensures ToMap(Insert(Value(), key, value)) == if key in Contents() then Contents() else Contents()[key := value]
      ensures Find(Value(), key).Some? <==> key in Contents()
      ensures key in Contents() ==> Find(Value(), key).value == Contents()[key]
    {
      InsertIsMapUpdate(Value(), key, value, -1.0, 1.0);
      FindIsMapLookup(Value(), key, -1.0, 1.0);
    }

    /** One node has joined these. */
    ghost predicate AddedOne(nodes: set<BTNode<V>>)
      reads this
    {
      exists n :: n in Nodes(shape) && n !in nodes && Nodes(shape) == nodes + {n}
    }

    /** bt_create_node, into the empty slot at the end of the path p. */
    method CreateNode(slot: Slot<V>, key: Key, value: V, ghost p: seq<bool>)
      requires Points(slot, p)
      requires SubShape(shape, p) == Nil
      modifies this, if p == [] then {} else {Owner(shape, p)}
      ensures WellLinked() && freed == old(freed)
      ensures AddedOne(old(Nodes(shape))) && fresh(Nodes(shape) - old(Nodes(shape)))
      ensures Value() == ReplaceTree(old(Value()), p, Node(Leaf, key, value, Leaf))
    {
      ghost var h := Snap(Nodes(shape));
      SlotHolds(slot, p);
      var n := new BTNode(key, value);
      assert Snap(Nodes(shape)) == h;
      SingleNode(n);
      ghost var nodes := Nodes(shape);
      Store(slot, n, p, At(Nil, n, Nil));
      assert n in Nodes(shape) && n !in nodes && Nodes(shape) == nodes + {n};
    }

    /** bt_add_rec, at the node to which the prefix p of the route led. */
    method AddRec(node: BTNode<V>, key: Key, value: V, ghost p: seq<bool>) returns (rv: int)
      requires WellLinked() && ValidPath(shape, p) && SubShape(shape, p).At? && SubShape(shape, p).node == node
      requires p <= Route(Value(), key)
      modifies this, Nodes(shape)
      ensures WellLinked() && freed == old(freed)
      ensures fresh(Nodes(shape) - old(Nodes(shape)))
      ensures rv == if Find(old(Value()), key).Some? then -1 else 0
      ensures if rv == 0 then AddedOne(old(Nodes(shape))) else shape == old(shape)
      ensures Value() == Insert(old(Value()), key, value)
      decreases SubShape(shape, p)
    {
      var c := Strcmp(key, node.key);
      Descend(p, c > 0);
      RouteStep(Value(), p, key);
      RouteDecides(Value(), p, key);
      if c == 0 {
        InsertPresent(Value(), key, value);
        return -1;
      }
      var next := if c < 0 then LeftOf(node) else RightOf(node);
      ghost var p' := p + [c > 0];
      SlotHolds(next, p');
      RouteDecides(Value(), p', key);
      RouteInserts(Value(), p', key, value);
      if Load(next) == null {
        CreateNode(next, key, value, p');
        rv := 0;
      } else {
        rv := AddRec(Load(next), key, value, p');
      }
    }

    /** bt_free_node: the node in the slot is freed and the slot becomes NULL. */
    method FreeNode(slot: Slot<V>, ghost p: seq<bool>)
      requires Points(slot, p) && SubShape(shape, p).At?
      modifies this, if p == [] then {} else {Owner(shape, p)}
      ensures WellLinked() && shape == Replace(old(shape), p, Nil)
      ensures freed == old(freed) + {old(SubShape(shape, p).node)}
      ensures Nodes(shape) == old(Nodes(shape) - Nodes(SubShape(shape, p)))
      ensures Value() == ReplaceTree(old(Value()), p, Leaf)
    {
      hide ValidPath, SubShape, Owner, Replace, ReplaceTree;
      ghost var n := SubShape(shape, p).node;
      Store(slot, null, p, Nil);
      freed := freed + {n};
    }

    lemma ChildIsSmaller(p: seq<bool>, d: bool)
      requires WellLinked() && ValidPath(shape, p) && SubShape(shape, p).At?
      ensures Nodes(Child(SubShape(shape, p), d)) < Nodes(SubShape(shape, p))
    {
      PathFacts(Snap(Nodes(shape)), root, shape, p);
      assert SubShape(shape, p).node in Nodes(SubShape(shape, p)) - Nodes(Child(SubShape(shape, p), d));
    }

    /** The half of bt_free_rec that frees the subtree on one side of a node, if there is one. */
    method FreeChild(node: BTNode<V>, right: bool, slot: Slot<V>, ghost p: seq<bool>)
      requires Points(slot, p) && SubShape(shape, p).At? && SubShape(shape, p).node == node
      modifies this, Nodes(shape)
      ensures Points(slot, p) && ValidPath(old(shape), p + [right])
      ensures shape == Replace(old(shape), p + [right], Nil)
      ensures freed == old(freed) + Nodes(Child(old(SubShape(shape, p)), right))
      ensures Nodes(shape) == old(Nodes(shape)) - Nodes(Child(old(SubShape(shape, p)), right))
      decreases Nodes(SubShape(shape, p)), 0
    {
      ChildIsSmaller(p, right);
      Descend(p, right);
      ReplaceChild(shape, p, right, Nil);
      var child := if right then RightOf(node) else LeftOf(node);
      SlotHolds(child, p + [right]);
      if Load(child) != null {
        FreeRec(child, p + [right]);
      } else {
        ReplaceSame(shape, p + [right]);
      }
    }

    method FreeChildren(node: BTNode<V>, slot: Slot<V>, ghost p: seq<bool>)
      requires Points(slot, p) && SubShape(shape, p).At? && SubShape(shape, p).node == node
      modifies this, Nodes(shape)
      ensures Points(slot, p) && SubShape(shape, p) == At(Nil, node, Nil)
      ensures ValidPath(old(shape), p) && Replace(shape, p, Nil) == Replace(old(shape), p, Nil)
      ensures var sub := old(SubShape(shape, p));
        && freed == old(freed) + Nodes(sub.left) + Nodes(sub.right)
        && Nodes(shape) == old(Nodes(shape)) - Nodes(sub.left) - Nodes(sub.right)
      decreases Nodes(SubShape(shape, p)), 1
    {
      hide Linked, Distinct, View, ReplaceTree, ValidPath, Owner, Replace, SubShape;
      ghost var sub := SubShape(shape, p);
      ReplaceChild(shape, p, false, Nil);
      FreeChild(node, false, slot, p);
      assert SubShape(shape, p) == At(Nil, node, sub.right);
      assert Nodes(SubShape(shape, p)) <= Nodes(sub);
      hide Nodes;
      ReplaceChild(shape, p, true, Nil);
      FreeChild(node, true, slot, p);
    }

    /** bt_free_rec */
    method FreeRec(slot: Slot<V>, ghost p: seq<bool>)
      requires Points(slot, p) && SubShape(shape, p).At?
      modifies this, Nodes(shape)
      ensures WellLinked() && shape == Replace(old(shape), p, Nil)
      ensures freed == old(freed) + Nodes(old(SubShape(shape, p)))
      ensures Nodes(shape) == old(Nodes(shape)) - Nodes(old(SubShape(shape, p)))
      decreases Nodes(SubShape(shape, p)), 2
    {
      hide Linked, Distinct, View, ReplaceTree, ValidPath, Owner, Replace, SubShape;
      SlotHolds(slot, p);
      var node := Load(slot);
      FreeChildren(node, slot, p);
      FreeNode(slot, p);
    }

    /** bt_free */
    method Free()
      requires Valid()
      modifies this, Nodes(shape)
      ensures Valid() && root == null && Contents() == map[]
      ensures freed == old(freed) + old(Nodes(shape))
    {
      if root != null {
        FreeRec(Root(this), []);
      }
    }

    lemma OnlyChild(p: seq<bool>, right: bool)
      requires WellLinked() && ValidPath(shape, p) && SubShape(shape, p).At?
      requires Child(SubShape(shape, p), !right) == Nil
      ensures var sub := SubShape(shape, p); var x := Child(sub, right);
        && Nodes(sub) == Nodes(x) + {sub.node} && sub.node !in Nodes(x) && Nodes(sub) <= Nodes(shape)
        && (p != [] ==> Owner(shape, p) !in Nodes(x))
        && Nodes(x) !! Nodes(shape) - Nodes(sub)
        && Nodes(shape) - Nodes(sub) + Nodes(x) == Nodes(shape) - {sub.node}
        && Distinct(x) && Linked(Snap(Nodes(x)), if right then sub.node.right else sub.node.left, x)
        && SubTree(Value(), p).Node?
        && View(Snap(Nodes(x)), x) == Branch(SubTree(Value(), p), right)
    {
      var h, sub := Snap(Nodes(shape)), SubShape(shape, p);
      var x := Child(sub, right);
      PathFacts(h, root, shape, p);
      ViewSub(h, shape, p);
      Frame(h, Snap(Nodes(x)), if right then sub.node.right else sub.node.left, x);
    }

    /** bt_free_node(slot); *slot = child, for the only child of the node.  The NULL that
        bt_free_node leaves in the slot is overwritten at once and not stored here. */
    method Splice(slot: Slot<V>, child: BTNode?<V>, ghost p: seq<bool>, ghost right: bool)
      requires Points(slot, p) && SubShape(shape, p).At?
      requires child == if right then SubShape(shape, p).node.right else SubShape(shape, p).node.left
      requires Child(SubShape(shape, p), !right) == Nil
      modifies this, if p == [] then {} else {Owner(shape, p)}
      ensures WellLinked()
      ensures freed == old(freed) + {old(SubShape(shape, p).node)}
      ensures Nodes(shape) == old(Nodes(shape)) - {old(SubShape(shape, p).node)}
      ensures Value() == ReplaceTree(old(Value()), p, Branch(SubTree(old(Value()), p), right))
    {
      hide Linked, Distinct, View, ValidPath, SubShape, Owner, Replace, ReplaceTree, SubTree, Nodes;
      ghost var n, x := SubShape(shape, p).node, Child(SubShape(shape, p), right);
      OnlyChild(p, right);
      Store(slot, child, p, x);
      freed := freed + {n};
    }

    /** a->value = n->value; strcpy(a->key, n->key) */
    method CopyUp(a: BTNode<V>, n: BTNode<V>, ghost p: seq<bool>)
      requires WellLinked() && ValidPath(shape, p) && SubShape(shape, p).At? && SubShape(shape, p).node == a
      requires n in Nodes(shape)
      modifies a
      ensures WellLinked()
      ensures SubTree(old(Value()), p).Node?
      ensures var t := old(Value());
              Value() == ReplaceTree(t, p, SubTree(t, p).(key := old(n.key), value := old(n.value)))
      ensures a.left == old(a.left) && a.right == old(a.right)
    {
      ghost var h := Snap(Nodes(shape));
      ViewSub(h, shape, p);
      a.value := n.value;
      a.key := n.key;
      Rekey(h, Snap(Nodes(shape)), root, shape, p);
    }

    ghost predicate FreedOne(nodes: set<BTNode<V>>, gone: set<BTNode<V>>)
      reads this
    {
      exists x :: x in nodes && Nodes(shape) == nodes - {x} && freed == gone + {x}
    }

    /** bt_delete */
    method Delete(key: Key) returns (rv: int)
      requires Valid()
      modifies this, Nodes(shape)
      ensures Valid()
      ensures rv == (if key in old(Contents()) then 0 else -1)
      ensures Contents() == old(Contents()) - {key}
      ensures rv == -1 ==> shape == old(shape) && freed == old(freed)
      ensures rv == 0 ==> FreedOne(old(Nodes(shape)), old(freed))
    {
      DeleteIsMapRemoval(Value(), key, -1.0, 1.0);
      FindIsMapLookup(Value(), key, -1.0, 1.0);
      if root == null {
        return -1;
      }
      ghost var p := Route(Value(), key);
      var target := FindNode(Root(this), key, []);
      RouteStep(Value(), p, key);
      RouteDecides(Value(), p, key);
      ViewSub(Snap(Nodes(shape)), shape, p);
      if target == None {
        return -1;
      }
      DeleteTarget(target.value, p);
      rv := 0;
    }

    /** The switch of bt_delete on the number of children of the node found. */
    method DeleteTarget(target: Slot<V>, ghost p: seq<bool>)
      requires Points(target, p) && SubShape(shape, p).At?
      modifies this, Nodes(shape)
      ensures WellLinked() && FreedOne(old(Nodes(shape)), old(freed))
      ensures SubTree(old(Value()), p).Node?
      ensures Value() == ReplaceTree(old(Value()), p, DeleteRoot(SubTree(old(Value()), p)))
    {
      SlotHolds(target, p);
      Descend(p, false);
      Descend(p, true);
      var a := Load(target);
      var left, right := a.left, a.right;
      if left == null && right == null {
        FreeNode(target, p);
        assert Nodes(shape) == old(Nodes(shape)) - {a};
      } else if left != null && right == null {
        Splice(target, left, p, false);
      } else if left == null {
        Splice(target, right, p, true);
      } else {
        DeleteSuccessor(a, p);
      }
    }

    /** The loop that walks to the slot of the leftmost node below a->right. */
    method FindSuccessor(a: BTNode<V>, ghost p: seq<bool>) returns (deleteNode: Slot<V>, ghost q: seq<bool>)
      requires WellLinked() && ValidPath(shape, p) && SubShape(shape, p).At? && SubShape(shape, p).node == a
      requires a.right != null
      ensures LeftSpine(q) && Points(deleteNode, p + [true] + q)
      ensures SubShape(shape, p + [true] + q).At? && SubShape(shape, p + [true] + q).left == Nil
      ensures deleteNode == RightOf(a) || deleteNode.LeftOf?
    {
      hide Linked, Distinct, View, ValidPath, SubShape, Owner, SubTree, Nodes;
      Descend(p, true);
      deleteNode, q := RightOf(a), [];
      SlotHolds(deleteNode, p + [true]);
      assert p + [true] + q == p + [true];
      while true
        invariant Points(deleteNode, p + [true] + q) && SubShape(shape, p + [true] + q).At? && LeftSpine(q)
        decreases SubShape(shape, p + [true] + q)
      {
        ghost var r := p + [true] + q;
        SlotHolds(deleteNode, r);
        Descend(r, false);
        var next := LeftOf(Load(deleteNode));
        SlotHolds(next, r + [false]);
        if Load(next) == null {
          break;
        }
        assert p + [true] + (q + [false]) == r + [false];
        deleteNode, q := next, q + [false];
      }
    }

    /** Two children: copy the successor up, free its node, keep its right child. */
    method DeleteSuccessor(a: BTNode<V>, ghost p: seq<bool>)
      requires WellLinked() && ValidPath(shape, p) && SubShape(shape, p).At? && SubShape(shape, p).node == a
      requires a.left != null && a.right != null
      modifies this, Nodes(shape)
      ensures WellLinked() && FreedOne(old(Nodes(shape)), old(freed))
      ensures SubTree(old(Value()), p).Node?
      ensures Value() == ReplaceTree(old(Value()), p, DeleteRoot(SubTree(old(Value()), p)))
    {
      ghost var h, t := Snap(Nodes(shape)), Value();
      BothChildren(p);
      var deleteNode, q := FindSuccessor(a, p);
      assert Snap(Nodes(shape)) == h;
      assert Value() == t;
      ghost var r := p + [true] + q;
      SlotHolds(deleteNode, r);
      Descend(r, false);
      var n := Load(deleteNode);
      var child := n.right;
      CopyUp(a, n, p);
      SuccessorSplice(t, p, q, Value());
      Splice(deleteNode, child, r, true);
    }

    lemma BothChildren(p: seq<bool>)
      requires WellLinked() && ValidPath(shape, p) && SubShape(shape, p).At?
      requires SubShape(shape, p).node.left != null && SubShape(shape, p).node.right != null
      ensures SubShape(shape, p).node in Nodes(shape)
      ensures SubTree(Value(), p).Node? && SubTree(Value(), p).left.Node? && SubTree(Value(), p).right.Node?
    {
      Descend(p, false);
      Descend(p, true);
      PathFacts(Snap(Nodes(shape)), root, shape, p);
    }

    /** bt_lookup.  A miss below a non-empty root dereferences the NULL that bt_find_node
        returned, before the test for NULL. */
    method Lookup(key: Key) returns (r: LookupResult<V>)
      requires Valid()
      ensures r.Missing? <==> Contents() == map[]
      ensures r.Found? <==> key in Contents()
      ensures r.Found? ==> r.value == Contents()[key]
    {
      FindIsMapLookup(Value(), key, -1.0, 1.0);
      if root == null {
        return Missing;
      }
      ghost var p := Route(Value(), key);
      var target := FindNode(Root(this), key, []);
      RouteStep(Value(), p, key);
      RouteDecides(Value(), p, key);
      ViewSub(Snap(Nodes(shape)), shape, p);
      assert Value().key in Contents();
      if target == None {
        return NullDereference;
      }
      SlotHolds(target.value, p);
      Descend(p, false);
      r := Found(Load(target.value).value);
    }
  }

  /** One key added, another looked up: the lookup reads through NULL. */
  method MissedLookup(k: Key, missing: Key, value: int) returns (r: LookupResult<int>)
    requires k != missing
    ensures r.NullDereference?
  {
    var tree := new BTree<int>();
    var rv := tree.Add(k, value);
    assert k in tree.Contents() && missing !in tree.Contents();
    r := tree.Lookup(missing);
  }
}
