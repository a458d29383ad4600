/** The search tree as a value, and the finite map it stands for. */
module SearchTree {
  import opened Collections
  import opened Keys

  datatype Tree<V> = Leaf | Node(left: Tree<V>, key: Key, value: V, right: Tree<V>)

  /** Search order with distinct keys: every rank of t lies strictly between lo and hi. */
  ghost predicate Within<V>(t: Tree<V>, lo: real, hi: real) {
    match t
    case Leaf => true
    case Node(l, k, _, r) => lo < Rank(k) < hi && Within(l, lo, Rank(k)) && Within(r, Rank(k), hi)
  }

  ghost predicate Bst<V>(t: Tree<V>) {
    Within(t, -1.0, 1.0)
  }

  function Join<V>(l: map<Key, V>, k: Key, v: V, r: map<Key, V>): map<Key, V> {
    (l + r)[k := v]
  }

  function ToMap<V>(t: Tree<V>): map<Key, V> {
    match t
    case Leaf => map[]
    case Node(l, k, v, r) => Join(ToMap(l), k, v, ToMap(r))
  }

  lemma JoinUpdates<V>(l: map<Key, V>, k: Key, v: V, r: map<Key, V>, key: Key, value: V)
    requires key != k
    ensures key !in r ==> Join(l[key := value], k, v, r) == Join(l, k, v, r)[key := value]
    ensures Join(l, k, v, r[key := value]) == Join(l, k, v, r)[key := value]
  {
  }

  lemma JoinRemovesLeft<V>(l: map<Key, V>, k: Key, v: V, r: map<Key, V>, key: Key)
    requires key != k && key !in r
    ensures Join(l - {key}, k, v, r) == Join(l, k, v, r) - {key}
  {
  }

  lemma JoinRemovesRight<V>(l: map<Key, V>, k: Key, v: V, r: map<Key, V>, key: Key)
    requires key != k && key !in l
    ensures Join(l, k, v, r - {key}) == Join(l, k, v, r) - {key}
  {
  }

  /** bt_find_node: one comparison a level. */
  function Find<V>(t: Tree<V>, key: Key): (r: Option<V>) {
    match t
    case Leaf => None
    case Node(l, k, v, r) =>
      var c := Strcmp(key, k);
      if c < 0 then Find(l, key) else if c > 0 then Find(r, key) else Some(v)
  }

  /** bt_add on an absent key; a present key leaves the tree as it is. */
  function Insert<V>(t: Tree<V>, key: Key, value: V): (r: Tree<V>) {
    match t
    case Leaf => Node(Leaf, key, value, Leaf)
    case Node(l, k, v, r) =>
      var c := Strcmp(key, k);
      if c < 0 then Node(Insert(l, key, value), k, v, r)
      else if c > 0 then Node(l, k, v, Insert(r, key, value))
      else t
  }

  function Minimum<V>(t: Tree<V>): (kv: (Key, V))
    requires t.Node?
  {
    if t.left.Leaf? then (t.key, t.value) else Minimum(t.left)
  }

  function RemoveMinimum<V>(t: Tree<V>): (r: Tree<V>)
    requires t.Node?
  {
    if t.left.Leaf? then t.right else Node(RemoveMinimum(t.left), t.key, t.value, t.right)
  }

  /** bt_delete once the node is found: splice out, or copy the successor up. */
  function DeleteRoot<V>(t: Tree<V>): (r: Tree<V>)
    requires t.Node?
  {
    if t.left.Leaf? then t.right
    else if t.right.Leaf? then t.left
    else var kv := Minimum(t.right); Node(t.left, kv.0, kv.1, RemoveMinimum(t.right))
  }

  function Delete<V>(t: Tree<V>, key: Key): (r: Tree<V>) {
    match t
    case Leaf => Leaf
    case Node(l, k, v, r) =>
      var c := Strcmp(key, k);
      if c < 0 then Node(Delete(l, key), k, v, r)
      else if c > 0 then Node(l, k, v, Delete(r, key))
      else DeleteRoot(t)
  }

  lemma JoinSplices<V>(l: map<Key, V>, k: Key, v: V, r: map<Key, V>)
    requires k !in l && k !in r
    ensures l == map[] ==> Join(l, k, v, r) - {k} == r
    ensures r == map[] ==> Join(l, k, v, r) - {k} == l
  {
  }

  lemma JoinReplaces<V>(l: map<Key, V>, k: Key, v: V, r: map<Key, V>, m: Key)
    requires k !in l && k !in r && m in r && m !in l
    ensures Join(l, m, r[m], r - {m}) == Join(l, k, v, r) - {k}
  {
  }

  lemma {:induction false} WithinKeys<V>(t: Tree<V>, lo: real, hi: real)
    requires Within(t, lo, hi)
    ensures forall k :: k in ToMap(t) ==> lo < Rank(k) < hi
  {
    if t.Node? {
      WithinKeys(t.left, lo, Rank(t.key));
      WithinKeys(t.right, Rank(t.key), hi);
    }
  }

  lemma {:induction false} WithinWidens<V>(t: Tree<V>, lo: real, hi: real, lo': real, hi': real)
    requires Within(t, lo, hi) && lo' <= lo && hi <= hi'
    ensures Within(t, lo', hi')
  {
    if t.Node? {
      WithinWidens(t.left, lo, Rank(t.key), lo', Rank(t.key));
      WithinWidens(t.right, Rank(t.key), hi, Rank(t.key), hi');
    }
  }

  /** One comparison at a node decides on which side a key can be. */
  lemma Sides<V>(t: Tree<V>, key: Key, lo: real, hi: real)
    requires t.Node? && Within(t, lo, hi)
    ensures Strcmp(key, t.key) == 0 <==> key == t.key
    ensures Strcmp(key, t.key) < 0 <==> Rank(key) < Rank(t.key)
    ensures Strcmp(key, t.key) > 0 <==> Rank(t.key) < Rank(key)
    ensures Strcmp(key, t.key) <= 0 ==> key !in ToMap(t.right)
    ensures Strcmp(key, t.key) >= 0 ==> key !in ToMap(t.left)
    ensures t.key !in ToMap(t.left) && t.key !in ToMap(t.right)
    ensures ToMap(t.left).Keys !! ToMap(t.right).Keys
    ensures key in ToMap(t) <==> key == t.key || key in ToMap(t.left) || key in ToMap(t.right)
  {
    StrcmpIsRankOrder(key, t.key);
    WithinKeys(t.left, lo, Rank(t.key));
    WithinKeys(t.right, Rank(t.key), hi);
  }

  /** In a search tree the descent finds exactly the bindings of the map. */
  lemma {:induction false} FindIsMapLookup<V>(t: Tree<V>, key: Key, lo: real, hi: real)
    requires Within(t, lo, hi)
    ensures Find(t, key).Some? <==> key in ToMap(t)
    ensures key in ToMap(t) ==> Find(t, key).value == ToMap(t)[key]
  {
    if t.Node? {
      Sides(t, key, lo, hi);
      FindIsMapLookup(t.left, key, lo, Rank(t.key));
      FindIsMapLookup(t.right, key, Rank(t.key), hi);
    }
  }

  /** bt_add is insert-if-absent. */
  lemma {:induction false} InsertIsMapUpdate<V>(t: Tree<V>, key: Key, value: V, lo: real, hi: real)
    requires Within(t, lo, hi) && lo < Rank(key) < hi
    ensures Within(Insert(t, key, value), lo, hi)
    ensures ToMap(Insert(t, key, value)) == if key in ToMap(t) then ToMap(t) else ToMap(t)[key := value]
  {
    if t.Leaf? {
      assert Join(map[], key, value, map[]) == map[][key := value];
    } else {
      Sides(t, key, lo, hi);
      if Strcmp(key, t.key) < 0 {
        InsertIsMapUpdate(t.left, key, value, lo, Rank(t.key));
        JoinUpdates(ToMap(t.left), t.key, t.value, ToMap(t.right), key, value);
      } else if Strcmp(key, t.key) > 0 {
        InsertIsMapUpdate(t.right, key, value, Rank(t.key), hi);
        JoinUpdates(ToMap(t.left), t.key, t.value, ToMap(t.right), key, value);
      }
    }
  }

  lemma {:induction false} RemoveMinimumIsMapRemoval<V>(t: Tree<V>, lo: real, hi: real)
    requires t.Node? && Within(t, lo, hi)
    ensures lo < Rank(Minimum(t).0) < hi
    ensures Within(RemoveMinimum(t), Rank(Minimum(t).0), hi)
    ensures Minimum(t).0 in ToMap(t) && ToMap(t)[Minimum(t).0] == Minimum(t).1
    ensures ToMap(RemoveMinimum(t)) == ToMap(t) - {Minimum(t).0}
  {
    if t.left.Leaf? {
      Sides(t, t.key, lo, hi);
      JoinSplices(ToMap(t.left), t.key, t.value, ToMap(t.right));
    } else {
      RemoveMinimumIsMapRemoval(t.left, lo, Rank(t.key));
      Sides(t, Minimum(t).0, lo, hi);
      JoinRemovesLeft(ToMap(t.left), t.key, t.value, ToMap(t.right), Minimum(t).0);
    }
  }

  /** The four shapes of bt_delete all remove one binding and keep the order. */
  lemma DeleteRootIsMapRemoval<V>(t: Tree<V>, lo: real, hi: real)
    requires t.Node? && Within(t, lo, hi)
    ensures Within(DeleteRoot(t), lo, hi)
    ensures ToMap(DeleteRoot(t)) == ToMap(t) - {t.key}
  {
    Sides(t, t.key, lo, hi);
    JoinSplices(ToMap(t.left), t.key, t.value, ToMap(t.right));
    if t.left.Leaf? {
      WithinWidens(t.right, Rank(t.key), hi, lo, hi);
    } else if t.right.Leaf? {
      WithinWidens(t.left, lo, Rank(t.key), lo, hi);
    } else {
      var kv := Minimum(t.right);
      RemoveMinimumIsMapRemoval(t.right, Rank(t.key), hi);
      WithinWidens(t.left, lo, Rank(t.key), lo, Rank(kv.0));
      JoinReplaces(ToMap(t.left), t.key, t.value, ToMap(t.right), kv.0);
    }
  }

  lemma {:induction false} DeleteIsMapRemoval<V>(t: Tree<V>, key: Key, lo: real, hi: real)
    requires Within(t, lo, hi)
    ensures Within(Delete(t, key), lo, hi)
    ensures ToMap(Delete(t, key)) == ToMap(t) - {key}
  {
    if t.Node? {
      Sides(t, key, lo, hi);
      if Strcmp(key, t.key) < 0 {
        DeleteIsMapRemoval(t.left, key, lo, Rank(t.key));
        JoinRemovesLeft(ToMap(t.left), t.key, t.value, ToMap(t.right), key);
      } else if Strcmp(key, t.key) > 0 {
        DeleteIsMapRemoval(t.right, key, Rank(t.key), hi);
        JoinRemovesRight(ToMap(t.left), t.key, t.value, ToMap(t.right), key);
      } else {
        DeleteRootIsMapRemoval(t, lo, hi);
      }
    }
  }
}
