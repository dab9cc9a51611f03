/** The kernel keeps per-core interrupt routes and device nodes in intrusive
    search trees (`IntrTree`, the driver manager's `nodeTree`) that are
    searched by descending left on a smaller key and right on a larger one.
    This module models such a tree as a binary search tree keyed by a natural
    number, with the map it stands for; the balancing the real trees do does
    not change what they contain and is not modelled. */
module OrderedTree {
  import opened Common

  datatype Tree<T> = Leaf | Node(left: Tree<T>, key: nat, value: T, right: Tree<T>)

  /** The key/value pairs stored in a tree. */
  function Contents<T>(t: Tree<T>): map<nat, T>
  {
    match t
    case Leaf => map[]
    case Node(l, k, v, r) => (Contents(l) + Contents(r))[k := v]
  }

  /** Search-tree order: every key on the left is smaller, every key on the right larger. */
  predicate Ordered<T>(t: Tree<T>)
  {
    match t
    case Leaf => true
    case Node(l, k, _, r) =>
      Ordered(l) && Ordered(r) &&
      (forall x | x in Contents(l) :: x < k) &&
      (forall x | x in Contents(r) :: k < x)
  }

  /** Insertion (replacing the value of a key already present). */
  function Insert<T>(t: Tree<T>, key: nat, value: T): (r: Tree<T>)
    requires Ordered(t)
    ensures Ordered(r) && Contents(r) == Contents(t)[key := value]
  {
    match t
    case Leaf => Node(Leaf, key, value, Leaf)
    case Node(l, k, v, rt) =>
      if key < k then
        assert key !in Contents(rt);
        InsertUnderUnion(Contents(l), Contents(rt), k, v, key, value, true);
        Node(Insert(l, key, value), k, v, rt)
      else if k < key then
        InsertUnderUnion(Contents(l), Contents(rt), k, v, key, value, false);
        Node(l, k, v, Insert(rt, key, value))
      else Node(l, k, value, rt)
  }

  /** Storing a key in the side of a union that will hold it stores it in the union. */
  lemma InsertUnderUnion<T>(a: map<nat, T>, b: map<nat, T>, k: nat, v: T, key: nat, value: T, intoLeft: bool)
    requires key != k
    requires intoLeft ==> key !in b
    ensures intoLeft ==> (a[key := value] + b)[k := v] == (a + b)[k := v][key := value]
    ensures !intoLeft ==> (a + b[key := value])[k := v] == (a + b)[k := v][key := value]
  {
  }

  /** The entry with the smallest key of a non-empty tree. */
  function MinKey<T>(t: Tree<T>): (k: nat)
    requires t.Node?
    requires Ordered(t)
    ensures k in Contents(t)
    ensures forall x | x in Contents(t) :: k <= x
  {
    if t.left.Leaf? then t.key else MinKey(t.left)
  }

  /** The tree without its smallest entry. */
  function RemoveMin<T>(t: Tree<T>): (r: Tree<T>)
    requires t.Node?
    requires Ordered(t)
    ensures Ordered(r) && Contents(r) == Contents(t) - {MinKey(t)}
  {
    if t.left.Leaf? then
      assert t.key !in Contents(t.right);
      t.right
    else
      assert MinKey(t.left) !in Contents(t.right);
      RemoveUnderUnion(Contents(t.left), Contents(t.right), t.key, t.value, MinKey(t.left), true);
      Node(RemoveMin(t.left), t.key, t.value, t.right)
  }

  /** Removal of a key (a tree without the key is returned unchanged). */
  function Remove<T>(t: Tree<T>, key: nat): (r: Tree<T>)
    requires Ordered(t)
    ensures Ordered(r) && Contents(r) == Contents(t) - {key}
  {
    match t
    case Leaf => Leaf
    case Node(l, k, v, rt) =>
      if key < k then
        var l' := Remove(l, key);
        ReplaceLeft(t, l', key);
        Node(l', k, v, rt)
      else if k < key then
        var rt' := Remove(rt, key);
        ReplaceRight(t, rt', key);
        Node(l, k, v, rt')
      else if rt.Leaf? then
        assert k !in Contents(l);
        l
      else
        RemoveRoot(t)
  }

  /** Removing a key smaller than the root from the left subtree removes it from the tree. */
  lemma ReplaceLeft<T>(t: Tree<T>, l': Tree<T>, key: nat)
    requires t.Node? && Ordered(t) && key < t.key
    requires Ordered(l') && Contents(l') == Contents(t.left) - {key}
    ensures Ordered(Node(l', t.key, t.value, t.right))
    ensures Contents(Node(l', t.key, t.value, t.right)) == Contents(t) - {key}
  {
    assert key !in Contents(t.right);
    RemoveUnderUnion(Contents(t.left), Contents(t.right), t.key, t.value, key, true);
  }

  /** Removing a key larger than the root from the right subtree removes it from the tree. */
  lemma ReplaceRight<T>(t: Tree<T>, rt': Tree<T>, key: nat)
    requires t.Node? && Ordered(t) && t.key < key
    requires Ordered(rt') && Contents(rt') == Contents(t.right) - {key}
    ensures Ordered(Node(t.left, t.key, t.value, rt'))
    ensures Contents(Node(t.left, t.key, t.value, rt')) == Contents(t) - {key}
  {
    assert key !in Contents(t.left);
    RemoveUnderUnion(Contents(t.left), Contents(t.right), t.key, t.value, key, false);
  }

  /** Removing a key from the one side of a union that holds it removes it from the union. */
  lemma RemoveUnderUnion<T>(a: map<nat, T>, b: map<nat, T>, k: nat, v: T, key: nat, fromLeft: bool)
    requires key != k
    requires fromLeft ==> key !in b
    requires !fromLeft ==> key !in a
    ensures fromLeft ==> ((a - {key}) + b)[k := v] == (a + b)[k := v] - {key}
    ensures !fromLeft ==> (a + (b - {key}))[k := v] == (a + b)[k := v] - {key}
  {
  }

  /** Replaces the root of a tree with two non-empty subtrees by its successor. */
  function RemoveRoot<T>(t: Tree<T>): (r: Tree<T>)
    requires t.Node? && t.right.Node?
    requires Ordered(t)
    ensures Ordered(r) && Contents(r) == Contents(t) - {t.key}
  {
    var m := MinKey(t.right);
    var rest := RemoveMin(t.right);
    assert t.key !in Contents(t.left) && t.key !in Contents(t.right) && m !in Contents(t.left);
    SuccessorAtRoot(Contents(t.left), Contents(t.right), t.key, t.value, m);
    Node(t.left, m, Contents(t.right)[m], rest)
  }

  /** Moving a key of the right side to the root, in place of the root's own key. */
  lemma SuccessorAtRoot<T>(a: map<nat, T>, b: map<nat, T>, k: nat, v: T, m: nat)
    requires m in b && m !in a && k !in a && k !in b
    ensures (a + (b - {m}))[m := b[m]] == (a + b)[k := v] - {k}
  {
  }

  /** Ordered descent from the root: left when the key is smaller, right when it is larger. */
  method Find<T>(t: Tree<T>, key: nat) returns (r: Option<T>)
    requires Ordered(t)
    ensures r.Some? <==> key in Contents(t)
    ensures r.Some? ==> r.value == Contents(t)[key]
  {
    var scan := t;
    while scan.Node?
      invariant Ordered(scan)
      invariant key in Contents(t) <==> key in Contents(scan)
      invariant key in Contents(scan) ==> Contents(scan)[key] == Contents(t)[key]
      decreases scan
    {
      if scan.key == key {
        return Some(scan.value);
      } else if key < scan.key {
        assert key !in Contents(scan.right);
        scan := scan.left;
      } else {
        assert key !in Contents(scan.left);
        scan := scan.right;
      }
    }
    return None;
  }
}
