/** The interval index as the linked nodes that are rotated and refreshed in place, proved against IntervalTree. */
module IntervalIndex {
  import opened ByteOrder
  import T = IntervalTree

  class IntervalNode {
    var res: T.Resource
    var left: IntervalNode?
    var right: IntervalNode?
    var height: int
    var maxEnd: Bytes
    var inclusive: bool
    ghost var repr: set<IntervalNode>
    ghost var value: T.Tree

    /** The nodes below are disjoint trees without this node, and value is the tree they stand for. */
    ghost predicate Valid()
      reads this, repr
      decreases repr
    {
      && this in repr
      && (left != null ==> left in repr && left.repr <= repr && this !in left.repr && left.Valid())
      && (right != null ==> right in repr && right.repr <= repr && this !in right.repr && right.Valid())
      && Nodes(left) !! Nodes(right)
      && repr == {this} + Nodes(left) + Nodes(right)
      && value == T.Node(Value(left), res, Value(right), height, maxEnd, inclusive)
    }

    constructor (x: T.Resource)
      ensures Valid() && repr == {this} && value == T.Node(T.Leaf, x, T.Leaf, 1, x.end, x.point)
    {
      res := x;
      left, right := null, null;
      height, maxEnd, inclusive := 1, x.end, x.point;
      repr := {this};
      value := T.Node(T.Leaf, x, T.Leaf, 1, x.end, x.point);
    }
  }

  ghost function Nodes(n: IntervalNode?): set<IntervalNode>
    reads n
  {
    if n == null then {} else n.repr
  }

  ghost function Value(n: IntervalNode?): T.Tree
    reads n
  {
    if n == null then T.Leaf else n.value
  }

  ghost predicate Ok(n: IntervalNode?)
    reads n, Nodes(n)
  {
    n != null ==> n.Valid()
  }

  /** intervalHeight. */
  function HeightOf(n: IntervalNode?): (h: int)
    requires Ok(n)
    reads n, Nodes(n)
    ensures h == T.Height(Value(n))
  {
    if n == null then 0 else n.height
  }

  /** n holds two disjoint trees below it; its own bound may be stale. */
  ghost predicate Joined(n: IntervalNode)
    reads n, n.left, n.right, Nodes(n.left), Nodes(n.right)
  {
    Ok(n.left) && Ok(n.right) && Nodes(n.left) !! Nodes(n.right) && n !in Nodes(n.left) && n !in Nodes(n.right)
  }

  /** The height and bound refreshInterval computes, from the node's own resource and then from each child. */
  method Recomputed(n: IntervalNode) returns (height: int, end: Bytes, inclusive: bool)
    requires Joined(n)
    ensures T.Node(Value(n.left), n.res, Value(n.right), height, end, inclusive)
            == T.Refresh(Value(n.left), n.res, Value(n.right))
  {
    var hl, hr := HeightOf(n.left), HeightOf(n.right);
    height := 1 + if hl < hr then hr else hl;
    end, inclusive := n.res.end, n.res.point;
    if n.left != null && T.UpperGreater(n.left.maxEnd, n.left.inclusive, end, inclusive) {
      end, inclusive := n.left.maxEnd, n.left.inclusive;
    }
    if n.right != null && T.UpperGreater(n.right.maxEnd, n.right.inclusive, end, inclusive) {
      end, inclusive := n.right.maxEnd, n.right.inclusive;
    }
  }

  /** Writing a node's own fields leaves the trees below it as they are. */
  method Settle(n: IntervalNode, height: int, end: Bytes, inclusive: bool)
    requires Joined(n)
    modifies n
    ensures n.Valid() && n.left == old(n.left) && n.right == old(n.right) && n.res == old(n.res)
    ensures Nodes(n.left) == old(Nodes(n.left)) && Nodes(n.right) == old(Nodes(n.right))
    ensures n.value == T.Node(old(Value(n.left)), n.res, old(Value(n.right)), height, end, inclusive)
    ensures n.repr == {n} + Nodes(n.left) + Nodes(n.right)
  {
    n.height := height;
    n.maxEnd := end;
    n.inclusive := inclusive;
    n.repr := {n} + Nodes(n.left) + Nodes(n.right);
    n.value := T.Node(Value(n.left), n.res, Value(n.right), height, end, inclusive);
  }

  /** refreshInterval. */
  method Refresh(n: IntervalNode)
    requires Joined(n)
    modifies n
    ensures n.Valid() && n.left == old(n.left) && n.right == old(n.right) && n.res == old(n.res)
    ensures Nodes(n.left) == old(Nodes(n.left)) && Nodes(n.right) == old(Nodes(n.right))
    ensures n.repr == {n} + Nodes(n.left) + Nodes(n.right)
    ensures n.value == T.Refresh(old(Value(n.left)), n.res, old(Value(n.right)))
  {
    var height, end, inclusive := Recomputed(n);
    Settle(n, height, end, inclusive);
  }

  /** The lower half of a left rotation: n takes over its right child's left subtree. */
  method LowerLeft(n: IntervalNode, right: IntervalNode)
    requires Joined(n) && n.right == right
    modifies n
    ensures n.Valid() && n.value == T.Refresh(old(Value(n.left)), old(n.res), old(Value(right.left)))
    ensures {right} + n.repr + Nodes(right.right) == {n} + old(Nodes(n.left)) + old(Nodes(right))
    ensures Ok(right.right) && right !in n.repr && right !in Nodes(right.right) && n.repr !! Nodes(right.right)
    ensures Value(right.right) == old(Value(right.right)) && Nodes(right.right) == old(Nodes(right.right))
  {
    n.right := right.left;
    Refresh(n);
  }

  /** The lower half of a right rotation. */
  method LowerRight(n: IntervalNode, left: IntervalNode)
    requires Joined(n) && n.left == left
    modifies n
    ensures n.Valid() && n.value == T.Refresh(old(Value(left.right)), old(n.res), old(Value(n.right)))
    ensures {left} + n.repr + Nodes(left.left) == {n} + old(Nodes(left)) + old(Nodes(n.right))
    ensures Ok(left.left) && left !in n.repr && left !in Nodes(left.left) && n.repr !! Nodes(left.left)
    ensures Value(left.left) == old(Value(left.left)) && Nodes(left.left) == old(Nodes(left.left))
  {
    n.left := left.right;
    Refresh(n);
  }

  /** The upper half of a left rotation: n goes below its former child. */
  method RaiseLeft(root: IntervalNode, n: IntervalNode)
    requires n.Valid() && Ok(root.right) && root !in n.repr && root !in Nodes(root.right) && n.repr !! Nodes(root.right)
    modifies root
    ensures root.Valid() && root.repr == {root} + old(n.repr) + old(Nodes(root.right))
    ensures root.value == T.Refresh(old(n.value), old(root.res), old(Value(root.right)))
  {
    root.left := n;
    Refresh(root);
  }

  /** The upper half of a right rotation. */
  method RaiseRight(root: IntervalNode, n: IntervalNode)
    requires n.Valid() && Ok(root.left) && root !in n.repr && root !in Nodes(root.left) && n.repr !! Nodes(root.left)
    modifies root
    ensures root.Valid() && root.repr == {root} + old(n.repr) + old(Nodes(root.left))
    ensures root.value == T.Refresh(old(Value(root.left)), old(root.res), old(n.value))
  {
    root.right := n;
    Refresh(root);
  }

  /** rotateIntervalLeft: n's bound may be stale, its right child's is not. */
  method RotateLeft(n: IntervalNode) returns (root: IntervalNode)
    requires Joined(n) && n.right != null
    modifies n, n.right
    ensures root.Valid() && root.repr == {n} + old(Nodes(n.left)) + old(Nodes(n.right))
    ensures old(Value(n.right)).Node?
    ensures root.value == T.Refresh(T.Refresh(old(Value(n.left)), old(n.res), old(Value(n.right)).left),
                                    old(Value(n.right)).res, old(Value(n.right)).right)
  {
    root := n.right;
    LowerLeft(n, root);
    RaiseLeft(root, n);
  }

  /** rotateIntervalRight. */
  method RotateRight(n: IntervalNode) returns (root: IntervalNode)
    requires Joined(n) && n.left != null
    modifies n, n.left
    ensures root.Valid() && root.repr == {n} + old(Nodes(n.left)) + old(Nodes(n.right))
    ensures old(Value(n.left)).Node?
    ensures root.value == T.Refresh(old(Value(n.left)).left, old(Value(n.left)).res,
                                    T.Refresh(old(Value(n.left)).right, old(n.res), old(Value(n.right))))
  {
    root := n.left;
    LowerRight(n, root);
    RaiseRight(root, n);
  }

  /** What lets balanceInterval rotate: the taller side has the nodes it needs. */
  ghost predicate CanBalance(l: T.Tree, r: T.Tree) {
    && (T.Height(l) > T.Height(r) + 1 ==> l.Node? && T.Deep(l))
    && (T.Height(r) > T.Height(l) + 1 ==> r.Node? && T.Deep(r))
  }

  /** Hanging another tree below n. */
  method HangLeft(n: IntervalNode, child: IntervalNode?)
    requires Ok(child) && Ok(n.right) && n !in Nodes(child) && n !in Nodes(n.right) && Nodes(child) !! Nodes(n.right)
    modifies n
    ensures Joined(n) && n.left == child && n.right == old(n.right) && n.res == old(n.res)
    ensures Value(n.left) == old(Value(child)) && Value(n.right) == old(Value(n.right))
    ensures Nodes(n.left) == old(Nodes(child)) && Nodes(n.right) == old(Nodes(n.right))
  {
    n.left := child;
  }

  method HangRight(n: IntervalNode, child: IntervalNode?)
    requires Ok(child) && Ok(n.left) && n !in Nodes(child) && n !in Nodes(n.left) && Nodes(child) !! Nodes(n.left)
    modifies n
    ensures Joined(n) && n.right == child && n.left == old(n.left) && n.res == old(n.res)
    ensures Value(n.right) == old(Value(child)) && Value(n.left) == old(Value(n.left))
    ensures Nodes(n.right) == old(Nodes(child)) && Nodes(n.left) == old(Nodes(n.left))
  {
    n.right := child;
  }

  /** The first, inner half of a double rotation, where one is needed. */
  method TurnLeftChild(n: IntervalNode)
    requires Joined(n) && n.left != null && T.Deep(Value(n.left))
    modifies n, Nodes(n.left)
    ensures Joined(n) && n.left != null && n.right == old(n.right) && n.res == old(n.res)
    ensures Nodes(n.left) == old(Nodes(n.left)) && Nodes(n.right) == old(Nodes(n.right))
            && Value(n.right) == old(Value(n.right))
    ensures var l := old(Value(n.left));
            Value(n.left) == if T.Height(l.left) < T.Height(l.right) then T.RotateLeft(l) else l
  {
    if HeightOf(n.left.left) < HeightOf(n.left.right) {
      var child := RotateLeft(n.left);
      HangLeft(n, child);
    }
  }

  method TurnRightChild(n: IntervalNode)
    requires Joined(n) && n.right != null && T.Deep(Value(n.right))
    modifies n, Nodes(n.right)
    ensures Joined(n) && n.right != null && n.left == old(n.left) && n.res == old(n.res)
    ensures Nodes(n.left) == old(Nodes(n.left)) && Nodes(n.right) == old(Nodes(n.right))
            && Value(n.left) == old(Value(n.left))
    ensures var r := old(Value(n.right));
            Value(n.right) == if T.Height(r.right) < T.Height(r.left) then T.RotateRight(r) else r
  {
    if HeightOf(n.right.right) < HeightOf(n.right.left) {
      var child := RotateRight(n.right);
      HangRight(n, child);
    }
  }

  method BalanceLeft(n: IntervalNode) returns (root: IntervalNode)
    requires Joined(n) && CanBalance(Value(n.left), Value(n.right))
             && T.Height(Value(n.left)) > T.Height(Value(n.right)) + 1
    modifies n, Nodes(n.left), Nodes(n.right)
    ensures root.Valid() && root.repr == {n} + old(Nodes(n.left)) + old(Nodes(n.right))
    ensures root.value == T.Balance(old(Value(n.left)), old(n.res), old(Value(n.right)))
  {
    TurnLeftChild(n);
    root := RotateRight(n);
  }

  method BalanceRight(n: IntervalNode) returns (root: IntervalNode)
    requires Joined(n) && CanBalance(Value(n.left), Value(n.right))
             && T.Height(Value(n.right)) > T.Height(Value(n.left)) + 1
    modifies n, Nodes(n.left), Nodes(n.right)
    ensures root.Valid() && root.repr == {n} + old(Nodes(n.left)) + old(Nodes(n.right))
    ensures root.value == T.Balance(old(Value(n.left)), old(n.res), old(Value(n.right)))
  {
    TurnRightChild(n);
    root := RotateLeft(n);
  }

  /** balanceInterval. */
  method Balance(n: IntervalNode) returns (root: IntervalNode)
    requires Joined(n) && CanBalance(Value(n.left), Value(n.right))
    modifies n, Nodes(n.left), Nodes(n.right)
    ensures root.Valid() && root.repr == {n} + old(Nodes(n.left)) + old(Nodes(n.right))
    ensures root.value == T.Balance(old(Value(n.left)), old(n.res), old(Value(n.right)))
  {
    Refresh(n);
    var balance := HeightOf(n.left) - HeightOf(n.right);
    if balance > 1 {
      root := BalanceLeft(n);
    } else if balance < -1 {
      root := BalanceRight(n);
    } else {
      root := n;
    }
  }

  /** findInterval. */
  method Find(root: IntervalNode?, x: T.Resource) returns (found: bool)
    requires Ok(root) && T.Sorted(T.List(Value(root)))
    ensures found <==> x in T.List(Value(root))
  {
    var n := root;
    while n != null
      invariant Ok(n) && T.Sorted(T.List(Value(n)))
      invariant x in T.List(Value(root)) <==> x in T.List(Value(n))
      decreases Nodes(n)
    {
      T.SortedParts(T.List(n.value.left), n.res, T.List(n.value.right));
      FoundWhere(n.value, x);
      if x == n.res {
        return true;
      }
      if T.Before(x, n.res) {
        n := n.left;
      } else {
        n := n.right;
      }
    }
    return false;
  }

  lemma FoundWhere(t: T.Tree, x: T.Resource)
    requires t.Node? && (forall e <- T.List(t.left) :: T.Before(e, t.res)) && forall e <- T.List(t.right) ::
             T.Before(t.res, e)
    ensures x in T.List(t) <==> x == t.res || (if T.Before(x, t.res) then x in T.List(t.left) else x in T.List(t.right))
  {
    T.BeforeOrder(x, t.res, x);
    T.BeforeOrder(t.res, x, t.res);
  }

  /** insertInterval. */
  method Insert(root: IntervalNode?, x: T.Resource) returns (top: IntervalNode)
    requires Ok(root) && T.Balanced(Value(root))
    modifies Nodes(root)
    ensures top.Valid() && fresh(top.repr - old(Nodes(root)))
    ensures top.value == T.Insert(old(Value(root)), x)
    decreases Nodes(root), 2
  {
    if root == null {
      top := new IntervalNode(x);
    } else {
      ghost var t := root.value;
      if T.Before(x, root.res) {
        T.BalanceBalanced(T.Insert(t.left, x), root.res, t.right);
        InsertLeft(root, x);
      } else {
        T.BalanceBalanced(t.left, root.res, T.Insert(t.right, x));
        InsertRight(root, x);
      }
      top := Balance(root);
    }
  }

  method InsertLeft(root: IntervalNode, x: T.Resource)
    requires root.Valid() && T.Balanced(root.value)
    modifies root.repr
    ensures Joined(root) && root.res == old(root.res) && root.right == old(root.right)
    ensures Value(root.left) == T.Insert(old(Value(root.left)), x) && Value(root.right) == old(Value(root.right))
    ensures Nodes(root.right) == old(Nodes(root.right)) && fresh(Nodes(root.left) - old(root.repr))
    decreases root.repr, 0
  {
    var child := Insert(root.left, x);
    HangLeft(root, child);
  }

  method InsertRight(root: IntervalNode, x: T.Resource)
    requires root.Valid() && T.Balanced(root.value)
    modifies root.repr
    ensures Joined(root) && root.res == old(root.res) && root.left == old(root.left)
    ensures Value(root.right) == T.Insert(old(Value(root.right)), x) && Value(root.left) == old(Value(root.left))
    ensures Nodes(root.left) == old(Nodes(root.left)) && fresh(Nodes(root.right) - old(root.repr))
    decreases root.repr, 0
  {
    var child := Insert(root.right, x);
    HangRight(root, child);
  }

  /** minInterval. */
  method Least(root: IntervalNode) returns (x: T.Resource)
    requires root.Valid()
    ensures x == T.Min(root.value)
  {
    var n: IntervalNode := root;
    while n.left != null
      invariant n.Valid() && T.Min(root.value) == T.Min(n.value)
      decreases n.repr
    {
      n := n.left;
    }
    x := n.res;
  }

  /** deleteInterval. */
  method Delete(root: IntervalNode?, x: T.Resource) returns (top: IntervalNode?)
    requires Ok(root) && T.Balanced(Value(root))
    modifies Nodes(root)
    ensures Ok(top) && Nodes(top) <= old(Nodes(root))
    ensures Value(top) == T.Delete(old(Value(root)), x)
    decreases Nodes(root), 2
  {
    if root == null {
      return null;
    }
    ghost var t := root.value;
    if T.Before(x, root.res) {
      T.BalanceBalanced(T.Delete(t.left, x), root.res, t.right);
      assert T.Delete(t, x) == T.Balance(T.Delete(t.left, x), root.res, t.right);
      DeleteLeft(root, x);
    } else if T.Before(root.res, x) {
      T.BalanceBalanced(t.left, root.res, T.Delete(t.right, x));
      assert T.Delete(t, x) == T.Balance(t.left, root.res, T.Delete(t.right, x));
      DeleteRight(root, root.res, x);
    } else {
      top := DeleteHere(root, x);
      return;
    }
    top := Balance(root);
  }

  /** The node goes, or takes over its successor's resource. */
  method DeleteHere(root: IntervalNode, x: T.Resource) returns (top: IntervalNode?)
    requires root.Valid() && T.Balanced(root.value) && !T.Before(x, root.res) && !T.Before(root.res, x)
    modifies root.repr
    ensures Ok(top) && Nodes(top) <= old(root.repr)
    ensures Value(top) == T.Delete(old(root.value), x)
    decreases root.repr, 1
  {
    ghost var t := root.value;
    assert Ok(root.left) && Ok(root.right);
    if root.left == null {
      return root.right;
    } else if root.right == null {
      return root.left;
    }
    var next := Least(root.right);
    T.BalanceBalanced(t.left, next, T.Delete(t.right, next));
    assert T.Delete(t, x) == T.Balance(t.left, next, T.Delete(t.right, next));
    DeleteRight(root, next, next);
    top := Balance(root);
  }

  method DeleteLeft(root: IntervalNode, x: T.Resource)
    requires root.Valid() && T.Balanced(root.value)
    modifies root.repr
    ensures Joined(root) && root.res == old(root.res)
    ensures Value(root.left) == T.Delete(old(Value(root.left)), x) && Value(root.right) == old(Value(root.right))
    ensures Nodes(root.right) == old(Nodes(root.right)) && Nodes(root.left) <= old(Nodes(root.left))
    decreases root.repr, 0
  {
    var child := Delete(root.left, x);
    HangLeft(root, child);
  }

  /** The node's own resource becomes y, and x leaves the right subtree. */
  method DeleteRight(root: IntervalNode, y: T.Resource, x: T.Resource)
    requires root.Valid() && T.Balanced(root.value)
    modifies root.repr
    ensures Joined(root) && root.res == y
    ensures Value(root.right) == T.Delete(old(Value(root.right)), x) && Value(root.left) == old(Value(root.left))
    ensures Nodes(root.left) == old(Nodes(root.left)) && Nodes(root.right) <= old(Nodes(root.right))
    decreases root.repr, 0
  {
    var child := Delete(root.right, x);
    HangRight(root, child);
    root.res := y;
  }

  /** intervalMayReachStart. */
  predicate MayReach(n: IntervalNode?, start: Bytes)
    reads n
  {
    n != null && (Less(start, n.maxEnd) || (n.maxEnd == start && n.inclusive))
  }

  /** queryIntervalOverlap: what the callback is handed, and whether it took it all. */
  method QueryOverlap(root: IntervalNode?, start: Bytes, end: Bytes,
                      take: T.Resource -> bool) returns (q: (seq<T.Resource>, bool))
    requires Ok(root)
    ensures q == T.QueryOverlap(Value(root), start, end, take)
    ensures T.Valid(Value(root)) ==> q == T.UpTo(T.Overlapping(T.List(Value(root)), start, end), take)
    decreases Nodes(root)
  {
    if T.Valid(Value(root)) {
      T.OverlapExact(Value(root), start, end, take);
    }
    q := ([], true);
    if root != null {
      assert MayReach(root.left, start) == T.MayReach(root.value.left, start) by {
        assert Ok(root.left);
      }
      if MayReach(root.left, start) {
        q := QueryOverlap(root.left, start, end, take);
        if !q.1 {
          return;
        }
      }
      var own := if T.Overlaps(root.res, start, end) then ([root.res], take(root.res)) else ([], true);
      q := (q.0 + own.0, own.1);
      if !q.1 {
        return;
      }
      var right := ([], true);
      if Less(root.res.start, end) {
        right := QueryOverlap(root.right, start, end, take);
      }
      q := (q.0 + right.0, right.1);
    }
  }

  /** queryContainingSpans. */
  method QueryContaining(root: IntervalNode?, point: Bytes,
                         take: T.Resource -> bool) returns (q: (seq<T.Resource>, bool))
    requires Ok(root)
    ensures q == T.QueryContaining(Value(root), point, take)
    ensures T.Valid(Value(root)) ==> q == T.UpTo(T.Around(T.List(Value(root)), point), take)
    decreases Nodes(root)
  {
    if T.Valid(Value(root)) {
      T.ContainingExact(Value(root), point, take);
    }
    q := ([], true);
    if root != null {
      assert MayReach(root.left, point) == T.MayReach(root.value.left, point) by {
        assert Ok(root.left);
      }
      if MayReach(root.left, point) {
        q := QueryContaining(root.left, point, take);
        if !q.1 {
          return;
        }
      }
      var own := if T.Contains(root.res, point) then ([root.res], take(root.res)) else ([], true);
      q := (q.0 + own.0, own.1);
      if !q.1 {
        return;
      }
      var right := ([], true);
      if LessEq(root.res.start, point) {
        right := QueryContaining(root.right, point, take);
      }
      q := (q.0 + right.0, right.1);
    }
  }
}
