/**
 The interval index as a value: an AVL tree of resources whose nodes carry the largest upper bound
 below them. Every operation is compared with what it does to the sorted list of resources.
 */
module IntervalTree {
  import opened ByteOrder

  /** A point [start] or a span [start, end); a point has end == start. */
  datatype Resource = Resource(start: Bytes, end: Bytes, point: bool) {
    predicate Proper() {
      if point then end == start else Less(start, end)
    }
  }

  /** resourceCompare(a, b) < 0: by start, points before spans, then by end. */
  predicate Before(a: Resource, b: Resource) {
    if a.start != b.start then Less(a.start, b.start)
    else if a.point != b.point then a.point
    else Less(a.end, b.end)
  }

  lemma BeforeOrder(a: Resource, b: Resource, c: Resource)
    ensures !Before(a, a)
    ensures Before(a, b) && Before(b, c) ==> Before(a, c)
    ensures a == b || Before(a, b) || Before(b, a)
    ensures Before(a, b) ==> !Before(b, a) && a != b
  {
    OrderLaws(a.start, b.start, c.start);
    OrderLaws(a.end, b.end, c.end);
    LessIrreflexive(a.end);
    LessTrichotomy(a.start, b.start);
    LessTrichotomy(a.end, b.end);
  }

  datatype Tree = Leaf | Node(left: Tree, res: Resource, right: Tree, height: int, maxEnd: Bytes, inclusive: bool)

  function Height(t: Tree): int {
    if t.Leaf? then 0 else t.height
  }

  /** upperGreater. */
  predicate UpperGreater(end: Bytes, inclusive: bool, other: Bytes, otherInclusive: bool) {
    if end != other then Less(other, end) else inclusive && !otherInclusive
  }

  function MaxInt(a: int, b: int): int {
    if a < b then b else a
  }

  /** refreshInterval: the height and the largest upper bound from the node and its children. */
  function Refresh(l: Tree, x: Resource, r: Tree): Tree {
    var own := (x.end, x.point);
    var lower := if l.Node? && UpperGreater(l.maxEnd, l.inclusive, own.0, own.1) then (l.maxEnd, l.inclusive) else own;
    var upper := if r.Node? && UpperGreater(r.maxEnd, r.inclusive, lower.0, lower.1) then (r.maxEnd, r.inclusive)
        else lower;
    Node(l, x, r, 1 + MaxInt(Height(l), Height(r)), upper.0, upper.1)
  }

  function RotateLeft(t: Tree): Tree
    requires t.Node? && t.right.Node?
  {
    Refresh(Refresh(t.left, t.res, t.right.left), t.right.res, t.right.right)
  }

  function RotateRight(t: Tree): Tree
    requires t.Node? && t.left.Node?
  {
    Refresh(t.left.left, t.left.res, Refresh(t.left.right, t.res, t.right))
  }

  /** A taller child has children of its own: what the rotations rely on. */
  predicate Deep(t: Tree) {
    t.Node? ==>
      (Height(t.left) > Height(t.right) ==> t.left.Node?) && (Height(t.right) > Height(t.left) ==> t.right.Node?)
  }

  /** balanceInterval, applied to a node with children l and r. */
  function Balance(l: Tree, x: Resource, r: Tree): Tree
    requires (Height(l) > Height(r) + 1 ==> l.Node? && Deep(l)) && (Height(r) > Height(l) + 1 ==> r.Node? && Deep(r))
  {
    var t := Refresh(l, x, r);
    if Height(l) - Height(r) > 1 then
      RotateRight(if Height(l.left) < Height(l.right) then Refresh(RotateLeft(l), x, r) else t)
    else if Height(l) - Height(r) < -1 then
      RotateLeft(if Height(r.right) < Height(r.left) then Refresh(l, x, RotateRight(r)) else t)
    else t
  }

  /** The AVL invariant: heights are true and differ by at most one. */
  ghost predicate Balanced(t: Tree) {
    t.Node? ==>
      && Balanced(t.left) && Balanced(t.right)
      && t.height == 1 + MaxInt(Height(t.left), Height(t.right))
      && -1 <= Height(t.left) - Height(t.right) <= 1
  }

  lemma {:induction false} HeightPositive(t: Tree)
    requires Balanced(t)
    ensures Height(t) >= 0 && (t.Node? <==> Height(t) >= 1) && Deep(t)
  {
    if t.Node? {
      HeightPositive(t.left);
      HeightPositive(t.right);
    }
  }

  /** Insertion of x after everything not behind it. */
  function Insert(t: Tree, x: Resource): (r: Tree)
    requires Balanced(t)
    ensures Balanced(r) && Height(t) <= Height(r) <= Height(t) + 1
  {
    if t.Leaf? then Node(Leaf, x, Leaf, 1, x.end, x.point)
    else if Before(x, t.res) then
      var l := Insert(t.left, x);
      BalanceBalanced(l, t.res, t.right);
      Balance(l, t.res, t.right)
    else
      var r := Insert(t.right, x);
      BalanceBalanced(t.left, t.res, r);
      Balance(t.left, t.res, r)
  }

  /** What balancing builds: the node itself, or one of the four rotations. */
  lemma BalanceShape(l: Tree, x: Resource, r: Tree)
    requires (Height(l) > Height(r) + 1 ==> l.Node? && Deep(l)) && (Height(r) > Height(l) + 1 ==> r.Node? && Deep(r))
    ensures -1 <= Height(l) - Height(r) <= 1 ==> Balance(l, x, r) == Refresh(l, x, r)
    ensures Height(l) > Height(r) + 1 && Height(l.left) >= Height(l.right) ==>
              Balance(l, x, r) == Refresh(l.left, l.res, Refresh(l.right, x, r))
    ensures Height(l) > Height(r) + 1 && Height(l.left) < Height(l.right) ==>
              Balance(l, x, r) == Refresh(Refresh(l.left, l.res, l.right.left), l.right.res,
                                          Refresh(l.right.right, x, r))
    ensures Height(r) > Height(l) + 1 && Height(r.right) >= Height(r.left) ==>
              Balance(l, x, r) == Refresh(Refresh(l, x, r.left), r.res, r.right)
    ensures Height(r) > Height(l) + 1 && Height(r.right) < Height(r.left) ==>
              Balance(l, x, r) == Refresh(Refresh(l, x, r.left.left), r.left.res, Refresh(r.left.right, r.res, r.right))
  {
  }

  lemma RefreshBalanced(l: Tree, x: Resource, r: Tree)
    requires Balanced(l) && Balanced(r) && -1 <= Height(l) - Height(r) <= 1
    ensures Balanced(Refresh(l, x, r)) && Height(Refresh(l, x, r)) == 1 + MaxInt(Height(l), Height(r))
  {
  }

  /** One rotation step restores balance after a height change of one. */
  lemma BalanceBalanced(l: Tree, x: Resource, r: Tree)
    requires Balanced(l) && Balanced(r) && -2 <= Height(l) - Height(r) <= 2
    ensures Deep(l) && Deep(r) && (Height(l) > Height(r) + 1 ==> l.Node?) && (Height(r) > Height(l) + 1 ==> r.Node?)
    ensures Balanced(Balance(l, x, r))
    ensures MaxInt(Height(l), Height(r)) <= Height(Balance(l, x, r)) <= 1 + MaxInt(Height(l), Height(r))
    ensures -1 <= Height(l) - Height(r) <= 1 ==> Height(Balance(l, x, r)) == 1 + MaxInt(Height(l), Height(r))
  {
    HeightPositive(l);
    HeightPositive(r);
    BalanceShape(l, x, r);
    if Height(l) > Height(r) + 1 {
      LeftHeavy(l, x, r);
    } else if Height(r) > Height(l) + 1 {
      RightHeavy(l, x, r);
    } else {
      RefreshBalanced(l, x, r);
    }
  }

  lemma LeftHeavy(l: Tree, x: Resource, r: Tree)
    requires Balanced(l) && Balanced(r) && Height(l) == Height(r) + 2 && l.Node?
    ensures Height(l.left) >= Height(l.right) ==>
              && Balanced(Refresh(l.left, l.res, Refresh(l.right, x, r)))
              && Height(l) <= Height(Refresh(l.left, l.res, Refresh(l.right, x, r))) <= Height(l) + 1
    ensures Height(l.left) < Height(l.right) ==>
              && l.right.Node?
              && Balanced(Refresh(Refresh(l.left, l.res, l.right.left), l.right.res, Refresh(l.right.right, x, r)))
              && Height(Refresh(Refresh(l.left, l.res, l.right.left), l.right.res, Refresh(l.right.right, x, r)))
                  == Height(l)
  {
    HeightPositive(l.left);
    HeightPositive(l.right);
    HeightPositive(r);
    if Height(l.left) >= Height(l.right) {
      RefreshBalanced(l.right, x, r);
      RefreshBalanced(l.left, l.res, Refresh(l.right, x, r));
    } else {
      RefreshBalanced(l.left, l.res, l.right.left);
      RefreshBalanced(l.right.right, x, r);
      RefreshBalanced(Refresh(l.left, l.res, l.right.left), l.right.res, Refresh(l.right.right, x, r));
    }
  }

  lemma RightHeavy(l: Tree, x: Resource, r: Tree)
    requires Balanced(l) && Balanced(r) && Height(r) == Height(l) + 2 && r.Node?
    ensures Height(r.right) >= Height(r.left) ==>
              && Balanced(Refresh(Refresh(l, x, r.left), r.res, r.right))
              && Height(r) <= Height(Refresh(Refresh(l, x, r.left), r.res, r.right)) <= Height(r) + 1
    ensures Height(r.right) < Height(r.left) ==>
              && r.left.Node?
              && Balanced(Refresh(Refresh(l, x, r.left.left), r.left.res, Refresh(r.left.right, r.res, r.right)))
              && Height(Refresh(Refresh(l, x, r.left.left), r.left.res, Refresh(r.left.right, r.res, r.right)))
                  == Height(r)
  {
    HeightPositive(r.left);
    HeightPositive(r.right);
    HeightPositive(l);
    if Height(r.right) >= Height(r.left) {
      RefreshBalanced(l, x, r.left);
      RefreshBalanced(Refresh(l, x, r.left), r.res, r.right);
    } else {
      RefreshBalanced(l, x, r.left.left);
      RefreshBalanced(r.left.right, r.res, r.right);
      RefreshBalanced(Refresh(l, x, r.left.left), r.left.res, Refresh(r.left.right, r.res, r.right));
    }
  }

  function Min(t: Tree): Resource
    requires t.Node?
  {
    if t.left.Leaf? then t.res else Min(t.left)
  }

  /** deleteInterval: an inner node takes over its successor's resource. */
  function Delete(t: Tree, x: Resource): (r: Tree)
    requires Balanced(t)
    ensures Balanced(r) && Height(t) - 1 <= Height(r) <= Height(t)
  {
    if t.Leaf? then Leaf
    else if Before(x, t.res) then
      var l := Delete(t.left, x);
      BalanceBalanced(l, t.res, t.right);
      Balance(l, t.res, t.right)
    else if Before(t.res, x) then
      var r := Delete(t.right, x);
      BalanceBalanced(t.left, t.res, r);
      Balance(t.left, t.res, r)
    else if t.left.Leaf? then HeightPositive(t.right); t.right
    else if t.right.Leaf? then HeightPositive(t.left); t.left
    else
      var next := Min(t.right);
      var r := Delete(t.right, next);
      BalanceBalanced(t.left, next, r);
      Balance(t.left, next, r)
  }

  function List(t: Tree): seq<Resource> {
    if t.Leaf? then [] else List(t.left) + [t.res] + List(t.right)
  }

  lemma RefreshList(l: Tree, x: Resource, r: Tree)
    ensures List(Refresh(l, x, r)) == List(l) + [x] + List(r)
  {
  }

  /** Both nestings of two nodes over three subtrees list the same. */
  lemma NestedList(a: Tree, x: Resource, b: Tree, y: Resource, c: Tree)
    ensures List(Refresh(a, x, Refresh(b, y, c))) == List(a) + [x] + (List(b) + [y] + List(c))
    ensures List(Refresh(Refresh(a, x, b), y, c)) == (List(a) + [x] + List(b)) + [y] + List(c)
    ensures List(a) + [x] + (List(b) + [y] + List(c)) == (List(a) + [x] + List(b)) + [y] + List(c)
  {
    RefreshList(a, x, b);
    RefreshList(b, y, c);
    RefreshList(a, x, Refresh(b, y, c));
    RefreshList(Refresh(a, x, b), y, c);
  }

  /** Rotations keep the list. */
  lemma BalanceList(l: Tree, x: Resource, r: Tree)
    requires (Height(l) > Height(r) + 1 ==> l.Node? && Deep(l)) && (Height(r) > Height(l) + 1 ==> r.Node? && Deep(r))
    ensures List(Balance(l, x, r)) == List(l) + [x] + List(r)
  {
    BalanceShape(l, x, r);
    if Height(l) > Height(r) + 1 {
      NestedList(l.left, l.res, l.right, x, r);
      if Height(l.left) < Height(l.right) {
        var m := l.right;
        RefreshList(m.right, x, r);
        RefreshList(l.left, l.res, m.left);
        RefreshList(Refresh(l.left, l.res, m.left), m.res, Refresh(m.right, x, r));
        SplitMiddle(List(l.left), l.res, List(m.left), m.res, List(m.right), x, List(r));
      }
    } else if Height(r) > Height(l) + 1 {
      NestedList(l, x, r.left, r.res, r.right);
      if Height(r.right) < Height(r.left) {
        var m := r.left;
        RefreshList(l, x, m.left);
        RefreshList(m.right, r.res, r.right);
        RefreshList(Refresh(l, x, m.left), m.res, Refresh(m.right, r.res, r.right));
        SplitMiddle(List(l), x, List(m.left), m.res, List(m.right), r.res, List(r.right));
      }
    } else {
      RefreshList(l, x, r);
    }
  }

  /** The three ways to nest a double rotation over four lists. */
  lemma SplitMiddle(a: seq<Resource>, x: Resource, b: seq<Resource>, y: Resource, c: seq<Resource>, z: Resource,
                    d: seq<Resource>)
    ensures (a + [x] + b) + [y] + (c + [z] + d) == (a + [x] + (b + [y] + c)) + [z] + d
    ensures (a + [x] + b) + [y] + (c + [z] + d) == a + [x] + ((b + [y] + c) + [z] + d)
  {
  }

  // The sorted list the tree stands for.

  ghost predicate Sorted(s: seq<Resource>) {
    forall i, j :: InOrder(s, i, j)
  }

  ghost predicate InOrder(s: seq<Resource>, i: int, j: int) {
    0 <= i < j < |s| ==> Before(s[i], s[j])
  }

  lemma SortedParts(a: seq<Resource>, x: Resource, b: seq<Resource>)
    requires Sorted(a + [x] + b)
    ensures Sorted(a) && Sorted(b) && (forall e <- a :: Before(e, x)) && forall e <- b :: Before(x, e)
  {
    var s := a + [x] + b;
    forall i, j
      ensures InOrder(a, i, j) && InOrder(b, i, j)
    {
      assert InOrder(s, i, j) && InOrder(s, |a| + 1 + i, |a| + 1 + j);
    }
    forall e | e in a
      ensures Before(e, x)
    {
      var i :| 0 <= i < |a| && a[i] == e;
      assert InOrder(s, i, |a|);
    }
    forall e | e in b
      ensures Before(x, e)
    {
      var i :| 0 <= i < |b| && b[i] == e;
      assert InOrder(s, |a|, |a| + 1 + i);
    }
  }

  lemma SortedJoin(a: seq<Resource>, x: Resource, b: seq<Resource>)
    requires Sorted(a) && Sorted(b) && (forall e <- a :: Before(e, x)) && forall e <- b :: Before(x, e)
    ensures Sorted(a + [x] + b)
  {
    var s := a + [x] + b;
    forall i, j
      ensures InOrder(s, i, j)
    {
      assert InOrder(a, i, j) && InOrder(b, i - |a| - 1, j - |a| - 1);
      if 0 <= i < j < |s| {
        BeforeOrder(s[i], x, s[j]);
        assert i < |a| ==> s[i] in a;
        assert j > |a| ==> s[j] in b;
      }
    }
  }

  /** Linear insertion before the first resource x precedes. */
  function InsertSorted(s: seq<Resource>, x: Resource): seq<Resource> {
    if s == [] then [x]
    else if Before(x, s[0]) then [x] + s
    else [s[0]] + InsertSorted(s[1..], x)
  }

  lemma {:induction false} InsertLeft(a: seq<Resource>, y: Resource, b: seq<Resource>, x: Resource)
    requires Before(x, y)
    ensures InsertSorted(a + [y] + b, x) == InsertSorted(a, x) + [y] + b
  {
    var s := a + [y] + b;
    if a != [] {
      assert s[1..] == a[1..] + [y] + b;
      InsertLeft(a[1..], y, b, x);
    } else {
      assert s == [y] + b;
    }
  }

  lemma {:induction false} InsertRight(a: seq<Resource>, b: seq<Resource>, x: Resource)
    requires forall e <- a :: !Before(x, e)
    ensures InsertSorted(a + b, x) == a + InsertSorted(b, x)
  {
    if a != [] {
      assert (a + b)[1..] == a[1..] + b;
      InsertRight(a[1..], b, x);
    } else {
      assert a + b == b;
    }
  }

  lemma InsertBehind(a: seq<Resource>, y: Resource, b: seq<Resource>, x: Resource)
    requires (forall e <- a :: Before(e, y)) && !Before(x, y)
    ensures InsertSorted(a + [y] + b, x) == a + [y] + InsertSorted(b, x)
  {
    forall e | e in a + [y]
      ensures !Before(x, e)
    {
      BeforeOrder(e, y, x);
      BeforeOrder(x, e, y);
    }
    InsertRight(a + [y], b, x);
  }

  /** Inserting into the tree is inserting into the list. */
  lemma {:induction false} InsertList(t: Tree, x: Resource)
    requires Balanced(t) && Sorted(List(t))
    ensures List(Insert(t, x)) == InsertSorted(List(t), x)
  {
    if t.Node? {
      SortedParts(List(t.left), t.res, List(t.right));
      if Before(x, t.res) {
        InsertList(t.left, x);
        BalanceBalanced(Insert(t.left, x), t.res, t.right);
        BalanceList(Insert(t.left, x), t.res, t.right);
        assert Insert(t, x) == Balance(Insert(t.left, x), t.res, t.right);
        InsertLeft(List(t.left), t.res, List(t.right), x);
      } else {
        InsertList(t.right, x);
        BalanceBalanced(t.left, t.res, Insert(t.right, x));
        BalanceList(t.left, t.res, Insert(t.right, x));
        InsertBehind(List(t.left), t.res, List(t.right), x);
      }
    }
  }

  function Without(s: seq<Resource>, x: Resource): seq<Resource> {
    if s == [] then [] else (if s[0] == x then [] else [s[0]]) + Without(s[1..], x)
  }

  lemma {:induction false} WithoutConcat(a: seq<Resource>, b: seq<Resource>, x: Resource)
    ensures Without(a + b, x) == Without(a, x) + Without(b, x)
  {
    if a != [] {
      assert (a + b)[1..] == a[1..] + b;
      WithoutConcat(a[1..], b, x);
    } else {
      assert a + b == b;
    }
  }

  lemma {:induction false} WithoutAbsent(s: seq<Resource>, x: Resource)
    requires x !in s
    ensures Without(s, x) == s
  {
    if s != [] {
      WithoutAbsent(s[1..], x);
    }
  }

  lemma WithoutParts(a: seq<Resource>, y: Resource, b: seq<Resource>, x: Resource)
    ensures Without(a + [y] + b, x) == Without(a, x) + (if y == x then [] else [y]) + Without(b, x)
  {
    WithoutConcat(a + [y], b, x);
    WithoutConcat(a, [y], x);
    assert Without([y], x) == if y == x then [] else [y];
  }

  lemma {:induction false} MinFirst(t: Tree)
    requires t.Node?
    ensures List(t) != [] && List(t)[0] == Min(t)
  {
    if t.left.Node? {
      MinFirst(t.left);
    }
  }

  /** Deleting from the tree is removing from the list. */
  lemma {:induction false} DeleteList(t: Tree, x: Resource)
    requires Balanced(t) && Sorted(List(t))
    ensures List(Delete(t, x)) == Without(List(t), x)
    decreases t, 1
  {
    if t.Node? {
      SortedParts(List(t.left), t.res, List(t.right));
      BeforeOrder(x, t.res, x);
      if Before(x, t.res) {
        DeleteList(t.left, x);
        DeleteBelow(t, x);
      } else if Before(t.res, x) {
        DeleteList(t.right, x);
        DeleteAbove(t, x);
      } else {
        DeleteHere(t);
      }
    }
  }

  lemma DeleteBelow(t: Tree, x: Resource)
    requires Balanced(t) && t.Node? && Before(x, t.res) && List(Delete(t.left, x)) == Without(List(t.left), x)
    requires forall e <- List(t.right) :: Before(t.res, e)
    ensures List(Delete(t, x)) == Without(List(t), x)
  {
    BeforeOrder(x, t.res, x);
    WithoutParts(List(t.left), t.res, List(t.right), x);
    AbsentRight(List(t.right), t.res, x);
    BalanceBalanced(Delete(t.left, x), t.res, t.right);
    BalanceList(Delete(t.left, x), t.res, t.right);
  }

  lemma DeleteAbove(t: Tree, x: Resource)
    requires Balanced(t) && t.Node? && Before(t.res, x) && List(Delete(t.right, x)) == Without(List(t.right), x)
    requires forall e <- List(t.left) :: Before(e, t.res)
    ensures List(Delete(t, x)) == Without(List(t), x)
  {
    BeforeOrder(x, t.res, x);
    WithoutParts(List(t.left), t.res, List(t.right), x);
    AbsentLeft(List(t.left), t.res, x);
    BalanceBalanced(t.left, t.res, Delete(t.right, x));
    BalanceList(t.left, t.res, Delete(t.right, x));
  }

  lemma DeleteHere(t: Tree)
    requires Balanced(t) && t.Node? && Sorted(List(t)) && Sorted(List(t.right))
    requires (forall e <- List(t.left) :: Before(e, t.res)) && forall e <- List(t.right) :: Before(t.res, e)
    ensures List(Delete(t, t.res)) == Without(List(t), t.res)
    decreases t, 0, 1
  {
    WithoutMiddle(List(t.left), t.res, List(t.right));
    if t.left.Node? && t.right.Node? {
      DeleteInner(t);
    } else {
      DeleteEdge(t);
    }
  }

  lemma WithoutMiddle(a: seq<Resource>, y: Resource, b: seq<Resource>)
    requires (forall e <- a :: Before(e, y)) && forall e <- b :: Before(y, e)
    ensures Without(a + [y] + b, y) == a + b
  {
    BeforeOrder(y, y, y);
    WithoutParts(a, y, b, y);
    AbsentLeft(a, y, y);
    AbsentRight(b, y, y);
    assert a + [] == a;
  }

  /** A node with at most one child is replaced by that child. */
  lemma DeleteEdge(t: Tree)
    requires Balanced(t) && t.Node? && (t.left.Leaf? || t.right.Leaf?)
    ensures List(Delete(t, t.res)) == List(t.left) + List(t.right)
  {
    BeforeOrder(t.res, t.res, t.res);
    if t.left.Leaf? {
      assert [] + List(t.right) == List(t.right);
    } else {
      assert List(t.left) + [] == List(t.left);
    }
  }

  lemma AbsentRight(b: seq<Resource>, y: Resource, x: Resource)
    requires (forall e <- b :: Before(y, e)) && !Before(y, x)
    ensures Without(b, x) == b
  {
    WithoutAbsent(b, x);
  }

  lemma AbsentLeft(a: seq<Resource>, y: Resource, x: Resource)
    requires (forall e <- a :: Before(e, y)) && !Before(x, y)
    ensures Without(a, x) == a
  {
    WithoutAbsent(a, x);
  }

  /** An inner node replaced by its successor loses only its own resource. */
  lemma {:induction false} DeleteInner(t: Tree)
    requires Balanced(t) && t.Node? && t.left.Node? && t.right.Node? && Sorted(List(t)) && Sorted(List(t.right))
    ensures List(Delete(t, t.res)) == List(t.left) + List(t.right)
    decreases t, 0, 0
  {
    var b, next := List(t.right), Min(t.right);
    MinFirst(t.right);
    BeforeOrder(t.res, t.res, t.res);
    DeleteList(t.right, next);
    assert b == [] + [next] + b[1..];
    SortedParts([], next, b[1..]);
    WithoutParts([], next, b[1..], next);
    BeforeOrder(next, next, next);
    AbsentRight(b[1..], next, next);
    BalanceBalanced(t.left, next, Delete(t.right, next));
    BalanceList(t.left, next, Delete(t.right, next));
  }

  /** Every node's bound is recomputed from its children. */
  ghost predicate Augmented(t: Tree) {
    t.Node? ==> Augmented(t.left) && Augmented(t.right) && t == Refresh(t.left, t.res, t.right)
  }

  lemma BalanceAugmented(l: Tree, x: Resource, r: Tree)
    requires (Height(l) > Height(r) + 1 ==> l.Node? && Deep(l)) && (Height(r) > Height(l) + 1 ==> r.Node? && Deep(r))
    requires Augmented(l) && Augmented(r)
    ensures Augmented(Balance(l, x, r))
  {
    BalanceShape(l, x, r);
    if Height(l) > Height(r) + 1 {
      if Height(l.left) < Height(l.right) {
        RefreshAugmented(l.left, l.res, l.right.left);
        RefreshAugmented(l.right.right, x, r);
        RefreshAugmented(Refresh(l.left, l.res, l.right.left), l.right.res, Refresh(l.right.right, x, r));
      } else {
        RefreshAugmented(l.right, x, r);
        RefreshAugmented(l.left, l.res, Refresh(l.right, x, r));
      }
    } else if Height(r) > Height(l) + 1 {
      if Height(r.right) < Height(r.left) {
        RefreshAugmented(l, x, r.left.left);
        RefreshAugmented(r.left.right, r.res, r.right);
        RefreshAugmented(Refresh(l, x, r.left.left), r.left.res, Refresh(r.left.right, r.res, r.right));
      } else {
        RefreshAugmented(l, x, r.left);
        RefreshAugmented(Refresh(l, x, r.left), r.res, r.right);
      }
    } else {
      RefreshAugmented(l, x, r);
    }
  }

  lemma RefreshAugmented(l: Tree, x: Resource, r: Tree)
    requires Augmented(l) && Augmented(r)
    ensures Augmented(Refresh(l, x, r))
  {
  }

  lemma {:induction false} InsertAugmented(t: Tree, x: Resource)
    requires Balanced(t) && Augmented(t)
    ensures Augmented(Insert(t, x))
  {
    if t.Leaf? {
      RefreshAugmented(Leaf, x, Leaf);
    } else if Before(x, t.res) {
      InsertAugmented(t.left, x);
      BalanceBalanced(Insert(t.left, x), t.res, t.right);
      BalanceAugmented(Insert(t.left, x), t.res, t.right);
    } else {
      InsertAugmented(t.right, x);
      BalanceBalanced(t.left, t.res, Insert(t.right, x));
      BalanceAugmented(t.left, t.res, Insert(t.right, x));
    }
  }

  lemma {:induction false} DeleteAugmented(t: Tree, x: Resource)
    requires Balanced(t) && Augmented(t)
    ensures Augmented(Delete(t, x))
  {
    if t.Node? {
      if Before(x, t.res) {
        DeleteAugmented(t.left, x);
        BalanceBalanced(Delete(t.left, x), t.res, t.right);
        BalanceAugmented(Delete(t.left, x), t.res, t.right);
      } else if Before(t.res, x) {
        DeleteAugmented(t.right, x);
        BalanceBalanced(t.left, t.res, Delete(t.right, x));
        BalanceAugmented(t.left, t.res, Delete(t.right, x));
      } else if t.left.Node? && t.right.Node? {
        var next := Min(t.right);
        DeleteAugmented(t.right, next);
        BalanceBalanced(t.left, next, Delete(t.right, next));
        BalanceAugmented(t.left, next, Delete(t.right, next));
      }
    }
  }

  /** The bound of a node is the greatest upper bound of the resources below it. */
  lemma {:induction false} BoundIsGreatest(t: Tree)
    requires Augmented(t) && t.Node?
    ensures forall x <- List(t) :: !UpperGreater(x.end, x.point, t.maxEnd, t.inclusive)
    ensures exists x <- List(t) :: x.end == t.maxEnd && x.point == t.inclusive
  {
    if t.left.Node? {
      BoundIsGreatest(t.left);
    }
    if t.right.Node? {
      BoundIsGreatest(t.right);
    }
    forall x | x in List(t)
      ensures !UpperGreater(x.end, x.point, t.maxEnd, t.inclusive)
    {
      BoundStep(t, x);
    }
    assert t.res in List(t);
    assert forall x <- List(t.left) :: x in List(t);
    assert forall x <- List(t.right) :: x in List(t);
  }

  lemma UpperOrder(a: Bytes, i: bool, b: Bytes, j: bool, c: Bytes, k: bool)
    ensures UpperGreater(a, i, b, j) ==> !UpperGreater(b, j, a, i)
    ensures !UpperGreater(a, i, b, j) && !UpperGreater(b, j, c, k) ==> !UpperGreater(a, i, c, k)
    ensures !UpperGreater(a, i, a, i)
  {
    OrderLaws(a, b, c);
    OrderLaws(b, c, a);
    OrderLaws(c, a, b);
    LessTrichotomy(a, b);
  }

  /** A refreshed node's bound is at least its own resource's and its children's. */
  lemma RefreshBound(l: Tree, x: Resource, r: Tree)
    ensures var t := Refresh(l, x, r);
            && !UpperGreater(x.end, x.point, t.maxEnd, t.inclusive)
            && (l.Node? ==> !UpperGreater(l.maxEnd, l.inclusive, t.maxEnd, t.inclusive))
            && (r.Node? ==> !UpperGreater(r.maxEnd, r.inclusive, t.maxEnd, t.inclusive))
  {
    var t := Refresh(l, x, r);
    UpperOrder(x.end, x.point, x.end, x.point, t.maxEnd, t.inclusive);
    if l.Node? {
      UpperOrder(l.maxEnd, l.inclusive, x.end, x.point, t.maxEnd, t.inclusive);
      UpperOrder(x.end, x.point, l.maxEnd, l.inclusive, t.maxEnd, t.inclusive);
      if r.Node? {
        UpperOrder(r.maxEnd, r.inclusive, l.maxEnd, l.inclusive, t.maxEnd, t.inclusive);
        UpperOrder(x.end, x.point, l.maxEnd, l.inclusive, r.maxEnd, r.inclusive);
        UpperOrder(l.maxEnd, l.inclusive, x.end, x.point, r.maxEnd, r.inclusive);
      }
    }
    if r.Node? {
      UpperOrder(r.maxEnd, r.inclusive, x.end, x.point, t.maxEnd, t.inclusive);
    }
  }

  lemma BoundStep(t: Tree, x: Resource)
    requires t.Node? && t == Refresh(t.left, t.res, t.right) && x in List(t)
    requires t.left.Node? ==> forall x <- List(t.left) :: !UpperGreater(x.end, x.point, t.left.maxEnd, t.left.inclusive)
    requires t.right.Node? ==>
               forall x <- List(t.right) :: !UpperGreater(x.end, x.point, t.right.maxEnd, t.right.inclusive)
    ensures !UpperGreater(x.end, x.point, t.maxEnd, t.inclusive)
  {
    RefreshBound(t.left, t.res, t.right);
    if x in List(t.left) {
      UpperOrder(x.end, x.point, t.left.maxEnd, t.left.inclusive, t.maxEnd, t.inclusive);
    } else if x in List(t.right) {
      UpperOrder(x.end, x.point, t.right.maxEnd, t.right.inclusive, t.maxEnd, t.inclusive);
    }
  }

  // Queries.

  predicate Overlaps(x: Resource, start: Bytes, end: Bytes) {
    if x.point then LessEq(start, x.start) && Less(x.start, end)
    else Less(x.start, end) && Less(start, x.end)
  }

  predicate Contains(x: Resource, point: Bytes) {
    !x.point && LessEq(x.start, point) && Less(point, x.end)
  }

  function Filter(s: seq<Resource>, f: Resource -> bool): seq<Resource> {
    if s == [] then [] else (if f(s[0]) then [s[0]] else []) + Filter(s[1..], f)
  }

  /** The linear answer to the overlap query. */
  function Overlapping(s: seq<Resource>, start: Bytes, end: Bytes): seq<Resource> {
    Filter(s, (x: Resource) => Overlaps(x, start, end))
  }

  /** The linear answer to the containing query. */
  function Around(s: seq<Resource>, point: Bytes): seq<Resource> {
    Filter(s, (x: Resource) => Contains(x, point))
  }

  /** What a callback sees of a list: everything up to and including the first resource it refuses. */
  function UpTo(s: seq<Resource>, take: Resource -> bool): (seq<Resource>, bool) {
    if s == [] then ([], true)
    else if !take(s[0]) then ([s[0]], false)
    else
      var rest := UpTo(s[1..], take);
      ([s[0]] + rest.0, rest.1)
  }

  lemma {:induction false} FilterHas(s: seq<Resource>, f: Resource -> bool, x: Resource)
    ensures x in Filter(s, f) <==> x in s && f(x)
  {
    if s != [] {
      FilterHas(s[1..], f, x);
      assert s == [s[0]] + s[1..];
    }
  }

  /** A callback that refuses nothing sees the whole list. */
  lemma {:induction false} UpToAll(s: seq<Resource>, take: Resource -> bool)
    requires forall x :: take(x)
    ensures UpTo(s, take) == (s, true)
  {
    if s != [] {
      UpToAll(s[1..], take);
      assert s == [s[0]] + s[1..];
    }
  }

  /** intervalMayReachStart. */
  predicate MayReach(t: Tree, start: Bytes) {
    t.Node? && (Less(start, t.maxEnd) || (t.maxEnd == start && t.inclusive))
  }

  function Then(a: (seq<Resource>, bool), b: (seq<Resource>, bool)): (seq<Resource>, bool) {
    if a.1 then (a.0 + b.0, b.1) else a
  }

  /** queryIntervalOverlap: the resources handed to the callback, and whether it took them all. */
  function QueryOverlap(t: Tree, start: Bytes, end: Bytes, take: Resource -> bool): (seq<Resource>, bool) {
    if t.Leaf? then ([], true)
    else
      var left := if MayReach(t.left, start) then QueryOverlap(t.left, start, end, take) else ([], true);
      var own := if Overlaps(t.res, start, end) then ([t.res], take(t.res)) else ([], true);
      var right := if Less(t.res.start, end) then QueryOverlap(t.right, start, end, take) else ([], true);
      Then(Then(left, own), right)
  }

  /** queryContainingSpans. */
  function QueryContaining(t: Tree, point: Bytes, take: Resource -> bool): (seq<Resource>, bool) {
    if t.Leaf? then ([], true)
    else
      var left := if MayReach(t.left, point) then QueryContaining(t.left, point, take) else ([], true);
      var own := if Contains(t.res, point) then ([t.res], take(t.res)) else ([], true);
      var right := if LessEq(t.res.start, point) then QueryContaining(t.right, point, take) else ([], true);
      Then(Then(left, own), right)
  }

  lemma {:induction false} UpToConcat(a: seq<Resource>, b: seq<Resource>, take: Resource -> bool)
    ensures UpTo(a + b, take) == Then(UpTo(a, take), UpTo(b, take))
  {
    if a == [] {
      assert a + b == b && [] + UpTo(b, take).0 == UpTo(b, take).0;
    } else {
      assert (a + b)[1..] == a[1..] + b;
      UpToConcat(a[1..], b, take);
      assert [a[0]] + (UpTo(a[1..], take).0 + UpTo(b, take).0) == [a[0]] + UpTo(a[1..], take).0 + UpTo(b, take).0;
    }
  }

  lemma {:induction false} FilterConcat(a: seq<Resource>, b: seq<Resource>, f: Resource -> bool)
    ensures Filter(a + b, f) == Filter(a, f) + Filter(b, f)
  {
    if a == [] {
      assert a + b == b;
    } else {
      assert (a + b)[1..] == a[1..] + b;
      FilterConcat(a[1..], b, f);
    }
  }

  lemma {:induction false} FilterNone(s: seq<Resource>, f: Resource -> bool)
    requires forall x <- s :: !f(x)
    ensures Filter(s, f) == []
  {
    if s != [] {
      FilterNone(s[1..], f);
    }
  }

  lemma UpToParts(a: seq<Resource>, x: Resource, b: seq<Resource>, f: Resource -> bool, take: Resource -> bool)
    ensures UpTo(Filter(a + [x] + b, f), take)
         == Then(Then(UpTo(Filter(a, f), take), if f(x) then ([x], take(x)) else ([], true)), UpTo(Filter(b, f), take))
  {
    FilterConcat(a + [x], b, f);
    FilterConcat(a, [x], f);
    UpToConcat(Filter(a, f) + Filter([x], f), Filter(b, f), take);
    UpToConcat(Filter(a, f), Filter([x], f), take);
    assert Filter([x], f) == if f(x) then [x] else [];
    assert [x][1..] == [] && [x] + [] == [x];
    assert UpTo([x], take) == ([x], take(x));
  }

  /** The index invariant: search order, AVL balance, and the bounds. */
  ghost predicate Valid(t: Tree) {
    Balanced(t) && Augmented(t) && Sorted(List(t)) && forall x <- List(t) :: x.Proper()
  }

  lemma ValidParts(t: Tree)
    requires Valid(t) && t.Node?
    ensures Valid(t.left) && Valid(t.right) && t.res.Proper()
    ensures (forall e <- List(t.left) :: Before(e, t.res)) && forall e <- List(t.right) :: Before(t.res, e)
  {
    SortedParts(List(t.left), t.res, List(t.right));
    assert forall e <- List(t.left) :: e in List(t);
    assert forall e <- List(t.right) :: e in List(t);
    assert t.res in List(t);
  }

  /** A subtree whose bound does not reach start holds nothing that does. */
  lemma NoneReach(t: Tree, start: Bytes, x: Resource)
    requires Valid(t) && !MayReach(t, start) && x in List(t)
    ensures !LessEq(start, x.start) || !x.point
    ensures !Less(start, x.end)
  {
    BoundIsGreatest(t);
    OrderLaws(start, x.end, t.maxEnd);
    OrderLaws(x.end, t.maxEnd, start);
    OrderLaws(t.maxEnd, start, x.end);
  }

  /** The overlap query yields exactly what a linear filter selects, in order, each once. */
  lemma {:induction false} OverlapExact(t: Tree, start: Bytes, end: Bytes, take: Resource -> bool)
    requires Valid(t)
    ensures QueryOverlap(t, start, end, take) == UpTo(Overlapping(List(t), start, end), take)
  {
    if t.Node? {
      var f := (x: Resource) => Overlaps(x, start, end);
      ValidParts(t);
      UpToParts(List(t.left), t.res, List(t.right), f, take);
      OverlapExact(t.left, start, end, take);
      OverlapExact(t.right, start, end, take);
      if !MayReach(t.left, start) {
        forall x | x in List(t.left)
          ensures !f(x)
        {
          NoneReach(t.left, start, x);
        }
        FilterNone(List(t.left), f);
      }
      if !Less(t.res.start, end) {
        forall x | x in List(t.right)
          ensures !f(x)
        {
          OrderLaws(end, t.res.start, x.start);
          OrderLaws(x.start, end, t.res.start);
        }
        FilterNone(List(t.right), f);
      }
    }
  }

  /** The containing query yields exactly the spans around the point, in order, each once. */
  lemma {:induction false} ContainingExact(t: Tree, point: Bytes, take: Resource -> bool)
    requires Valid(t)
    ensures QueryContaining(t, point, take) == UpTo(Around(List(t), point), take)
  {
    if t.Node? {
      var f := (x: Resource) => Contains(x, point);
      ValidParts(t);
      UpToParts(List(t.left), t.res, List(t.right), f, take);
      ContainingExact(t.left, point, take);
      ContainingExact(t.right, point, take);
      if !MayReach(t.left, point) {
        forall x | x in List(t.left)
          ensures !f(x)
        {
          NoneReach(t.left, point, x);
        }
        FilterNone(List(t.left), f);
      }
      if !LessEq(t.res.start, point) {
        forall x | x in List(t.right)
          ensures !f(x)
        {
          OrderLaws(point, t.res.start, x.start);
          OrderLaws(x.start, point, t.res.start);
        }
        FilterNone(List(t.right), f);
      }
    }
  }

  // The invariant over any sequence of updates.

  lemma {:induction false} InsertSortedSorted(s: seq<Resource>, x: Resource)
    requires Sorted(s) && x !in s
    ensures Sorted(InsertSorted(s, x))
    ensures forall e :: e in InsertSorted(s, x) <==> e in s || e == x
  {
    if s == [] {
    } else {
      assert s == [] + [s[0]] + s[1..];
      SortedParts([], s[0], s[1..]);
      BeforeOrder(x, s[0], x);
      if Before(x, s[0]) {
        forall e | e in s
          ensures Before(x, e)
        {
          BeforeOrder(x, s[0], e);
        }
        SortedJoin([], x, s);
        assert [] + [x] + s == [x] + s;
      } else {
        InsertSortedSorted(s[1..], x);
        SortedJoin([], s[0], InsertSorted(s[1..], x));
        assert [] + [s[0]] + InsertSorted(s[1..], x) == [s[0]] + InsertSorted(s[1..], x);
      }
    }
  }

  lemma {:induction false} WithoutSorted(s: seq<Resource>, x: Resource)
    requires Sorted(s)
    ensures Sorted(Without(s, x))
    ensures forall e :: e in Without(s, x) <==> e in s && e != x
  {
    if s != [] {
      assert s == [] + [s[0]] + s[1..];
      SortedParts([], s[0], s[1..]);
      WithoutSorted(s[1..], x);
      SortedJoin([], s[0], Without(s[1..], x));
      assert [] + [s[0]] + Without(s[1..], x) == [s[0]] + Without(s[1..], x);
      assert Without(s, x) == Without(s[1..], x) || Without(s, x) == [s[0]] + Without(s[1..], x);
    }
  }

  /** Inserting an absent resource keeps the invariant and adds exactly it. */
  lemma InsertKeeps(t: Tree, x: Resource)
    requires Valid(t) && x.Proper() && x !in List(t)
    ensures Valid(Insert(t, x)) && forall e :: e in List(Insert(t, x)) <==> e in List(t) || e == x
  {
    InsertList(t, x);
    InsertAugmented(t, x);
    InsertSortedSorted(List(t), x);
  }

  /** Deleting keeps the invariant and removes exactly the resource. */
  lemma DeleteKeeps(t: Tree, x: Resource)
    requires Valid(t)
    ensures Valid(Delete(t, x)) && forall e :: e in List(Delete(t, x)) <==> e in List(t) && e != x
  {
    DeleteList(t, x);
    DeleteAugmented(t, x);
    WithoutSorted(List(t), x);
  }

  datatype Update = Inserted(x: Resource) | Deleted(x: Resource)

  /** What the engine does: a resource is inserted only when a search does not find it. */
  ghost function Apply(t: Tree, u: Update): Tree
    requires Balanced(t)
  {
    match u
    case Inserted(x) => if x in List(t) then t else Insert(t, x)
    case Deleted(x) => Delete(t, x)
  }

  ghost function ApplyAll(t: Tree, us: seq<Update>): (r: Tree)
    requires Balanced(t)
    ensures Balanced(r)
  {
    if us == [] then t else Apply(ApplyAll(t, us[..|us| - 1]), us[|us| - 1])
  }

  /** The set of resources a sequence of updates leaves. */
  ghost function Live(us: seq<Update>): set<Resource> {
    if us == [] then {}
    else
      var prior, last := Live(us[..|us| - 1]), us[|us| - 1];
      if last.Inserted? then prior + {last.x} else prior - {last.x}
  }

  /** Any sequence of inserts and deletes keeps the invariant, and the tree lists exactly the live resources. */
  lemma {:induction false} UpdatesKeep(us: seq<Update>)
    requires forall u <- us :: u.x.Proper()
    ensures Valid(ApplyAll(Leaf, us)) && forall e :: e in List(ApplyAll(Leaf, us)) <==> e in Live(us)
  {
    if us == [] {
    } else {
      var init, last := us[..|us| - 1], us[|us| - 1];
      UpdatesKeep(init);
      var t := ApplyAll(Leaf, init);
      if last.Inserted? && last.x !in List(t) {
        InsertKeeps(t, last.x);
      } else if last.Deleted? {
        DeleteKeeps(t, last.x);
      }
    }
  }

  // The height byte.

  function MinSize(h: nat): nat {
    if h == 0 then 0 else if h == 1 then 1 else 1 + MinSize(h - 1) + MinSize(h - 2)
  }

  lemma {:induction false} MinSizeGrows(h: nat)
    ensures MinSize(h) <= MinSize(h + 1)
  {
    if h > 1 {
      MinSizeGrows(h - 1);
      MinSizeGrows(h - 2);
    }
  }

  lemma {:induction false} MinSizeMonotone(h: nat, k: nat)
    requires h <= k
    ensures MinSize(h) <= MinSize(k)
    decreases k
  {
    if h < k {
      MinSizeMonotone(h, k - 1);
      MinSizeGrows(k - 1);
    }
  }

  /** A tree of height h lists at least MinSize(h) resources. */
  lemma {:induction false} SizeAtLeast(t: Tree)
    requires Balanced(t)
    ensures Height(t) >= 0 && |List(t)| >= MinSize(Height(t))
  {
    HeightPositive(t);
    if t.Node? {
      HeightPositive(t.left);
      HeightPositive(t.right);
      SizeAtLeast(t.left);
      SizeAtLeast(t.right);
      if Height(t) >= 2 {
        MinSizeMonotone(Height(t) - 2, Height(t.left));
        MinSizeMonotone(Height(t) - 2, Height(t.right));
      }
    }
  }

  function FourTo(k: nat): nat {
    if k == 0 then 1 else 4 * FourTo(k - 1)
  }

  /** Three more levels quadruple the least size. */
  lemma {:induction false} MinSizeQuadruples(k: nat)
    ensures MinSize(3 * k + 1) >= FourTo(k)
  {
    if k > 0 {
      MinSizeQuadruples(k - 1);
      var h := 3 * k - 2;
      assert MinSize(h + 3) == 1 + MinSize(h + 2) + MinSize(h + 1);
      assert MinSize(h + 2) == 1 + MinSize(h + 1) + MinSize(h);
      assert MinSize(h + 1) == 1 + MinSize(h) + MinSize(h - 1);
      MinSizeGrows(h - 1);
      HalfGrows(h);
    }
  }

  /** The least size at most doubles, plus one, per level. */
  lemma {:induction false} HalfGrows(h: nat)
    requires h >= 1
    ensures 2 * MinSize(h - 1) + 1 >= MinSize(h)
  {
    if h >= 2 {
      MinSizeGrows(h - 2);
    }
  }

  lemma FourTo33()
    ensures FourTo(33) == 0x4_0000_0000_0000_0000
  {
    assert FourTo(8) == 0x1_0000;
    assert FourTo(16) == 0x1_0000_0000;
    assert FourTo(24) == 0x1_0000_0000_0000;
    assert FourTo(32) == 0x1_0000_0000_0000_0000;
  }

  lemma TallIsLarge(h: nat, k: nat)
    requires h > 3 * k
    ensures MinSize(h) >= FourTo(k)
  {
    MinSizeMonotone(3 * k + 1, h);
    MinSizeQuadruples(k);
  }

  lemma HeightBound(t: Tree, k: nat)
    requires Balanced(t) && |List(t)| < FourTo(k)
    ensures 0 <= Height(t) <= 3 * k
  {
    SizeAtLeast(t);
    if Height(t) > 3 * k {
      TallIsLarge(Height(t), k);
    }
  }

  /** With at most 2^64 resources every height fits a signed byte, with room for the balancing arithmetic. */
  lemma HeightFits(t: Tree)
    requires Balanced(t) && |List(t)| <= 0x1_0000_0000_0000_0000
    ensures 0 <= Height(t) < 100
  {
    FourTo33();
    HeightBound(t, 33);
  }
}
