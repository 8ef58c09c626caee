/** Insert, Remove and Find on the AVL tree, and the bound on its height. */
module AvlOperations {
  import opened AvlTree
  import opened Words

  lemma LeftGrownKeeps(n: Tree)
    requires LeftOff(n, 1) && Grown(n.left) && Search(n)
    ensures Keys(LeftGrown(n).0) == Keys(n) && Search(LeftGrown(n).0)
  {
    hide Keys, Search, RotateRight, RotateLeftRight;
    if n.skew == SkewLeft {
      SearchParts(n);
      if n.left.skew == SkewLeft {
        SkewKeeps(n.left, SkewNone);
        LeftChildKeeps(n, n.left.(skew := SkewNone));
        SkewKeeps(n.(left := n.left.(skew := SkewNone)), SkewNone);
        RotateRightKeeps(n.(left := n.left.(skew := SkewNone)).(skew := SkewNone));
      } else {
        RotateLeftRightKeeps(n);
      }
    } else {
      SkewKeeps(n, LeftGrown(n).0.skew);
    }
  }

  lemma RightGrownKeeps(n: Tree)
    requires RightOff(n, 1) && Grown(n.right) && Search(n)
    ensures Keys(RightGrown(n).0) == Keys(n) && Search(RightGrown(n).0)
  {
    hide Keys, Search, RotateLeft, RotateRightLeft;
    if n.skew == SkewRight {
      SearchParts(n);
      if n.right.skew == SkewRight {
        SkewKeeps(n.right, SkewNone);
        RightChildKeeps(n, n.right.(skew := SkewNone));
        SkewKeeps(n.(right := n.right.(skew := SkewNone)), SkewNone);
        RotateLeftKeeps(n.(right := n.right.(skew := SkewNone)).(skew := SkewNone));
      } else {
        RotateRightLeftKeeps(n);
      }
    } else {
      SkewKeeps(n, RightGrown(n).0.skew);
    }
  }

  lemma LeftShrunkKeeps(n: Tree)
    requires LeftOff(n, -1) && Search(n)
    ensures Keys(LeftShrunk(n).0) == Keys(n) && Search(LeftShrunk(n).0)
  {
    hide Keys, Search, RotateLeft, RotateRightLeft;
    if n.skew == SkewRight {
      SearchParts(n);
      if n.right.skew == SkewLeft {
        RotateRightLeftKeeps(n);
      } else {
        var top, child :=
          if n.right.skew == SkewRight then SkewNone else SkewRight,
          if n.right.skew == SkewRight then SkewNone else SkewLeft;
        SkewKeeps(n.right, child);
        RightChildKeeps(n, n.right.(skew := child));
        SkewKeeps(n.(right := n.right.(skew := child)), top);
        RotateLeftKeeps(n.(right := n.right.(skew := child)).(skew := top));
      }
    } else {
      SkewKeeps(n, LeftShrunk(n).0.skew);
    }
  }

  lemma RightShrunkKeeps(n: Tree)
    requires RightOff(n, -1) && Search(n)
    ensures Keys(RightShrunk(n).0) == Keys(n) && Search(RightShrunk(n).0)
  {
    hide Keys, Search, RotateRight, RotateLeftRight;
    if n.skew == SkewLeft {
      SearchParts(n);
      if n.left.skew == SkewRight {
        RotateLeftRightKeeps(n);
      } else {
        var top, child :=
          if n.left.skew == SkewLeft then SkewNone else SkewLeft,
          if n.left.skew == SkewLeft then SkewNone else SkewRight;
        SkewKeeps(n.left, child);
        LeftChildKeeps(n, n.left.(skew := child));
        SkewKeeps(n.(left := n.left.(skew := child)), top);
        RotateRightKeeps(n.(left := n.left.(skew := child)).(skew := top));
      }
    } else {
      SkewKeeps(n, RightShrunk(n).0.skew);
    }
  }

  /** What an operation did to a tree: the height changed by d exactly when it says BALANCE. */
  ghost predicate Changed(t: Tree, t': Tree, res: Result, d: int)
  {
    Search(t') && Balanced(t') && Height(t') == Height(t) + (if res == BALANCE then d else 0)
  }

  /** Key k separates the two subtrees. */
  ghost predicate Between(left: Tree, k: int, right: Tree)
  {
    (forall x :: x in Keys(left) ==> x < k) && (forall x :: x in Keys(right) ==> k < x)
  }

  lemma Assembled(left: Tree, k: int, s: Skew, right: Tree)
    requires Search(left) && Search(right) && Between(left, k, right)
    ensures Search(Node(left, k, s, right)) && Keys(Node(left, k, s, right)) == Keys(left) + {k} + Keys(right)
  {
  }

  lemma Apart(n: Tree)
    requires n.Node? && Search(n)
    ensures Between(n.left, n.key, n.right) && Search(n.left) && Search(n.right)
    ensures Keys(n) == Keys(n.left) + {n.key} + Keys(n.right)
  {
  }

  /** Put a left subtree of height changed by d into n, under key `key`, and rebalance if it says BALANCE. */
  method SetLeft(n: Tree, left: Tree, key: int, res0: Result, d: int) returns (n': Tree, res: Result)
    requires n.Node? && Search(n) && Balanced(n) && Changed(n.left, left, res0, d) && Between(left, key, n.right)
    requires (d == 1 && (res0 == BALANCE ==> Grown(left))) || d == -1
    ensures Changed(n, n', res, d) && Keys(n') == Keys(left) + {key} + Keys(n.right)
    ensures d == 1 && res == BALANCE ==> Grown(n')
    ensures if res0 == BALANCE then res == OK || res == BALANCE else res == res0 && n' == n.(left := left, key := key)
  {
    hide LeftGrown, LeftShrunk, Search, Keys, Balanced, Between;
    Apart(n);
    Parted(n);
    Assembled(left, key, n.skew, n.right);
    n', res := n.(left := left, key := key), res0;
    GrownResult(n');
    if res0 != BALANCE {
      Joined(left, key, n.skew, n.right);
    } else if d == 1 {
      LeftGrownBalances(n');
      LeftGrownKeeps(n');
      n', res := LeftGrown(n').0, LeftGrown(n').1;
    } else {
      LeftShrunkBalances(n');
      LeftShrunkKeeps(n');
      n', res := LeftShrunk(n').0, LeftShrunk(n').1;
    }
  }

  method SetRight(n: Tree, right: Tree, key: int, res0: Result, d: int) returns (n': Tree, res: Result)
    requires n.Node? && Search(n) && Balanced(n) && Changed(n.right, right, res0, d) && Between(n.left, key, right)
    requires (d == 1 && (res0 == BALANCE ==> Grown(right))) || d == -1
    ensures Changed(n, n', res, d) && Keys(n') == Keys(n.left) + {key} + Keys(right)
    ensures d == 1 && res == BALANCE ==> Grown(n')
    ensures if res0 == BALANCE then res == OK || res == BALANCE else res == res0 && n' == n.(right := right, key := key)
  {
    hide RightGrown, RightShrunk, Search, Keys, Balanced, Between;
    Apart(n);
    Parted(n);
    Assembled(n.left, key, n.skew, right);
    n', res := n.(right := right, key := key), res0;
    GrownResult(n');
    if res0 != BALANCE {
      Joined(n.left, key, n.skew, right);
    } else if d == 1 {
      RightGrownBalances(n');
      RightGrownKeeps(n');
      n', res := RightGrown(n').0, RightGrown(n').1;
    } else {
      RightShrunkBalances(n');
      RightShrunkKeeps(n');
      n', res := RightShrunk(n').0, RightShrunk(n').1;
    }
  }

  lemma GrownResult(n: Tree)
    ensures LeftOff(n, 1) && Grown(n.left) ==> LeftGrown(n).1 == OK || LeftGrown(n).1 == BALANCE
    ensures RightOff(n, 1) && Grown(n.right) ==> RightGrown(n).1 == OK || RightGrown(n).1 == BALANCE
    ensures LeftOff(n, -1) ==> LeftShrunk(n).1 == OK || LeftShrunk(n).1 == BALANCE
    ensures RightOff(n, -1) ==> RightShrunk(n).1 == OK || RightShrunk(n).1 == BALANCE
  {
    hide Balanced, Height, RotateLeft, RotateRight, RotateLeftRight, RotateRightLeft;
  }

  /** `room`: whether a node can be allocated. */
  method Insert(n: Tree, x: int, room: bool) returns (n': Tree, res: Result)
    requires Search(n) && Balanced(n)
    ensures Changed(n, n', res, 1) && (res == BALANCE ==> Grown(n'))
    ensures res == DUPLICATE <==> x in Keys(n)
    ensures res == ERROR <==> x !in Keys(n) && !room
    ensures res == OK || res == BALANCE <==> x !in Keys(n) && room
    ensures if res == OK || res == BALANCE then Keys(n') == Keys(n) + {x} else n' == n
    decreases n
  {
    if n.Empty? {
      if !room { return Empty, ERROR; }
      return Node(Empty, x, SkewNone, Empty), BALANCE;
    }
    if n.key > x {
      var left;
      left, res := Insert(n.left, x, room);
      n', res := SetLeft(n, left, n.key, res, 1);
    } else if n.key < x {
      var right;
      right, res := Insert(n.right, x, room);
      n', res := SetRight(n, right, n.key, res, 1);
    } else {
      return n, DUPLICATE;
    }
  }

  /** Take the highest key out of a subtree. */
  method FindHighest(n: Tree) returns (found: bool, n': Tree, key: int, res: Result)
    requires Search(n) && Balanced(n)
    ensures found <==> n.Node?
    ensures found ==> key in Keys(n) && (forall k :: k in Keys(n) ==> k <= key) && Keys(n') == Keys(n) - {key}
    ensures found ==> (res == OK || res == BALANCE) && Changed(n, n', res, -1)
    decreases n
  {
    if n.Empty? { return false, n, 0, BALANCE; }
    if n.right.Empty? { return true, n.left, n.key, BALANCE; }
    var right;
    found, right, key, res := FindHighest(n.right);
    n', res := SetRight(n, right, n.key, res, -1);
  }

  /** Take the lowest key out of a subtree. */
  method FindLowest(n: Tree) returns (found: bool, n': Tree, key: int, res: Result)
    requires Search(n) && Balanced(n)
    ensures found <==> n.Node?
    ensures found ==> key in Keys(n) && (forall k :: k in Keys(n) ==> key <= k) && Keys(n') == Keys(n) - {key}
    ensures found ==> (res == OK || res == BALANCE) && Changed(n, n', res, -1)
    decreases n
  {
    if n.Empty? { return false, n, 0, BALANCE; }
    if n.left.Empty? { return true, n.right, n.key, BALANCE; }
    var left;
    found, left, key, res := FindLowest(n.left);
    n', res := SetLeft(n, left, n.key, res, -1);
  }

  method Remove(n: Tree, x: int) returns (n': Tree, res: Result)
    requires Search(n) && Balanced(n)
    ensures Changed(n, n', res, -1) && Keys(n') == Keys(n) - {x}
    ensures res == NOTFOUND <==> x !in Keys(n)
    ensures res == OK || res == BALANCE <==> x in Keys(n)
    ensures res == NOTFOUND ==> n' == n
    decreases n
  {
    if n.Empty? { return n, NOTFOUND; }
    if n.key > x {
      var left;
      left, res := Remove(n.left, x);
      n', res := SetLeft(n, left, n.key, res, -1);
    } else if n.key < x {
      var right;
      right, res := Remove(n.right, x);
      n', res := SetRight(n, right, n.key, res, -1);
    } else {
      n', res := RemoveTop(n);
    }
  }

  /** Remove the top key: its neighbour in key order takes its place. */
  method RemoveTop(n: Tree) returns (n': Tree, res: Result)
    requires Search(n) && Balanced(n) && n.Node?
    ensures Changed(n, n', res, -1) && Keys(n') == Keys(n) - {n.key} && (res == OK || res == BALANCE)
  {
    var found, child, key;
    if n.left.Node? {
      found, child, key, res := FindHighest(n.left);
      n', res := SetLeft(n, child, key, res, -1);
    } else if n.right.Node? {
      found, child, key, res := FindLowest(n.right);
      n', res := SetRight(n, child, key, res, -1);
    } else {
      return Empty, BALANCE;
    }
  }

  class SearchTree {
    var root: Tree

    constructor ()
      ensures root == Empty && Valid()
    {
      root := Empty;
    }

    ghost predicate Valid()
      reads this
    {
      Search(root) && Balanced(root)
    }

    method Add(x: int, room: bool) returns (res: Result)
      requires Valid()
      modifies this
      ensures Valid() && Keys(root) == old(Keys(root)) + (if room then {x} else {})
      ensures res == DUPLICATE <==> x in old(Keys(root))
    {
      root, res := Insert(root, x, room);
    }

    method Delete(x: int) returns (res: Result)
      requires Valid()
      modifies this
      ensures Valid() && Keys(root) == old(Keys(root)) - {x} && (res == NOTFOUND <==> x !in old(Keys(root)))
    {
      root, res := Remove(root, x);
    }

    method Find(x: int) returns (found: Tree)
      requires Valid()
      ensures if x in Keys(root) then found.Node? && found.key == x else found == Empty
    {
      found := root;
      while found.Node? && found.key != x
        invariant Search(found) && (x in Keys(root) <==> x in Keys(found))
        decreases found
      {
        found := if found.key > x then found.left else found.right;
      }
    }
  }

  // ---- Height ----

  function Size(t: Tree): (n: nat)
  {
    if t.Empty? then 0 else 1 + Size(t.left) + Size(t.right)
  }

  /** The fewest keys a balanced tree of height h can have. */
  function FewestKeys(h: nat): (n: nat)
  {
    if h < 2 then h else 1 + FewestKeys(h - 1) + FewestKeys(h - 2)
  }

  lemma {:induction false} FewestKeysGrow(h: nat)
    ensures FewestKeys(h) < FewestKeys(h + 1)
  {
    if h > 0 { FewestKeysGrow(h - 1); }
  }

  lemma {:induction false} AtLeastFewest(t: Tree)
    requires Balanced(t)
    ensures FewestKeys(Height(t)) <= Size(t)
  {
    if t.Node? {
      AtLeastFewest(t.left);
      AtLeastFewest(t.right);
      var h := Height(t);
      if h >= 2 { FewestKeysGrow(h - 2); }
    }
  }

  lemma {:induction false} FewestKeysSquared(h: nat)
    ensures Pow2(h) <= (FewestKeys(h) + 1) * (FewestKeys(h) + 1)
    decreases h
  {
    if h >= 2 {
      FewestKeysSquared(h - 2);
      FewestKeysGrow(h - 2);
      var a, b := FewestKeys(h) + 1, FewestKeys(h - 2) + 1;
      assert a >= 2 * b;
      Squares(a, b);
      assert Pow2(h) == 2 * Pow2(h - 1) == 4 * Pow2(h - 2);
    }
  }

  lemma Squares(a: nat, b: nat)
    requires a >= 2 * b
    ensures a * a >= 4 * (b * b)
  {
    SquareGrows(2 * b, a);
    assert (2 * b) * (2 * b) == 4 * (b * b);
  }

  /** The height is at most twice the logarithm of the number of keys plus one. */
  lemma HeightLogarithmic(t: Tree)
    requires Balanced(t)
    ensures Pow2(Height(t)) <= (Size(t) + 1) * (Size(t) + 1)
  {
    hide Pow2, FewestKeys, Size, Height;
    AtLeastFewest(t);
    FewestKeysSquared(Height(t));
    SquareGrows(FewestKeys(Height(t)) + 1, Size(t) + 1);
  }

  lemma SquareGrows(a: nat, b: nat)
    requires a <= b
    ensures a * a <= b * b
  {
    assert b * b == a * a + (b - a) * (b + a);
  }
}
