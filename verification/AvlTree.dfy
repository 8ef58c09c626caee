/** CLR_RT_AVLTree: insertion and removal with a skew flag per node.  A reference parameter `Entry*& n`
    becomes a tree passed in and a tree passed out. */
module AvlTree {

  datatype Skew = SkewLeft | SkewNone | SkewRight

  datatype Tree = Empty | Node(left: Tree, key: int, skew: Skew, right: Tree)

  datatype Result = OK | BALANCE | ERROR | DUPLICATE | NOTFOUND

  function Max(a: int, b: int): (m: int) { if a < b then b else a }

  function Height(t: Tree): (h: nat)
  {
    if t.Empty? then 0 else 1 + Max(Height(t.left), Height(t.right))
  }

  function Keys(t: Tree): (s: set<int>)
  {
    if t.Empty? then {} else Keys(t.left) + {t.key} + Keys(t.right)
  }

  /** Height of the right subtree minus that of the left. */
  function Lean(s: Skew): (d: int)
  {
    match s case SkewLeft => -1 case SkewNone => 0 case SkewRight => 1
  }

  /** In search order. */
  ghost predicate Search(t: Tree)
  {
    t.Node? ==>
      && Search(t.left) && Search(t.right)
      && (forall k :: k in Keys(t.left) ==> k < t.key) && (forall k :: k in Keys(t.right) ==> t.key < k)
  }

  /** At every node the skew flag is the difference of the heights. */
  ghost predicate Balanced(t: Tree)
  {
    t.Node? ==> Balanced(t.left) && Balanced(t.right) && Height(t.right) - Height(t.left) == Lean(t.skew)
  }

  function RotateLeft(n: Tree): (r: Tree)
    requires n.Node? && n.right.Node?
  {
    var bottom := n.right;
    bottom.(left := n.(right := bottom.left))
  }

  function RotateRight(n: Tree): (r: Tree)
    requires n.Node? && n.left.Node?
  {
    var bottom := n.left;
    bottom.(right := n.(left := bottom.right))
  }

  lemma RotateLeftKeeps(n: Tree)
    requires n.Node? && n.right.Node? && Search(n)
    ensures Keys(RotateLeft(n)) == Keys(n) && Search(RotateLeft(n))
  {
    var top, bottom := n.(right := n.right.left), n.right;
    assert bottom.key in Keys(bottom) && Keys(bottom.left) <= Keys(bottom) && Keys(bottom.right) <= Keys(bottom);
    assert Search(top) && Keys(top) == Keys(n.left) + {n.key} + Keys(bottom.left);
    forall k | k in Keys(top)
      ensures k < bottom.key
    {
      assert k in Keys(n.left) || k == n.key || k in Keys(bottom.left);
    }
  }

  lemma RotateRightKeeps(n: Tree)
    requires n.Node? && n.left.Node? && Search(n)
    ensures Keys(RotateRight(n)) == Keys(n) && Search(RotateRight(n))
  {
    var top, bottom := n.(left := n.left.right), n.left;
    assert bottom.key in Keys(bottom) && Keys(bottom.left) <= Keys(bottom) && Keys(bottom.right) <= Keys(bottom);
    assert Search(top) && Keys(top) == Keys(bottom.right) + {n.key} + Keys(n.right);
    forall k | k in Keys(top)
      ensures bottom.key < k
    {
      assert k in Keys(bottom.right) || k == n.key || k in Keys(n.right);
    }
  }

  /** Flags do not affect the order. */
  lemma SkewKeeps(n: Tree, s: Skew)
    requires n.Node?
    ensures Keys(n.(skew := s)) == Keys(n) && Search(n.(skew := s)) == Search(n) && Height(n.(skew := s)) == Height(n)
  {
  }

  lemma LeftChildKeeps(n: Tree, left: Tree)
    requires n.Node? && Search(n) && Search(left) && Keys(left) == Keys(n.left)
    ensures Keys(n.(left := left)) == Keys(n) && Search(n.(left := left))
  {
  }

  lemma RightChildKeeps(n: Tree, right: Tree)
    requires n.Node? && Search(n) && Search(right) && Keys(right) == Keys(n.right)
    ensures Keys(n.(right := right)) == Keys(n) && Search(n.(right := right))
  {
  }

  // ---- Rebalancing ----

  /** The flags of the top and of its child after a double rotation. */
  function TopSkew(towards: Skew, inner: Skew, away: Skew): (s: Skew) { if inner == towards then away else SkewNone }

  /** Double rotation at a node whose left child leans right. */
  function RotateLeftRight(n: Tree): (r: Tree)
    requires n.Node? && n.left.Node? && n.left.right.Node?
  {
    var inner := n.left.right;
    var left := n.left.(skew := TopSkew(SkewRight, inner.skew, SkewLeft), right := inner.(skew := SkewNone));
    RotateRight(n.(skew := TopSkew(SkewLeft, inner.skew, SkewRight), left := RotateLeft(left)))
  }

  /** Double rotation at a node whose right child leans left. */
  function RotateRightLeft(n: Tree): (r: Tree)
    requires n.Node? && n.right.Node? && n.right.left.Node?
  {
    var inner := n.right.left;
    var right := n.right.(skew := TopSkew(SkewLeft, inner.skew, SkewRight), left := inner.(skew := SkewNone));
    RotateLeft(n.(skew := TopSkew(SkewRight, inner.skew, SkewLeft), right := RotateRight(right)))
  }

  lemma RotateLeftRightKeeps(n: Tree)
    requires n.Node? && n.left.Node? && n.left.right.Node? && Search(n)
    ensures Keys(RotateLeftRight(n)) == Keys(n) && Search(RotateLeftRight(n))
  {
    hide Keys, Search, RotateLeft, RotateRight;
    SearchParts(n);
    SearchParts(n.left);
    var inner := n.left.right;
    SkewKeeps(inner, SkewNone);
    RightChildKeeps(n.left, inner.(skew := SkewNone));
    var left := n.left.(right := inner.(skew := SkewNone)).(skew := TopSkew(SkewRight, inner.skew, SkewLeft));
    SkewKeeps(n.left.(right := inner.(skew := SkewNone)), TopSkew(SkewRight, inner.skew, SkewLeft));
    RotateLeftKeeps(left);
    LeftChildKeeps(n, RotateLeft(left));
    SkewKeeps(n.(left := RotateLeft(left)), TopSkew(SkewLeft, inner.skew, SkewRight));
    RotatedNode(left);
    RotateRightKeeps(n.(left := RotateLeft(left)).(skew := TopSkew(SkewLeft, inner.skew, SkewRight)));
  }

  lemma RotateRightLeftKeeps(n: Tree)
    requires n.Node? && n.right.Node? && n.right.left.Node? && Search(n)
    ensures Keys(RotateRightLeft(n)) == Keys(n) && Search(RotateRightLeft(n))
  {
    hide Keys, Search, RotateLeft, RotateRight;
    SearchParts(n);
    SearchParts(n.right);
    var inner := n.right.left;
    SkewKeeps(inner, SkewNone);
    LeftChildKeeps(n.right, inner.(skew := SkewNone));
    var right := n.right.(left := inner.(skew := SkewNone)).(skew := TopSkew(SkewLeft, inner.skew, SkewRight));
    SkewKeeps(n.right.(left := inner.(skew := SkewNone)), TopSkew(SkewLeft, inner.skew, SkewRight));
    RotateRightKeeps(right);
    RightChildKeeps(n, RotateRight(right));
    SkewKeeps(n.(right := RotateRight(right)), TopSkew(SkewRight, inner.skew, SkewLeft));
    RotatedNode(right);
    RotateLeftKeeps(n.(right := RotateRight(right)).(skew := TopSkew(SkewRight, inner.skew, SkewLeft)));
  }

  lemma SearchParts(n: Tree)
    requires n.Node? && Search(n)
    ensures Search(n.left) && Search(n.right)
  {
  }

  lemma RotatedNode(n: Tree)
    ensures n.Node? && n.right.Node? ==> RotateLeft(n).Node?
    ensures n.Node? && n.left.Node? ==> RotateRight(n).Node?
  {
  }

  /** A node whose flag tells the difference its subtrees had before the left one changed by d. */
  ghost predicate LeftOff(n: Tree, d: int)
  {
    n.Node? && Balanced(n.left) && Balanced(n.right) && Height(n.right) - (Height(n.left) - d) == Lean(n.skew)
  }

  ghost predicate RightOff(n: Tree, d: int)
  {
    n.Node? && Balanced(n.left) && Balanced(n.right) && (Height(n.right) - d) - Height(n.left) == Lean(n.skew)
  }

  /** A subtree that has just grown is a single node, or leans. */
  ghost predicate Grown(t: Tree)
  {
    t.Node? && (t.skew == SkewNone ==> t.left.Empty? && t.right.Empty?)
  }

  function LeftGrown(n: Tree): (r: (Tree, Result))
    requires LeftOff(n, 1) && Grown(n.left)
  {
    match n.skew
    case SkewLeft =>
      if n.left.skew == SkewLeft then (RotateRight(n.(skew := SkewNone, left := n.left.(skew := SkewNone))), OK)
      else (RotateLeftRight(n), OK)
    case SkewRight => (n.(skew := SkewNone), OK)
    case SkewNone => (n.(skew := SkewLeft), BALANCE)
  }

  function RightGrown(n: Tree): (r: (Tree, Result))
    requires RightOff(n, 1) && Grown(n.right)
  {
    match n.skew
    case SkewLeft => (n.(skew := SkewNone), OK)
    case SkewRight =>
      if n.right.skew == SkewRight then (RotateLeft(n.(skew := SkewNone, right := n.right.(skew := SkewNone))), OK)
      else (RotateRightLeft(n), OK)
    case SkewNone => (n.(skew := SkewRight), BALANCE)
  }

  function LeftShrunk(n: Tree): (r: (Tree, Result))
    requires LeftOff(n, -1)
  {
    match n.skew
    case SkewLeft => (n.(skew := SkewNone), BALANCE)
    case SkewRight =>
      (match n.right.skew
       case SkewRight => (RotateLeft(n.(skew := SkewNone, right := n.right.(skew := SkewNone))), BALANCE)
       case SkewNone => (RotateLeft(n.(skew := SkewRight, right := n.right.(skew := SkewLeft))), OK)
       case SkewLeft => (RotateRightLeft(n), BALANCE))
    case SkewNone => (n.(skew := SkewRight), OK)
  }

  function RightShrunk(n: Tree): (r: (Tree, Result))
    requires RightOff(n, -1)
  {
    match n.skew
    case SkewRight => (n.(skew := SkewNone), BALANCE)
    case SkewLeft =>
      (match n.left.skew
       case SkewLeft => (RotateRight(n.(skew := SkewNone, left := n.left.(skew := SkewNone))), BALANCE)
       case SkewNone => (RotateRight(n.(skew := SkewLeft, left := n.left.(skew := SkewRight))), OK)
       case SkewRight => (RotateLeftRight(n), BALANCE))
    case SkewNone => (n.(skew := SkewLeft), OK)
  }

  /** Height of the node before its subtree changed. */
  function OldHeight(n: Tree, dl: int, dr: int): (h: int)
    requires n.Node?
  {
    1 + Max(Height(n.left) - dl, Height(n.right) - dr)
  }

  lemma Joined(l: Tree, k: int, s: Skew, r: Tree)
    requires Balanced(l) && Balanced(r) && Height(r) - Height(l) == Lean(s)
    ensures Balanced(Node(l, k, s, r)) && Height(Node(l, k, s, r)) == 1 + Max(Height(l), Height(r))
  {
  }

  lemma Parted(t: Tree)
    requires t.Node? && Balanced(t)
    ensures Balanced(t.left) && Balanced(t.right) && Height(t.right) - Height(t.left) == Lean(t.skew)
    ensures Height(t) == 1 + Max(Height(t.left), Height(t.right))
  {
  }

  /** Four subtrees a, b, c, d of heights at most one apart, b and c under a node that leans `inner`. */
  lemma DoubleRotated(a: Tree, x: int, b: Tree, y: int, inner: Skew, c: Tree, z: int, d: Tree)
    requires Balanced(a) && Balanced(b) && Balanced(c) && Balanced(d)
    requires Height(a) == Height(d) == Max(Height(b), Height(c)) && Height(c) - Height(b) == Lean(inner)
    ensures var t := Node(Node(a, x, TopSkew(SkewRight, inner, SkewLeft), b), y, SkewNone,
              Node(c, z, TopSkew(SkewLeft, inner, SkewRight), d));
      Balanced(t) && Height(t) == Height(a) + 2
  {
    hide Balanced, Height;
    Joined(a, x, TopSkew(SkewRight, inner, SkewLeft), b);
    Joined(c, z, TopSkew(SkewLeft, inner, SkewRight), d);
    Joined(Node(a, x, TopSkew(SkewRight, inner, SkewLeft), b), y, SkewNone,
           Node(c, z, TopSkew(SkewLeft, inner, SkewRight), d));
  }

  /** A left child that leans right, two higher than the right child. */
  lemma LeftRightBalances(n: Tree)
    requires n.Node? && Balanced(n.left) && Balanced(n.right) && Height(n.left) == Height(n.right) + 2
    requires n.left.Node? && n.left.skew == SkewRight
    ensures n.left.right.Node? && Balanced(RotateLeftRight(n)) && Height(RotateLeftRight(n)) == Height(n.right) + 2
  {
    hide Balanced;
    Parted(n.left);
    Parted(n.left.right);
    var inner := n.left.right;
    DoubleRotated(n.left.left, n.left.key, inner.left, inner.key, inner.skew, inner.right, n.key, n.right);
  }

  lemma RightLeftBalances(n: Tree)
    requires n.Node? && Balanced(n.left) && Balanced(n.right) && Height(n.right) == Height(n.left) + 2
    requires n.right.Node? && n.right.skew == SkewLeft
    ensures n.right.left.Node? && Balanced(RotateRightLeft(n)) && Height(RotateRightLeft(n)) == Height(n.left) + 2
  {
    hide Balanced;
    Parted(n.right);
    Parted(n.right.left);
    var inner := n.right.left;
    DoubleRotated(n.left, n.key, inner.left, inner.key, inner.skew, inner.right, n.right.key, n.right.right);
  }

  /** A left child that does not lean right, two higher than the right child. */
  lemma RightRotationBalances(n: Tree, top: Skew, child: Skew)
    requires n.Node? && Balanced(n.left) && Balanced(n.right) && Height(n.left) == Height(n.right) + 2
    requires n.left.Node? && n.left.skew != SkewRight
    requires if n.left.skew == SkewLeft then top == child == SkewNone else top == SkewLeft && child == SkewRight
    ensures var t := RotateRight(n.(skew := top, left := n.left.(skew := child)));
      Balanced(t) && Height(t) == Height(n.left) + (if n.left.skew == SkewLeft then 0 else 1)
  {
    hide Balanced, Height;
    Parted(n.left);
    Joined(n.left.right, n.key, top, n.right);
    Joined(n.left.left, n.left.key, child, Node(n.left.right, n.key, top, n.right));
  }

  lemma LeftRotationBalances(n: Tree, top: Skew, child: Skew)
    requires n.Node? && Balanced(n.left) && Balanced(n.right) && Height(n.right) == Height(n.left) + 2
    requires n.right.Node? && n.right.skew != SkewLeft
    requires if n.right.skew == SkewRight then top == child == SkewNone else top == SkewRight && child == SkewLeft
    ensures var t := RotateLeft(n.(skew := top, right := n.right.(skew := child)));
      Balanced(t) && Height(t) == Height(n.right) + (if n.right.skew == SkewRight then 0 else 1)
  {
    hide Balanced, Height;
    Parted(n.right);
    Joined(n.left, n.key, top, n.right.left);
    Joined(Node(n.left, n.key, top, n.right.left), n.right.key, child, n.right.right);
  }

  lemma LeftGrownBalances(n: Tree)
    requires LeftOff(n, 1) && Grown(n.left)
    ensures var (t, res) := LeftGrown(n);
      Balanced(t) && Height(t) == OldHeight(n, 1, 0) + (if res == BALANCE then 1 else 0)
      && (res == BALANCE ==> Grown(t))
  {
    hide Balanced, RotateRight, RotateLeftRight;
    if n.skew == SkewLeft {
      if n.left.skew == SkewLeft { RightRotationBalances(n, SkewNone, SkewNone); } else { LeftRightBalances(n); }
    } else {
      Joined(n.left, n.key, if n.skew == SkewRight then SkewNone else SkewLeft, n.right);
    }
  }

  lemma RightGrownBalances(n: Tree)
    requires RightOff(n, 1) && Grown(n.right)
    ensures var (t, res) := RightGrown(n);
      Balanced(t) && Height(t) == OldHeight(n, 0, 1) + (if res == BALANCE then 1 else 0)
      && (res == BALANCE ==> Grown(t))
  {
    hide Balanced, RotateLeft, RotateRightLeft;
    if n.skew == SkewRight {
      if n.right.skew == SkewRight { LeftRotationBalances(n, SkewNone, SkewNone); } else { RightLeftBalances(n); }
    } else {
      Joined(n.left, n.key, if n.skew == SkewLeft then SkewNone else SkewRight, n.right);
    }
  }

  lemma LeftShrunkBalances(n: Tree)
    requires LeftOff(n, -1)
    ensures var (t, res) := LeftShrunk(n);
      Balanced(t) && Height(t) == OldHeight(n, -1, 0) - (if res == BALANCE then 1 else 0)
  {
    hide Balanced, RotateLeft, RotateRightLeft;
    if n.skew == SkewRight {
      match n.right.skew {
        case SkewRight => LeftRotationBalances(n, SkewNone, SkewNone);
        case SkewNone => LeftRotationBalances(n, SkewRight, SkewLeft);
        case SkewLeft => RightLeftBalances(n);
      }
    } else {
      Joined(n.left, n.key, if n.skew == SkewLeft then SkewNone else SkewRight, n.right);
    }
  }

  lemma RightShrunkBalances(n: Tree)
    requires RightOff(n, -1)
    ensures var (t, res) := RightShrunk(n);
      Balanced(t) && Height(t) == OldHeight(n, 0, -1) - (if res == BALANCE then 1 else 0)
  {
    hide Balanced, RotateRight, RotateLeftRight;
    if n.skew == SkewLeft {
      match n.left.skew {
        case SkewLeft => RightRotationBalances(n, SkewNone, SkewNone);
        case SkewNone => RightRotationBalances(n, SkewLeft, SkewRight);
        case SkewRight => LeftRightBalances(n);
      }
    } else {
      Joined(n.left, n.key, if n.skew == SkewRight then SkewNone else SkewLeft, n.right);
    }
  }
}
