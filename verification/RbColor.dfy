/** The red-black rules on trees and on one-hole contexts, and what each rebalancing case does to them. */
module RbColor {
  import opened RbShape

  ghost predicate IsRed(t: Tree) {
    t.Node? && t.color.Red?
  }

  ghost function Weight(c: Color): int {
    if c.Black? then 1 else 0
  }

  /** Every path from the top of t to a leaf passes h black nodes. */
  ghost predicate Bal(t: Tree, h: int) {
    match t
    case Leaf => h == 0
    case Node(c, l, _, r) => Bal(l, h - Weight(c)) && Bal(r, h - Weight(c))
  }

  /** No red node of t has a red child. */
  ghost predicate NoRedRed(t: Tree) {
    match t
    case Leaf => true
    case Node(c, l, _, r) => NoRedRed(l) && NoRedRed(r) && (c.Red? ==> !IsRed(l) && !IsRed(r))
  }

  ghost function BlackHeight(t: Tree): int {
    if t.Leaf? then 0 else Weight(t.color) + BlackHeight(t.left)
  }

  /** A red-black tree: black root, no red node with a red child, equal black count on every path. */
  ghost predicate RedBlack(t: Tree) {
    !IsRed(t) && NoRedRed(t) && Bal(t, BlackHeight(t))
  }

  // ---------- contexts ----------

  ghost predicate CtxRed(k: Ctx) {
    !k.Top? && k.color.Red?
  }

  /** The whole tree is balanced if the hole holds a tree of black height h. */
  ghost predicate CtxBal(k: Ctx, h: int) {
    match k
    case Top => true
    case InLeft(c, _, r, up) => Bal(r, h) && CtxBal(up, h + Weight(c))
    case InRight(c, l, _, up) => Bal(l, h) && CtxBal(up, h + Weight(c))
  }

  /** No red node of k has a red child, leaving the hole aside. */
  ghost predicate CtxNoRedRed(k: Ctx) {
    match k
    case Top => true
    case InLeft(c, _, r, up) => NoRedRed(r) && (c.Red? ==> !IsRed(r) && !CtxRed(up)) && CtxNoRedRed(up)
    case InRight(c, l, _, up) => NoRedRed(l) && (c.Red? ==> !IsRed(l) && !CtxRed(up)) && CtxNoRedRed(up)
  }

  /** The root is black, if the context reaches it. */
  ghost predicate RootBlack(k: Ctx) {
    !k.Top? ==> if k.up.Top? then k.color.Black? else RootBlack(k.up)
  }

  ghost predicate CtxOk(k: Ctx, h: int) {
    CtxBal(k, h) && CtxNoRedRed(k) && RootBlack(k)
  }

  lemma {:induction false} BalHeight(t: Tree, h: int)
    requires Bal(t, h)
    ensures BlackHeight(t) == h >= 0
  {
    if t.Node? {
      BalHeight(t.left, h - Weight(t.color));
    }
  }

  /** A good part in a good context makes a red-black tree. */
  lemma {:induction false} PlugRedBlack(k: Ctx, t: Tree, h: int)
    requires CtxOk(k, h) && Bal(t, h) && NoRedRed(t)
    requires IsRed(t) ==> !k.Top? && !CtxRed(k)
    ensures RedBlack(Plug(k, t))
    decreases k
  {
    if k.Top? {
      BalHeight(t, h);
    } else {
      PlugRedBlack(k.up, Wrap(k, t), h + Weight(k.color));
    }
  }

  /** Conversely, every part of a red-black tree is a good part in a good context. */
  lemma {:induction false} UnplugRedBlack(k: Ctx, t: Tree)
    requires RedBlack(Plug(k, t))
    ensures CtxOk(k, BlackHeight(t)) && Bal(t, BlackHeight(t)) && NoRedRed(t)
    ensures IsRed(t) ==> !k.Top? && !CtxRed(k)
    decreases k
  {
    if !k.Top? {
      var w := Wrap(k, t);
      UnplugRedBlack(k.up, w);
      BalHeight(t, BlackHeight(w) - Weight(k.color));
    }
  }

  ghost function Blackened(t: Tree): Tree {
    if t.Leaf? then t else t.(color := Black)
  }

  // ---------- insertion ----------

  /** All is well, except that the red t may sit below a red parent or at the root. */
  ghost predicate Inserting(k: Ctx, t: Tree, h: int) {
    IsRed(t) && Bal(t, h) && NoRedRed(t) && CtxOk(k, h)
  }

  /** The part with the parent and the grandparent around a red t below a red parent. */
  ghost predicate RedParent(k: Ctx) {
    CtxRed(k) && !k.up.Top?
  }

  ghost function Uncle(k: Ctx): Tree
    requires RedParent(k)
  {
    if k.up.InLeft? then k.up.right else k.up.left
  }

  lemma GrandparentIsBlack(k: Ctx, t: Tree, h: int)
    requires Inserting(k, t, h) && CtxRed(k)
    ensures RedParent(k) && k.up.color.Black?
  {
  }

  /** Red uncle: blackness moves down from the grandparent to its children. */
  ghost function Pushed(k: Ctx, t: Tree): Tree
    requires RedParent(k) && Uncle(k).Node?
  {
    var p := Blackened(Wrap(k, t));
    var u := Blackened(Uncle(k));
    if k.up.InLeft? then Node(Red, p, k.up.it, u) else Node(Red, u, k.up.it, p)
  }

  lemma PushedOk(k: Ctx, t: Tree, h: int)
    requires Inserting(k, t, h) && RedParent(k) && IsRed(Uncle(k))
    ensures Inserting(k.up.up, Pushed(k, t), h + 1)
    ensures InOrder(Pushed(k, t)) == InOrder(Wrap(k.up, Wrap(k, t)))
  {
    var p := Blackened(Wrap(k, t));
    assert CtxOk(k.up, h) && CtxOk(k.up.up, h + 1);
    assert Bal(p, h + 1) && Bal(Uncle(k), h) && Bal(Blackened(Uncle(k)), h + 1);
    assert NoRedRed(p) && NoRedRed(Blackened(Uncle(k)));
    assert InOrder(p) == InOrder(Wrap(k, t)) && InOrder(Blackened(Uncle(k))) == InOrder(Uncle(k));
  }

  /** Inner grandchild, parent on the left: a rotation at the parent makes it an outer one. */
  lemma InnerLeftOk(k: Ctx, t: Tree, h: int)
    requires Inserting(k, t, h) && RedParent(k) && k.InRight? && k.up.InLeft?
    ensures Inserting(InLeft(Red, t.it, t.right, k.up), Node(Red, k.left, k.it, t.left), h)
    ensures InOrder(Node(Red, Node(Red, k.left, k.it, t.left), t.it, t.right)) == InOrder(Wrap(k, t))
  {
    assert InOrder(k.left) + [k.it] + (InOrder(t.left) + [t.it] + InOrder(t.right))
        == InOrder(k.left) + [k.it] + InOrder(t.left) + [t.it] + InOrder(t.right);
  }

  /** Outer grandchild on the left: the context after the rotation at the grandparent. */
  ghost function OuterLeft(k: Ctx): Ctx
    requires RedParent(k) && k.InLeft? && k.up.InLeft?
  {
    InLeft(Black, k.it, Node(Red, k.right, k.up.it, k.up.right), k.up.up)
  }

  lemma OuterLeftOk(k: Ctx, t: Tree, h: int)
    requires Inserting(k, t, h) && RedParent(k) && k.InLeft? && k.up.InLeft? && !IsRed(Uncle(k))
    ensures Inserting(OuterLeft(k), t, h)
    ensures InOrder(Wrap(OuterLeft(k), t)) == InOrder(Wrap(k.up, Wrap(k, t)))
  {
    assert CtxOk(k.up, h) && CtxOk(k.up.up, h + 1);
    assert Bal(Node(Red, k.right, k.up.it, k.up.right), h);
    var a, b, c := InOrder(t), InOrder(k.right), InOrder(k.up.right);
    var p, g := [k.it], [k.up.it];
    assert a + p + (b + g + c) == a + p + b + g + c;
  }

  lemma InnerRightOk(k: Ctx, t: Tree, h: int)
    requires Inserting(k, t, h) && RedParent(k) && k.InLeft? && k.up.InRight?
    ensures Inserting(InRight(Red, t.left, t.it, k.up), Node(Red, t.right, k.it, k.right), h)
    ensures InOrder(Node(Red, t.left, t.it, Node(Red, t.right, k.it, k.right))) == InOrder(Wrap(k, t))
  {
    assert InOrder(t.left) + [t.it] + (InOrder(t.right) + [k.it] + InOrder(k.right))
        == InOrder(t.left) + [t.it] + InOrder(t.right) + [k.it] + InOrder(k.right);
  }

  /** Outer grandchild on the right: the context after the rotation at the grandparent. */
  ghost function OuterRight(k: Ctx): Ctx
    requires RedParent(k) && k.InRight? && k.up.InRight?
  {
    InRight(Black, Node(Red, k.up.left, k.up.it, k.left), k.it, k.up.up)
  }

  lemma OuterRightOk(k: Ctx, t: Tree, h: int)
    requires Inserting(k, t, h) && RedParent(k) && k.InRight? && k.up.InRight? && !IsRed(Uncle(k))
    ensures Inserting(OuterRight(k), t, h)
    ensures InOrder(Wrap(OuterRight(k), t)) == InOrder(Wrap(k.up, Wrap(k, t)))
  {
    assert CtxOk(k.up, h) && CtxOk(k.up.up, h + 1);
    assert Bal(Node(Red, k.up.left, k.up.it, k.left), h);
    var a, b, c := InOrder(k.up.left), InOrder(k.left), InOrder(t);
    var p, g := [k.it], [k.up.it];
    assert a + g + (b + p + c) == a + g + b + p + c;
  }

  // ---------- deletion ----------

  /** All is well, except that t is one black node short; turning a red t black would make up for it. */
  ghost predicate Deleting(k: Ctx, t: Tree, h: int) {
    Bal(t, h) && NoRedRed(Blackened(t)) && CtxOk(k, h + 1)
  }

  /** The deficit has been made up for: the part and its context are a red-black tree again. */
  ghost predicate Repaired(k: Ctx, t: Tree, h: int) {
    CtxOk(k, h) && Bal(t, h) && NoRedRed(t) && (IsRed(t) ==> !k.Top? && !CtxRed(k))
  }

  ghost function Sibling(k: Ctx): Tree
    requires !k.Top?
  {
    if k.InLeft? then k.right else k.left
  }

  /** A sibling of a part that is one black node short cannot be empty. */
  lemma SiblingExists(k: Ctx, t: Tree, h: int)
    requires Deleting(k, t, h) && !k.Top?
    ensures Sibling(k).Node?
    ensures IsRed(Sibling(k)) ==> k.color.Black?
    ensures !IsRed(t) ==> NoRedRed(t)
  {
    BalHeight(t, h);
  }

  /** Painting a red node black, or reaching the root, ends the fix-up. */
  lemma BlackenRepairs(k: Ctx, t: Tree, h: int)
    requires Deleting(k, t, h) && (IsRed(t) || k.Top?)
    ensures RedBlack(Plug(k, Blackened(t)))
    ensures InOrder(Plug(k, Blackened(t))) == InOrder(Plug(k, t))
  {
    if IsRed(t) {
      PlugRedBlack(k, Blackened(t), h + 1);
    } else {
      BalHeight(t, h);
    }
    SameOrder(k, Blackened(t), t);
  }

  /** Red sibling: after the rotation at the parent the sibling is one of its black children. */
  ghost function RedSiblingLeft(k: Ctx): Ctx
    requires k.InLeft? && k.right.Node?
  {
    InLeft(Red, k.it, k.right.left, InLeft(Black, k.right.it, k.right.right, k.up))
  }

  lemma RedSiblingLeftOk(k: Ctx, t: Tree, h: int)
    requires Deleting(k, t, h) && !IsRed(t) && k.InLeft? && IsRed(k.right)
    ensures Deleting(RedSiblingLeft(k), t, h) && !IsRed(RedSiblingLeft(k).right)
    ensures var k' := RedSiblingLeft(k); InOrder(Wrap(k'.up, Wrap(k', t))) == InOrder(Wrap(k, t))
  {
    var s := k.right;
    assert k.color.Black? && CtxOk(k.up, h + 2);
    assert Bal(s.left, h + 1) && Bal(s.right, h + 1);
    var a, b, c := InOrder(t), InOrder(s.left), InOrder(s.right);
    assert a + [k.it] + (b + [s.it] + c) == a + [k.it] + b + [s.it] + c;
    assert (a + [k.it] + b) + [s.it] + c == a + [k.it] + b + [s.it] + c;
  }

  /** Black sibling without red children: painting it red moves the deficit up to the parent. */
  lemma BlackSiblingLeftOk(k: Ctx, t: Tree, h: int)
    requires Deleting(k, t, h) && !IsRed(t) && k.InLeft? && k.right.Node? && k.right.color.Black?
    requires !IsRed(k.right.left) && !IsRed(k.right.right)
    ensures var t' := Node(k.color, t, k.it, k.right.(color := Red));
      Deleting(k.up, t', h + Weight(k.color)) && InOrder(t') == InOrder(Wrap(k, t))
  {
    var s := k.right.(color := Red);
    assert Bal(k.right, h + 1) && Bal(s, h) && NoRedRed(s) && NoRedRed(t);
    assert InOrder(s) == InOrder(k.right);
    assert CtxOk(k.up, h + 1 + Weight(k.color));
  }

  /** Black sibling whose only red child is the inner one: a rotation at the sibling brings the red to the outside. */
  ghost function InnerNephewLeft(k: Ctx): Ctx
    requires k.InLeft? && k.right.Node? && k.right.left.Node?
  {
    var s := k.right;
    InLeft(k.color, k.it, Node(Black, s.left.left, s.left.it, Node(Red, s.left.right, s.it, s.right)), k.up)
  }

  lemma InnerNephewLeftOk(k: Ctx, t: Tree, h: int)
    requires Deleting(k, t, h) && k.InLeft? && k.right.Node? && k.right.color.Black?
    requires IsRed(k.right.left) && !IsRed(k.right.right)
    ensures Deleting(InnerNephewLeft(k), t, h)
  {
    var s := k.right;
    assert Bal(s, h + 1) && Bal(s.left, h) && Bal(s.left.left, h) && Bal(s.left.right, h);
    assert CtxOk(k.up, h + 1 + Weight(k.color));
    var i := Node(Red, s.left.right, s.it, s.right);
    assert NoRedRed(s) && NoRedRed(s.left) && NoRedRed(s.right);
    assert Bal(i, h) && NoRedRed(i);
  }

  lemma InnerNephewLeftOrder(k: Ctx)
    requires k.InLeft? && k.right.Node? && k.right.left.Node?
    ensures InOrder(InnerNephewLeft(k).right) == InOrder(k.right)
  {
    var s := k.right;
    var a, b, c := InOrder(s.left.left), InOrder(s.left.right), InOrder(s.right);
    var x, y := [s.left.it], [s.it];
    assert a + x + (b + y + c) == a + x + b + y + c;
  }

  /** Black sibling with a red outer child: the rotation at the parent makes up for the deficit. */
  ghost function OuterNephewLeft(k: Ctx, t: Tree): Tree
    requires k.InLeft? && k.right.Node?
  {
    Node(k.color, Node(Black, t, k.it, k.right.left), k.right.it, Blackened(k.right.right))
  }

  lemma OuterNephewLeftOk(k: Ctx, t: Tree, h: int)
    requires Deleting(k, t, h) && !IsRed(t) && k.InLeft? && k.right.Node? && k.right.color.Black?
    requires IsRed(k.right.right)
    ensures Repaired(k.up, OuterNephewLeft(k, t), h + 1 + Weight(k.color))
  {
    var s := k.right;
    assert Bal(s, h + 1) && Bal(s.left, h) && Bal(s.right, h) && Bal(Blackened(s.right), h + 1);
    assert CtxOk(k.up, h + 1 + Weight(k.color));
    var p := Node(Black, t, k.it, s.left);
    assert NoRedRed(t) && NoRedRed(s) && NoRedRed(s.left) && NoRedRed(s.right);
    assert NoRedRed(Blackened(s.right));
    assert Bal(p, h + 1) && NoRedRed(p);
  }

  lemma OuterNephewLeftOrder(k: Ctx, t: Tree)
    requires k.InLeft? && k.right.Node?
    ensures InOrder(OuterNephewLeft(k, t)) == InOrder(Wrap(k, t))
  {
    var s := k.right;
    var a, b, c := InOrder(t), InOrder(s.left), InOrder(s.right);
    assert InOrder(Blackened(s.right)) == c;
    assert a + [k.it] + (b + [s.it] + c) == a + [k.it] + b + [s.it] + c;
    assert (a + [k.it] + b) + [s.it] + c == a + [k.it] + b + [s.it] + c;
  }

  lemma OuterNephewLeftDone(k: Ctx, kd: Ctx, t: Tree, h: int)
    requires Deleting(kd, t, h) && !IsRed(t) && kd.InLeft? && kd.right.Node? && kd.right.color.Black?
    requires IsRed(kd.right.right)
    requires k.InLeft? && kd.it == k.it && kd.up == k.up && InOrder(kd.right) == InOrder(k.right)
    ensures RedBlack(Plug(k.up, OuterNephewLeft(kd, t)))
    ensures InOrder(Plug(k.up, OuterNephewLeft(kd, t))) == InOrder(Plug(k, t))
  {
    var u := OuterNephewLeft(kd, t);
    OuterNephewLeftOk(kd, t, h);
    OuterNephewLeftOrder(kd, t);
    PlugRedBlack(k.up, u, h + 1 + Weight(kd.color));
    SameOrder(k.up, u, Wrap(k, t));
  }

  /** Red sibling: after the rotation at the parent the sibling is one of its black children. */
  ghost function RedSiblingRight(k: Ctx): Ctx
    requires k.InRight? && k.left.Node?
  {
    InRight(Red, k.left.right, k.it, InRight(Black, k.left.left, k.left.it, k.up))
  }

  lemma RedSiblingRightOk(k: Ctx, t: Tree, h: int)
    requires Deleting(k, t, h) && !IsRed(t) && k.InRight? && IsRed(k.left)
    ensures Deleting(RedSiblingRight(k), t, h) && !IsRed(RedSiblingRight(k).left)
    ensures var k' := RedSiblingRight(k); InOrder(Wrap(k'.up, Wrap(k', t))) == InOrder(Wrap(k, t))
  {
    var s := k.left;
    assert k.color.Black? && CtxOk(k.up, h + 2);
    assert Bal(s.left, h + 1) && Bal(s.right, h + 1);
    var a, b, c := InOrder(t), InOrder(s.right), InOrder(s.left);
    assert (c + [s.it] + b) + [k.it] + a == c + [s.it] + b + [k.it] + a;
    assert c + [s.it] + (b + [k.it] + a) == c + [s.it] + b + [k.it] + a;
  }

  /** Black sibling without red children: painting it red moves the deficit up to the parent. */
  lemma BlackSiblingRightOk(k: Ctx, t: Tree, h: int)
    requires Deleting(k, t, h) && !IsRed(t) && k.InRight? && k.left.Node? && k.left.color.Black?
    requires !IsRed(k.left.left) && !IsRed(k.left.right)
    ensures var t' := Node(k.color, k.left.(color := Red), k.it, t);
      Deleting(k.up, t', h + Weight(k.color)) && InOrder(t') == InOrder(Wrap(k, t))
  {
    var s := k.left.(color := Red);
    assert Bal(k.left, h + 1) && Bal(s, h) && NoRedRed(s) && NoRedRed(t);
    assert InOrder(s) == InOrder(k.left);
    assert CtxOk(k.up, h + 1 + Weight(k.color));
  }

  /** Black sibling whose only red child is the inner one: a rotation at the sibling brings the red to the outside. */
  ghost function InnerNephewRight(k: Ctx): Ctx
    requires k.InRight? && k.left.Node? && k.left.right.Node?
  {
    var s := k.left;
    InRight(k.color, Node(Black, Node(Red, s.left, s.it, s.right.left), s.right.it, s.right.right), k.it, k.up)
  }

  lemma InnerNephewRightOk(k: Ctx, t: Tree, h: int)
    requires Deleting(k, t, h) && k.InRight? && k.left.Node? && k.left.color.Black?
    requires IsRed(k.left.right) && !IsRed(k.left.left)
    ensures Deleting(InnerNephewRight(k), t, h)
  {
    var s := k.left;
    assert Bal(s, h + 1) && Bal(s.right, h) && Bal(s.right.left, h) && Bal(s.right.right, h);
    assert CtxOk(k.up, h + 1 + Weight(k.color));
    var i := Node(Red, s.left, s.it, s.right.left);
    assert NoRedRed(s) && NoRedRed(s.right) && NoRedRed(s.left);
    assert Bal(i, h) && NoRedRed(i);
  }

  lemma InnerNephewRightOrder(k: Ctx)
    requires k.InRight? && k.left.Node? && k.left.right.Node?
    ensures InOrder(InnerNephewRight(k).left) == InOrder(k.left)
  {
    var s := k.left;
    var a, b, c := InOrder(s.right.right), InOrder(s.right.left), InOrder(s.left);
    var x, y := [s.right.it], [s.it];
    assert (c + y + b) + x + a == c + y + b + x + a;
  }

  /** Black sibling with a red outer child: the rotation at the parent makes up for the deficit. */
  ghost function OuterNephewRight(k: Ctx, t: Tree): Tree
    requires k.InRight? && k.left.Node?
  {
    Node(k.color, Blackened(k.left.left), k.left.it, Node(Black, k.left.right, k.it, t))
  }

  lemma OuterNephewRightOk(k: Ctx, t: Tree, h: int)
    requires Deleting(k, t, h) && !IsRed(t) && k.InRight? && k.left.Node? && k.left.color.Black?
    requires IsRed(k.left.left)
    ensures Repaired(k.up, OuterNephewRight(k, t), h + 1 + Weight(k.color))
  {
    var s := k.left;
    assert Bal(s, h + 1) && Bal(s.right, h) && Bal(s.left, h) && Bal(Blackened(s.left), h + 1);
    assert CtxOk(k.up, h + 1 + Weight(k.color));
    var p := Node(Black, s.right, k.it, t);
    assert NoRedRed(t) && NoRedRed(s) && NoRedRed(s.right) && NoRedRed(s.left);
    assert NoRedRed(Blackened(s.left));
    assert Bal(p, h + 1) && NoRedRed(p);
  }

  lemma OuterNephewRightOrder(k: Ctx, t: Tree)
    requires k.InRight? && k.left.Node?
    ensures InOrder(OuterNephewRight(k, t)) == InOrder(Wrap(k, t))
  {
    var s := k.left;
    var a, b, c := InOrder(t), InOrder(s.right), InOrder(s.left);
    assert InOrder(Blackened(s.left)) == c;
    assert (c + [s.it] + b) + [k.it] + a == c + [s.it] + b + [k.it] + a;
    assert c + [s.it] + (b + [k.it] + a) == c + [s.it] + b + [k.it] + a;
  }

  lemma OuterNephewRightDone(k: Ctx, kd: Ctx, t: Tree, h: int)
    requires Deleting(kd, t, h) && !IsRed(t) && kd.InRight? && kd.left.Node? && kd.left.color.Black?
    requires IsRed(kd.left.left)
    requires k.InRight? && kd.it == k.it && kd.up == k.up && InOrder(kd.left) == InOrder(k.left)
    ensures RedBlack(Plug(k.up, OuterNephewRight(kd, t)))
    ensures InOrder(Plug(k.up, OuterNephewRight(kd, t))) == InOrder(Plug(k, t))
  {
    var u := OuterNephewRight(kd, t);
    OuterNephewRightOk(kd, t, h);
    OuterNephewRightOrder(kd, t);
    PlugRedBlack(k.up, u, h + 1 + Weight(kd.color));
    SameOrder(k.up, u, Wrap(k, t));
  }
}
