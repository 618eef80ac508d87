/** Binary trees read from their preorder with blanks (Code/huqingwei/shujujiegou/BiTree.c), and
    what the printed traversals tell about them. */
module BiTree {
  import opened Wrappers

  datatype Tree = Nil | Tree(item: char, left: Tree, right: Tree)

  const BLANK: char := ' '

  /** The input that describes a tree: its preorder, with a blank for every missing child. */
  function Serialize(t: Tree): string {
    match t
    case Nil => [BLANK]
    case Tree(x, l, r) => [x] + Serialize(l) + Serialize(r)
  }

  /** The tree described at the front of `s` and what follows its description, unless `s` ends
      too soon. */
  function Parse(s: string): (r: Option<(Tree, string)>)
    ensures r.Some? ==> |r.value.1| < |s|
    decreases |s|
  {
    if s == "" then None
    else if s[0] == BLANK then Some((Nil, s[1..]))
    else
      match Parse(s[1..])
      case None => None
      case Some((l, s1)) =>
        match Parse(s1)
        case None => None
        case Some((r, s2)) => Some((Tree(s[0], l, r), s2))
  }

  predicate NoBlank(t: Tree) {
    t.Tree? ==> t.item != BLANK && NoBlank(t.left) && NoBlank(t.right)
  }

  /** Reading undoes writing, and stops where the tree's description ends. */
  lemma {:induction false} ParseSerialized(t: Tree, rest: string)
    requires NoBlank(t)
    ensures Parse(Serialize(t) + rest) == Some((t, rest))
  {
    var s := Serialize(t) + rest;
    if t.Tree? {
      var l, r := Serialize(t.left), Serialize(t.right);
      ParseSerialized(t.left, r + rest);
      ParseSerialized(t.right, rest);
      assert s[1..] == l + (r + rest);
    } else {
      assert s[1..] == rest;
    }
  }

  /** Writing undoes reading: what was consumed is the description of what was built. */
  lemma {:induction false} SerializeParsed(s: string)
    requires Parse(s).Some?
    ensures var (t, rest) := Parse(s).value; NoBlank(t) && s == Serialize(t) + rest
    decreases |s|
  {
    assert s == [s[0]] + s[1..];
    if s[0] != BLANK {
      var (l, s1) := Parse(s[1..]).value;
      var (r, s2) := Parse(s1).value;
      SerializeParsed(s[1..]);
      SerializeParsed(s1);
      assert s == [s[0]] + (Serialize(l) + (Serialize(r) + s2));
      assert Serialize(Tree(s[0], l, r)) == [s[0]] + Serialize(l) + Serialize(r);
    }
  }

  /** No description is the beginning of another, so a description can be read only one way. */
  lemma DescriptionsPrefixFree(t: Tree, u: Tree, rest: string)
    requires NoBlank(t) && NoBlank(u) && Serialize(t) + rest == Serialize(u)
    ensures t == u && rest == ""
  {
    ParseSerialized(t, rest);
    ParseSerialized(u, "");
    assert Serialize(u) + "" == Serialize(u);
  }

  // ---------- Traversals ----------

  function Preorder(t: Tree): string {
    match t case Nil => "" case Tree(x, l, r) => [x] + Preorder(l) + Preorder(r)
  }

  function Inorder(t: Tree): string {
    match t case Nil => "" case Tree(x, l, r) => Inorder(l) + [x] + Inorder(r)
  }

  function Postorder(t: Tree): string {
    match t case Nil => "" case Tree(x, l, r) => Postorder(l) + Postorder(r) + [x]
  }

  function Reverse(s: string): string {
    if s == "" then "" else Reverse(s[1..]) + [s[0]]
  }

  /** The tree seen from behind. */
  function Mirror(t: Tree): Tree {
    match t case Nil => Nil case Tree(x, l, r) => Tree(x, Mirror(r), Mirror(l))
  }

  lemma {:induction false} ReverseConcat(s: string, u: string)
    ensures Reverse(s + u) == Reverse(u) + Reverse(s)
  {
    if s == "" {
      assert s + u == u;
    } else {
      ReverseConcat(s[1..], u);
      assert (s + u)[1..] == s[1..] + u;
    }
  }

  /** The postorder is the preorder of the mirrored tree, read backwards. */
  lemma {:induction false} PostorderMirrors(t: Tree)
    ensures Postorder(t) == Reverse(Preorder(Mirror(t)))
  {
    if t.Tree? {
      PostorderMirrors(t.left);
      PostorderMirrors(t.right);
      var l, r := Preorder(Mirror(t.left)), Preorder(Mirror(t.right));
      ReverseConcat(r, l);
      assert Preorder(Mirror(t)) == [t.item] + (r + l);
    }
  }

  /** The inorder of the mirrored tree is the inorder read backwards. */
  lemma {:induction false} InorderMirrors(t: Tree)
    ensures Inorder(Mirror(t)) == Reverse(Inorder(t))
  {
    if t.Tree? {
      InorderMirrors(t.left);
      InorderMirrors(t.right);
      ReverseConcat(Inorder(t.left) + [t.item], Inorder(t.right));
      ReverseConcat(Inorder(t.left), [t.item]);
      assert Reverse([t.item]) == [t.item];
    }
  }

  function WithoutBlanks(s: string): string {
    if s == "" then ""
    else if s[0] == BLANK then WithoutBlanks(s[1..])
    else [s[0]] + WithoutBlanks(s[1..])
  }

  lemma {:induction false} BlanksConcat(s: string, u: string)
    ensures WithoutBlanks(s + u) == WithoutBlanks(s) + WithoutBlanks(u)
  {
    if s == "" {
      assert s + u == u;
    } else {
      BlanksConcat(s[1..], u);
      assert (s + u)[1..] == s[1..] + u;
      assert (s + u)[0] == s[0];
      assert [s[0]] + (WithoutBlanks(s[1..]) + WithoutBlanks(u)) == [s[0]] + WithoutBlanks(s[1..]) + WithoutBlanks(u);
    }
  }

  /** The preorder is the description with its blanks left out. */
  lemma {:induction false} PreorderIsText(t: Tree)
    requires NoBlank(t)
    ensures Preorder(t) == WithoutBlanks(Serialize(t))
  {
    if t.Tree? {
      PreorderIsText(t.left);
      PreorderIsText(t.right);
      BlanksConcat([t.item] + Serialize(t.left), Serialize(t.right));
      BlanksConcat([t.item], Serialize(t.left));
    }
  }

  /** A root with two children. */
  lemma ThreeLines()
    ensures var t := Tree('a', Tree('b', Nil, Nil), Tree('c', Nil, Nil));
            Serialize(t) == "ab  c  " && Preorder(t) == "abc" && Inorder(t) == "bac" && Postorder(t) == "bca"
  {
    var b, c := Tree('b', Nil, Nil), Tree('c', Nil, Nil);
    assert Serialize(b) == "b  " && Serialize(c) == "c  ";
    assert Preorder(b) == Inorder(b) == Postorder(b) == "b";
    assert Preorder(c) == Inorder(c) == Postorder(c) == "c";
  }

  ghost predicate Distinct(s: string) {
    forall i, j :: 0 <= i < j < |s| ==> s[i] != s[j]
  }

  lemma {:induction false} SameLength(t: Tree)
    ensures |Preorder(t)| == |Inorder(t)| == |Postorder(t)|
  {
    if t.Tree? {
      SameLength(t.left);
      SameLength(t.right);
    }
  }

  /** In a string without repetitions, the place of a letter splits it one way only. */
  lemma SplitUnique(a: string, b: string, c: string, d: string, x: char)
    requires a + [x] + b == c + [x] + d && Distinct(a + [x] + b)
    ensures a == c && b == d
  {
    var s := a + [x] + b;
    assert s[|a|] == x && s[|c|] == x;
    assert |a| == |c| by {
      assert !(|a| < |c|) && !(|c| < |a|);
    }
    assert a == s[..|a|] == c;
    assert b == s[|a| + 1..] == d;
  }

  /** The first two printed lines determine a tree whose items are distinct. */
  lemma {:induction false} PreAndInDetermine(t: Tree, u: Tree)
    requires Preorder(t) == Preorder(u) && Inorder(t) == Inorder(u)
    requires Distinct(Inorder(t))
    ensures t == u
  {
    SameLength(t);
    SameLength(u);
    if t.Tree? && u.Tree? {
      var x := t.item;
      assert x == Preorder(t)[0] == Preorder(u)[0] == u.item;
      SplitUnique(Inorder(t.left), Inorder(t.right), Inorder(u.left), Inorder(u.right), x);
      SameLength(t.left);
      SameLength(u.left);
      var m := |Inorder(t.left)|;
      assert Preorder(t.left) == Preorder(t)[1..1 + m] == Preorder(u.left);
      assert Preorder(t.right) == Preorder(t)[1 + m..] == Preorder(u.right);
      assert forall i :: 0 <= i < m ==> Inorder(t.left)[i] == Inorder(t)[i];
      assert forall i :: 0 <= i < |Inorder(t.right)| ==> Inorder(t.right)[i] == Inorder(t)[m + 1 + i];
      PreAndInDetermine(t.left, u.left);
      PreAndInDetermine(t.right, u.right);
    }
  }

  /** With a repeated item they need not. */
  lemma RepeatedItemsFail()
    ensures var t, u := Tree('a', Tree('a', Nil, Nil), Nil), Tree('a', Nil, Tree('a', Nil, Nil));
            Preorder(t) == Preorder(u) && Inorder(t) == Inorder(u) && t != u
  {
    var leaf := Tree('a', Nil, Nil);
    assert Preorder(leaf) == "a" && Inorder(leaf) == "a";
  }

  // ---------- When two lines determine the tree ----------

  /** `t` prints `pre` and `ino` as its first two lines. */
  predicate Prints(t: Tree, pre: string, ino: string) {
    Preorder(t) == pre && Inorder(t) == ino
  }

  /** In how many ways the two lines can be read: the first letter of `pre` is the root, and each
      of its places in `ino` splits both lines into those of the two subtrees. */
  function Ways(pre: string, ino: string): nat
    requires |pre| == |ino|
    decreases |pre|, |ino| + 1
  {
    if pre == "" then 1 else WaysBefore(pre, ino, |ino|)
  }

  /** The same for the places of the root before `k`. */
  function WaysBefore(pre: string, ino: string, k: nat): nat
    requires 0 < |pre| == |ino| && k <= |ino|
    decreases |pre|, k
  {
    if k == 0 then 0 else WaysBefore(pre, ino, k - 1) + WaysAt(pre, ino, k - 1)
  }

  function WaysAt(pre: string, ino: string, k: nat): nat
    requires k < |pre| == |ino|
    decreases |pre|, k
  {
    if ino[k] == pre[0] then Ways(pre[1..k + 1], ino[..k]) * Ways(pre[k + 1..], ino[k + 1..]) else 0
  }

  lemma {:induction false} WaysSum(pre: string, ino: string, j: nat, k: nat)
    requires j < k <= |pre| == |ino|
    ensures WaysBefore(pre, ino, k) >= WaysBefore(pre, ino, j) + WaysAt(pre, ino, j)
  {
    if j < k - 1 {
      WaysSum(pre, ino, j, k - 1);
    }
  }

  /** Some place of the root gives a way, and if there are two ways but one at most at each place,
      so does another. */
  lemma {:induction false} WaysPlace(pre: string, ino: string, k: nat) returns (j: nat)
    requires 0 < |pre| == |ino| && k <= |ino| && WaysBefore(pre, ino, k) >= 1
    ensures j < k && WaysAt(pre, ino, j) >= 1
    ensures WaysBefore(pre, ino, j) >= WaysBefore(pre, ino, k) - WaysAt(pre, ino, j)
  {
    j := k - 1;
    if WaysAt(pre, ino, j) == 0 {
      j := WaysPlace(pre, ino, k - 1);
    }
  }

  lemma Product(x: nat, y: nat)
    ensures x * y >= 1 <==> x >= 1 && y >= 1
    ensures x * y >= 2 <==> (x >= 2 && y >= 1) || (x >= 1 && y >= 2)
  {
    if x >= 1 && y >= 2 { assert x * y >= 1 * y; }
    if x >= 2 && y >= 1 { assert x * y >= x * 1; }
  }

  lemma Join(pre: string, ino: string, k: nat, l: Tree, r: Tree) returns (t: Tree)
    requires k < |pre| == |ino| && ino[k] == pre[0]
    requires Prints(l, pre[1..k + 1], ino[..k]) && Prints(r, pre[k + 1..], ino[k + 1..])
    ensures t == Tree(pre[0], l, r) && Prints(t, pre, ino) && |Inorder(l)| == k
  {
    t := Tree(pre[0], l, r);
    assert pre == [pre[0]] + pre[1..k + 1] + pre[k + 1..];
    assert ino == ino[..k] + [ino[k]] + ino[k + 1..];
  }

  /** The place of the root of `t` in its inorder. */
  lemma Split(t: Tree, pre: string, ino: string) returns (k: nat)
    requires t.Tree? && Prints(t, pre, ino)
    ensures |pre| == |ino| && k < |ino| && ino[k] == pre[0] == t.item && k == |Inorder(t.left)|
    ensures Prints(t.left, pre[1..k + 1], ino[..k]) && Prints(t.right, pre[k + 1..], ino[k + 1..])
  {
    SameLength(t);
    SameLength(t.left);
    k := |Inorder(t.left)|;
  }

  /** Every way is that of a tree. */
  lemma {:induction false} SomeTree(pre: string, ino: string) returns (t: Tree)
    requires |pre| == |ino| && Ways(pre, ino) >= 1
    ensures Prints(t, pre, ino)
    decreases |pre|
  {
    if pre == "" {
      t := Nil;
    } else {
      var k := WaysPlace(pre, ino, |ino|);
      t := TreeAt(pre, ino, k);
    }
  }

  lemma {:induction false} TreeAt(pre: string, ino: string, k: nat) returns (t: Tree)
    requires k < |pre| == |ino| && WaysAt(pre, ino, k) >= 1
    ensures Prints(t, pre, ino) && t.Tree? && |Inorder(t.left)| == k
    decreases |pre|, 0
  {
    Product(Ways(pre[1..k + 1], ino[..k]), Ways(pre[k + 1..], ino[k + 1..]));
    var l := SomeTree(pre[1..k + 1], ino[..k]);
    var r := SomeTree(pre[k + 1..], ino[k + 1..]);
    t := Join(pre, ino, k, l, r);
  }

  /** Two ways are those of two trees. */
  lemma {:induction false} TwoTrees(pre: string, ino: string) returns (t: Tree, u: Tree)
    requires |pre| == |ino| && Ways(pre, ino) >= 2
    ensures Prints(t, pre, ino) && Prints(u, pre, ino) && t != u
    decreases |pre|
  {
    var k := WaysPlace(pre, ino, |ino|);
    if WaysAt(pre, ino, k) >= 2 {
      t, u := TwoTreesAt(pre, ino, k);
    } else {
      var j := WaysPlace(pre, ino, k);
      t := TreeAt(pre, ino, k);
      u := TreeAt(pre, ino, j);
    }
  }

  lemma {:induction false} TwoTreesAt(pre: string, ino: string, k: nat) returns (t: Tree, u: Tree)
    requires k < |pre| == |ino| && WaysAt(pre, ino, k) >= 2
    ensures Prints(t, pre, ino) && Prints(u, pre, ino) && t != u
    decreases |pre|, 0
  {
    var left, right := Ways(pre[1..k + 1], ino[..k]), Ways(pre[k + 1..], ino[k + 1..]);
    Product(left, right);
    var l := SomeTree(pre[1..k + 1], ino[..k]);
    var r := SomeTree(pre[k + 1..], ino[k + 1..]);
    var l', r' := l, r;
    if left >= 2 {
      l, l' := TwoTrees(pre[1..k + 1], ino[..k]);
    } else {
      r, r' := TwoTrees(pre[k + 1..], ino[k + 1..]);
    }
    t := Join(pre, ino, k, l, r);
    u := Join(pre, ino, k, l', r');
  }

  /** Every tree is one of the ways, and another tree is another. */
  lemma {:induction false} TreesAreWays(t: Tree, u: Tree, pre: string, ino: string)
    requires Prints(t, pre, ino) && Prints(u, pre, ino)
    ensures |pre| == |ino| && Ways(pre, ino) >= if t == u then 1 else 2
    decreases |pre|
  {
    SameLength(t);
    SameLength(u);
    if t.Tree? {
      assert u.Tree?;
      var j := Split(t, pre, ino);
      var k := Split(u, pre, ino);
      if j == k {
        TreesAt(t, u, pre, ino, j);
        WaysSum(pre, ino, j, |ino|);
      } else {
        TreesAt(t, t, pre, ino, j);
        TreesAt(u, u, pre, ino, k);
        WaysSum(pre, ino, if j < k then j else k, if j < k then k else j);
        WaysSum(pre, ino, if j < k then k else j, |ino|);
      }
    }
  }

  lemma {:induction false} TreesAt(t: Tree, u: Tree, pre: string, ino: string, k: nat)
    requires k < |pre| == |ino| && ino[k] == pre[0] && t.Tree? && u.Tree? && t.item == u.item
    requires Prints(t.left, pre[1..k + 1], ino[..k]) && Prints(t.right, pre[k + 1..], ino[k + 1..])
    requires Prints(u.left, pre[1..k + 1], ino[..k]) && Prints(u.right, pre[k + 1..], ino[k + 1..])
    ensures WaysAt(pre, ino, k) >= if t == u then 1 else 2
    decreases |pre|, 0
  {
    TreesAreWays(t.left, u.left, pre[1..k + 1], ino[..k]);
    TreesAreWays(t.right, u.right, pre[k + 1..], ino[k + 1..]);
    Product(Ways(pre[1..k + 1], ino[..k]), Ways(pre[k + 1..], ino[k + 1..]));
  }

  /** The first two printed lines determine the tree exactly when they can be read in one way. */
  lemma PreAndInDetermineExactly(t: Tree)
    ensures |Preorder(t)| == |Inorder(t)|
    ensures (forall u :: Prints(u, Preorder(t), Inorder(t)) ==> u == t) <==> Ways(Preorder(t), Inorder(t)) == 1
  {
    var pre, ino := Preorder(t), Inorder(t);
    TreesAreWays(t, t, pre, ino);
    if Ways(pre, ino) >= 2 {
      var u, v := TwoTrees(pre, ino);
    }
    forall u | Prints(u, pre, ino) && u != t ensures Ways(pre, ino) >= 2 {
      TreesAreWays(t, u, pre, ino);
    }
  }

  // ---------- The program ----------

  class Input {
    const text: string
    var pos: nat

    ghost predicate Valid() reads this { pos <= |text| }

    ghost function Rest(): string
      requires Valid()
      reads this
    {
      text[pos..]
    }

    constructor (text: string)
      ensures Valid() && this.text == text && pos == 0
    {
      this.text, pos := text, 0;
    }
  }

  class Node {
    var item: char
    var lchild: Node?
    var rchild: Node?
    ghost var tree: Tree
    ghost var repr: set<Node>

    ghost predicate Valid()
      reads this, repr
    {
      && this in repr
      && (lchild != null ==> lchild in repr && lchild.repr <= repr && this !in lchild.repr && lchild.Valid())
      && (rchild != null ==> rchild in repr && rchild.repr <= repr && this !in rchild.repr && rchild.Valid())
      && (lchild != null && rchild != null ==> lchild.repr !! rchild.repr)
      && tree.Tree? && tree.item == item
      && tree.left == (if lchild == null then Nil else lchild.tree)
      && tree.right == (if rchild == null then Nil else rchild.tree)
    }

    constructor (item: char)
      ensures this.item == item && lchild == null && rchild == null
    {
      this.item, lchild, rchild := item, null, null;
    }

    /** Records which tree the finished node stands for. */
    ghost method Complete()
      requires ValidTree(lchild) && ValidTree(rchild)
      requires this !in ReprOf(lchild) && this !in ReprOf(rchild) && ReprOf(lchild) !! ReprOf(rchild)
      requires lchild != null ==> lchild in lchild.repr
      requires rchild != null ==> rchild in rchild.repr
      modifies this`tree, this`repr
      ensures Valid() && tree == old(Tree(item, TreeOf(lchild), TreeOf(rchild)))
      ensures repr == old({this} + ReprOf(lchild) + ReprOf(rchild))
    {
      tree := Tree(item, TreeOf(lchild), TreeOf(rchild));
      repr := {this} + ReprOf(lchild) + ReprOf(rchild);
    }
  }

  ghost predicate ValidTree(T: Node?)
    reads T, if T == null then {} else T.repr
  {
    T != null ==> T.Valid()
  }

  ghost function TreeOf(T: Node?): Tree
    reads T
  {
    if T == null then Nil else T.tree
  }

  ghost function ReprOf(T: Node?): set<Node>
    reads T
  {
    if T == null then {} else T.repr
  }

  /** `CreateBiTree`. `ok` is false when the input ends too soon, where the source would go on
      with whatever its character variable holds. */
  method CreateBiTree(input: Input) returns (ok: bool, T: Node?)
    requires input.Valid()
    modifies input`pos
    ensures input.Valid() && input.pos >= old(input.pos)
    ensures ok <==> Parse(old(input.Rest())).Some?
    ensures ok ==> ValidTree(T) && fresh(ReprOf(T))
    ensures ok ==> Parse(old(input.Rest())) == Some((TreeOf(T), input.Rest()))
    decreases |input.text| - input.pos
  {
    if input.pos == |input.text| {
      return false, null;
    }
    ghost var rest := input.Rest();
    var ch := input.text[input.pos];
    input.pos := input.pos + 1;
    assert input.Rest() == rest[1..];
    if ch == BLANK {
      return true, null;
    }
    var node := new Node(ch);
    var l, r;
    ok, l := CreateBiTree(input);
    node.lchild := l;
    if !ok {
      return false, node;
    }
    ok, r := CreateBiTree(input);
    node.rchild := r;
    if !ok {
      return false, node;
    }
    node.Complete();
    T := node;
  }

  class Printer {
    var text: string
    constructor () ensures text == "" { text := ""; }
  }

  /** `InOrderTraverse`, which despite its name prints the preorder. */
  method InOrderTraverse(T: Node?, level: int, out: Printer)
    requires ValidTree(T)
    modifies out
    ensures out.text == old(out.text) + Preorder(TreeOf(T))
    decreases ReprOf(T)
  {
    if T != null {
      out.text := out.text + [T.item];
      InOrderTraverse(T.lchild, level + 1, out);
      InOrderTraverse(T.rchild, level + 1, out);
    }
  }

  /** `zhongxu` */
  method Zhongxu(T: Node?, level: int, out: Printer)
    requires ValidTree(T)
    modifies out
    ensures out.text == old(out.text) + Inorder(TreeOf(T))
    decreases ReprOf(T)
  {
    if T != null {
      Zhongxu(T.lchild, level, out);
      out.text := out.text + [T.item];
      Zhongxu(T.rchild, level, out);
    }
  }

  /** `houxu` */
  method Houxu(T: Node?, out: Printer)
    requires ValidTree(T)
    modifies out
    ensures out.text == old(out.text) + Postorder(TreeOf(T))
    decreases ReprOf(T)
  {
    if T != null {
      Houxu(T.lchild, out);
      Houxu(T.rchild, out);
      out.text := out.text + [T.item];
    }
  }

  /** `main`: reads a tree and prints its three traversals, one a line. */
  method ReadAndPrint(text: string) returns (ok: bool, lines: seq<string>)
    ensures forall t, rest :: NoBlank(t) && text == Serialize(t) + rest ==>
              ok && lines == [Preorder(t), Inorder(t), Postorder(t)]
    ensures ok ==> exists t, rest :: NoBlank(t) && text == Serialize(t) + rest
  {
    var input := new Input(text);
    assert input.Rest() == text;
    var T;
    ok, T := CreateBiTree(input);
    lines := [];
    if ok {
      SerializeParsed(text);
      lines := PrintAll(T);
    }
    forall t, rest | NoBlank(t) && text == Serialize(t) + rest
      ensures Parse(text) == Some((t, rest))
    {
      ParseSerialized(t, rest);
    }
  }

  method PrintAll(T: Node?) returns (lines: seq<string>)
    requires ValidTree(T)
    ensures lines == [Preorder(TreeOf(T)), Inorder(TreeOf(T)), Postorder(TreeOf(T))]
  {
    var first := new Printer();
    InOrderTraverse(T, 1, first);
    var second := new Printer();
    Zhongxu(T, 1, second);
    var third := new Printer();
    Houxu(T, third);
    ghost var t := TreeOf(T);
    assert "" + Preorder(t) == Preorder(t) && "" + Inorder(t) == Inorder(t) && "" + Postorder(t) == Postorder(t);
    lines := [first.text, second.text, third.text];
  }
}
