// Top-down splaying as a function on trees, and the potential it is paid from.
module SplayModel {
  import opened Listings
  import opened SplayForest

  datatype Tree = Leaf | Branch(left: Tree, node: Node, right: Tree) {
    function Arm(d: Side): Tree
      requires Branch?
    {
      if d == Left then left else right
    }

    function Size(): nat {
      if Leaf? then 0 else left.Size() + 1 + right.Size()
    }

    // The product of the sizes of all subtrees; its logarithm is the potential
    function Weight(): nat {
      if Leaf? then 1 else Size() * (left.Weight() * right.Weight())
    }
  }

  // `a` on side `d`, `b` on the other one
  function Grow(d: Side, a: Tree, n: Node, b: Tree): Tree {
    if d == Left then Branch(a, n, b) else Branch(b, n, a)
  }

  function Toward(k: int, n: Node): Side { if k < n.key then Left else Right }

  // A tree taken apart at the node that comes to the root
  datatype Halves = Halves(left: Tree, node: Node, right: Tree) {
    function Half(d: Side): Tree { if d == Left then left else right }

    function Set(d: Side, t: Tree): Halves { if d == Left then this.(left := t) else this.(right := t) }
  }

  function Open(t: Tree): Halves
    requires t.Branch?
  {
    Halves(t.left, t.node, t.right)
  }

  predicate Ends(t: Tree, k: int)
    requires t.Branch?
  {
    t.node.key == k || t.Arm(Toward(k, t.node)).Leaf?
  }

  // The next two nodes lie on the same side
  predicate Straight(t: Tree, k: int)
    requires t.Branch? && !Ends(t, k)
  {
    var d := Toward(k, t.node);
    Before(d, k, t.Arm(d).node.key)
  }

  // The root after a rotation towards it
  function Turned(t: Tree, k: int): Tree
    requires t.Branch? && !Ends(t, k)
  {
    var d := Toward(k, t.node);
    var c := t.Arm(d);
    Grow(d, c.Arm(d), c.node, Grow(d, c.Arm(d.Opposite()), t.node, t.Arm(d.Opposite())))
  }

  // What one round works on, after the rotation if there is one
  function Ready(t: Tree, k: int): Tree
    requires t.Branch? && !Ends(t, k)
  {
    if Straight(t, k) then Turned(t, k) else t
  }

  lemma TurnedSize(t: Tree, k: int)
    requires t.Branch? && !Ends(t, k)
    ensures Turned(t, k).Size() == t.Size()
  {
  }

  // The search for `k` takes the tree apart: what lies before, the last node, and what lies behind
  function Split(t: Tree, k: int): Halves
    requires t.Branch?
    decreases t.Size()
  {
    if Ends(t, k) then Open(t) else
    var d := Toward(k, t.node);
    var u := Ready(t, k);
    TurnedSize(t, k);
    if u.Arm(d).Leaf? then Open(u) else
    var h := Split(u.Arm(d), k);
    h.Set(d.Opposite(), Grow(d, h.Half(d.Opposite()), u.node, u.Arm(d.Opposite())))
  }

  // How often the loop is entered
  function Rounds(t: Tree, k: int): nat
    requires t.Branch?
    decreases t.Size()
  {
    if t.node.key == k then 0 else if Ends(t, k) then 1 else
    var d := Toward(k, t.node);
    var u := Ready(t, k);
    TurnedSize(t, k);
    if u.Arm(d).Leaf? then 1 else 1 + Rounds(u.Arm(d), k)
  }

  function Close(h: Halves): Tree { Branch(h.left, h.node, h.right) }

  function Splayed(t: Tree, k: int): Tree {
    if t.Leaf? then Leaf else Close(Split(t, k))
  }

  // ---- the operations ----

  // The new node takes one subtree of the root and the rest of the tree
  function Crowning(t: Tree, d: Side, e: Node): Tree
    requires t.Branch?
  {
    Grow(d, t.Arm(d), e, Grow(d, Leaf, t.node, t.Arm(d.Opposite())))
  }

  // The splayed left subtree gets the right one
  function Beheading(t: Tree, k: int): Tree
    requires t.Branch? && t.left.Branch?
  {
    var l := Splayed(t.left, k);
    Branch(l.left, l.node, t.right)
  }

  // What is left without the root, and the rounds it takes
  function Dropped(t: Tree, k: int): Tree
    requires t.Branch?
  {
    if t.left.Leaf? then t.right else Beheading(t, k)
  }

  function DropRounds(t: Tree, k: int): nat
    requires t.Branch?
  {
    if t.left.Leaf? then 0 else Rounds(t.left, k)
  }

  datatype Operation = Put(node: Node) | Take(node: Node) | Seek(key: int) {
    ghost function Nodes(): set<Node> { if Seek? then {} else {node} }

    function Key(): int { if Seek? then key else node.key }

    function Grows(): nat { if Put? then 1 else 0 }
  }

  // The tree after an operation: it is splayed at the key, and then the root tells whether the key is there
  function Outcome(t: Tree, op: Operation): Tree {
    if t.Leaf? then (if op.Put? then Branch(Leaf, op.node, Leaf) else Leaf) else
    var u := Splayed(t, op.Key());
    match op
    case Put(n) => if u.node.key == n.key then u else Crowning(u, Toward(n.key, u.node), n)
    case Take(n) => if u.node.key == n.key then Dropped(u, n.key) else u
    case Seek(_) => u
  }

  // The rounds of its splays
  function Cost(t: Tree, op: Operation): nat {
    if t.Leaf? then 0 else
    var u := Splayed(t, op.Key());
    Rounds(t, op.Key()) + if op.Take? && u.node.key == op.Key() then DropRounds(u, op.Key()) else 0
  }

  function OutcomeAll(t: Tree, ops: seq<Operation>): Tree
    decreases |ops|
  {
    if ops == [] then t else OutcomeAll(Outcome(t, ops[0]), ops[1..])
  }

  function Total(t: Tree, ops: seq<Operation>): nat
    decreases |ops|
  {
    if ops == [] then 0 else Cost(t, ops[0]) + Total(Outcome(t, ops[0]), ops[1..])
  }

  // The number of insertions
  function Puts(ops: seq<Operation>): nat {
    if ops == [] then 0 else ops[0].Grows() + Puts(ops[1..])
  }
}
