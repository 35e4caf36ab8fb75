/** The binary search tree of bin/psaccounter.c that maps logger task IDs to
    jobs, on the heap. */
module JobTree {
  import opened Jobs
  import opened JobStructs
  import opened Tasks

  class TNode {
    var key: TaskId
    var job: Job
    var left: TNode?
    var right: TNode?

    constructor (key: TaskId, job: Job)
      ensures this.key == key && this.job == job && left == null && right == null
    {
      this.key, this.job, left, right := key, job, null, null;
    }
  }

  // ----- the tree as a value

  /** What a heap tree looks like: its nodes and what they hold. */
  datatype Tree = Leaf | Node(ref: TNode, key: TaskId, job: Job, left: Tree, right: Tree)

  ghost function Nodes(t: Tree): set<TNode> {
    match t
    case Leaf => {}
    case Node(r, _, _, l, u) => {r} + Nodes(l) + Nodes(u)
  }

  ghost function Keys(t: Tree): set<TaskId> {
    match t
    case Leaf => {}
    case Node(_, k, _, l, u) => {k} + Keys(l) + Keys(u)
  }

  /** All pairs of key and job in the tree, wherever they are. */
  ghost function Entries(t: Tree): set<(TaskId, Job)> {
    match t
    case Leaf => {}
    case Node(_, k, j, l, u) => {(k, j)} + Entries(l) + Entries(u)
  }

  ghost predicate Sorted(t: Tree) {
    match t
    case Leaf => true
    case Node(_, k, _, l, u) =>
      && Sorted(l) && Sorted(u)
      && (forall x | x in Keys(l) :: x < k)
      && (forall x | x in Keys(u) :: k < x)
  }

  /** The job found on the search path of a key. */
  ghost function Lookup(t: Tree, key: TaskId): Job? {
    match t
    case Leaf => null
    case Node(_, k, j, l, u) =>
      if key == k then j else if key < k then Lookup(l, key) else Lookup(u, key)
  }

  /** In a sorted tree the search path finds exactly what the tree contains. */
  lemma {:induction false} LookupFindsAll(t: Tree, key: TaskId)
    requires Sorted(t)
    ensures Lookup(t, key) != null <==> key in Keys(t)
    ensures forall j: Job :: (key, j) in Entries(t) <==> Lookup(t, key) == j
  {
    if t.Node? {
      EntryKeys(t.left);
      EntryKeys(t.right);
      LookupFindsAll(t.left, key);
      LookupFindsAll(t.right, key);
    }
  }

  lemma {:induction false} EntryKeys(t: Tree)
    ensures forall e | e in Entries(t) :: e.0 in Keys(t)
  {
    if t.Node? {
      EntryKeys(t.left);
      EntryKeys(t.right);
    }
  }

  // ----- the tree on the heap

  /** The fields of one node. */
  datatype Cell = Cell(key: TaskId, job: Job, left: TNode?, right: TNode?)

  ghost function Root(t: Tree): TNode? {
    if t.Leaf? then null else t.ref
  }

  /** What each node of `t` is to hold. */
  ghost function Cells(t: Tree): (m: map<TNode, Cell>)
    ensures m.Keys == Nodes(t)
  {
    match t
    case Leaf => map[]
    case Node(r, k, j, l, u) => Cells(l) + Cells(u) + map[r := Cell(k, j, Root(l), Root(u))]
  }

  /** No node occurs twice. */
  ghost predicate Unshared(t: Tree) {
    match t
    case Leaf => true
    case Node(r, _, _, l, u) =>
      r !in Nodes(l) && r !in Nodes(u) && Nodes(l) !! Nodes(u) && Unshared(l) && Unshared(u)
  }

  ghost predicate Stored(m: map<TNode, Cell>)
    reads m.Keys
  {
    forall n | n in m :: n.key == m[n].key && n.job == m[n].job && n.left == m[n].left && n.right == m[n].right
  }

  /** `n` is the root of a heap tree that looks like `t`. */
  ghost predicate Shape(n: TNode?, t: Tree)
    reads Nodes(t)
  {
    n == Root(t) && Unshared(t) && Stored(Cells(t))
  }

  lemma Open(n: TNode, t: Tree)
    requires Shape(n, t)
    ensures t.Node? && t.ref == n && t.key == n.key && t.job == n.job
    ensures Shape(n.left, t.left) && Shape(n.right, t.right)
    ensures Nodes(t) == {n} + Nodes(t.left) + Nodes(t.right)
    ensures n !in Nodes(t.left) && n !in Nodes(t.right) && Nodes(t.left) !! Nodes(t.right)
    ensures n.left == null <==> t.left.Leaf?
    ensures n.right == null <==> t.right.Leaf?
    ensures allocated(Cells(t.left)) && allocated(Cells(t.right))
    ensures allocated(Nodes(t.left)) && allocated(Nodes(t.right))
  {
    var m := Cells(t);
    assert t.ref in m;
    forall x | x in Nodes(t.left) ensures m[x] == Cells(t.left)[x] {
    }
    forall x | x in Nodes(t.right) ensures m[x] == Cells(t.right)[x] {
    }
  }

  lemma SortedParts(t: Tree)
    requires t.Node? && Sorted(t)
    ensures Sorted(t.left) && Sorted(t.right)
    ensures t.key in Keys(t)
    ensures forall x | x < t.key :: x in Keys(t) <==> x in Keys(t.left)
    ensures forall x | x > t.key :: x in Keys(t) <==> x in Keys(t.right)
    ensures Lookup(t, t.key) == t.job
  {
  }

  lemma Empty(t: Tree)
    requires Shape(null, t)
    ensures t == Leaf && Nodes(t) == {} && Keys(t) == {} && Sorted(t)
    ensures forall x :: Lookup(t, x) == null
    ensures forall key :: Deleted(t, t, key)
  {
  }

  lemma Single(n: TNode, t: Tree)
    requires t == Node(n, n.key, n.job, Leaf, Leaf) && n.left == null && n.right == null
    ensures Shape(n, t) && Nodes(t) == {n} && Inserted(Leaf, t, n.key, n.job)
  {
  }

  lemma Close(n: TNode, t: Tree)
    requires t.Node? && t.ref == n && t.key == n.key && t.job == n.job
    requires Shape(n.left, t.left) && Shape(n.right, t.right)
    requires n !in Nodes(t.left) && n !in Nodes(t.right) && Nodes(t.left) !! Nodes(t.right)
    ensures Shape(n, t)
    ensures Nodes(t) == {n} + Nodes(t.left) + Nodes(t.right)
  {
    var m := Cells(t);
    forall x | x in m
      ensures x.key == m[x].key && x.job == m[x].job && x.left == m[x].left && x.right == m[x].right
    {
      if x in Nodes(t.left) {
        assert m[x] == Cells(t.left)[x];
      } else if x in Nodes(t.right) {
        assert m[x] == Cells(t.right)[x];
      }
    }
  }

  // ----- the minimum

  ghost function Min(t: Tree): (m: Tree)
    requires t.Node?
    ensures m.Node? && m.key in Keys(t) && m.ref in Nodes(t)
  {
    if t.left.Leaf? then t else Min(t.left)
  }

  /** `t` with another job at its minimum. */
  ghost function WithMinJob(t: Tree, j: Job): (t': Tree)
    requires t.Node?
    ensures Keys(t') == Keys(t) && Nodes(t') == Nodes(t) && t'.Node?
  {
    if t.left.Leaf? then t.(job := j) else t.(left := WithMinJob(t.left, j))
  }

  /** Exchanging the job at the minimum leaves every other key its own. */
  lemma {:induction false} MinJobLookups(t: Tree, j: Job)
    requires t.Node? && Sorted(t)
    ensures Sorted(WithMinJob(t, j))
    ensures forall x | x in Keys(t) :: Min(t).key <= x
    ensures Lookup(t, Min(t).key) == Min(t).job
    ensures forall x :: Lookup(WithMinJob(t, j), x) == if x == Min(t).key then j else Lookup(t, x)
  {
    if !t.left.Leaf? {
      MinJobLookups(t.left, j);
      assert Min(t).key in Keys(t.left);
    }
  }

  /** Only one field of one node tells the two trees apart. */
  lemma {:induction false} MinJobCells(t: Tree, j: Job)
    requires t.Node? && Unshared(t)
    ensures Unshared(WithMinJob(t, j)) && Root(WithMinJob(t, j)) == Root(t)
    ensures Cells(t)[Min(t).ref].job == Min(t).job && Cells(t)[Min(t).ref].key == Min(t).key
    ensures Cells(WithMinJob(t, j)) == Cells(t)[Min(t).ref := Cells(t)[Min(t).ref].(job := j)]
  {
    if !t.left.Leaf? {
      MinJobCells(t.left, j);
    }
  }

  method FindMin(leaf: TNode?, ghost t: Tree) returns (r: TNode?)
    requires Shape(leaf, t)
    ensures leaf == null ==> r == null
    ensures leaf != null ==> t.Node? && r == Min(t).ref && r.key == Min(t).key && r.job == Min(t).job
    decreases t
  {
    if leaf == null {
      r := null;
    } else {
      Open(leaf, t);
      if leaf.left == null {
        r := leaf;
      } else {
        r := FindMin(leaf.left, t.left);
      }
    }
  }

  // ----- search and insertion

  method SearchTNode(key: TaskId, leaf: TNode?, ghost t: Tree) returns (r: TNode?)
    requires Shape(leaf, t)
    ensures r == null <==> Lookup(t, key) == null
    ensures r != null ==> r in Nodes(t) && r.job == Lookup(t, key)
    decreases t
  {
    if leaf != null {
      Open(leaf, t);
      if key == leaf.key {
        r := leaf;
      } else if key < leaf.key {
        r := SearchTNode(key, leaf.left, t.left);
      } else {
        r := SearchTNode(key, leaf.right, t.right);
      }
    } else {
      r := null;
    }
  }

  /** `t'` is `t` with `key` added, unless `t` has it already. */
  ghost predicate Inserted(t: Tree, t': Tree, key: TaskId, job: Job) {
    && Sorted(t')
    && Keys(t') == Keys(t) + {key}
    && Lookup(t', key) == (if key in Keys(t) then Lookup(t, key) else job)
    && forall x | x != key :: Lookup(t', x) == Lookup(t, x)
  }

  lemma InsertedBelow(t: Tree, t': Tree, key: TaskId, job: Job)
    requires t.Node? && Sorted(t) && t'.Node? && t'.key == t.key && t'.job == t.job
    requires key < t.key ==> Inserted(t.left, t'.left, key, job) && t'.right == t.right
    requires key > t.key ==> Inserted(t.right, t'.right, key, job) && t'.left == t.left
    requires key == t.key ==> t' == t
    ensures Inserted(t, t', key, job)
  {
  }

  /** Inserting an unknown key adds it with its job; a known key changes nothing. */
  method InsertTNode(key: TaskId, job: Job, leaf: TNode?, ghost t: Tree) returns (r: TNode, ghost t': Tree)
    requires Shape(leaf, t) && Sorted(t)
    modifies Nodes(t)
    ensures Shape(r, t') && Inserted(t, t', key, job)
    ensures fresh(Nodes(t') - Nodes(t)) && Nodes(t) <= Nodes(t')
    decreases t
  {
    hide Shape, Inserted, Sorted, Nodes, Keys, Lookup, Entries, Cells, Unshared, Stored, Root;
    if leaf == null {
      Empty(t);
      r := new TNode(key, job);
      t' := Node(r, key, job, Leaf, Leaf);
      Single(r, t');
      return;
    }
    Open(leaf, t);
    SortedParts(t);
    r, t' := leaf, t;
    if key < leaf.key {
      ghost var l;
      leaf.left, l := InsertTNode(key, job, leaf.left, t.left);
      t' := t.(left := l);
      Close(leaf, t');
    } else if key > leaf.key {
      ghost var u;
      leaf.right, u := InsertTNode(key, job, leaf.right, t.right);
      t' := t.(right := u);
      Close(leaf, t');
    }
    InsertedBelow(t, t', key, job);
  }

  // ----- deletion

  /** `t'` is `t` without `key`. */
  ghost predicate Deleted(t: Tree, t': Tree, key: TaskId) {
    && Sorted(t')
    && Keys(t') == Keys(t) - {key}
    && forall x :: Lookup(t', x) == if x == key then null else Lookup(t, x)
  }

  lemma DeletedBelow(t: Tree, t': Tree, key: TaskId)
    requires t.Node? && Sorted(t) && t'.Node? && t'.key == t.key && t'.job == t.job && key != t.key
    requires key < t.key ==> Deleted(t.left, t'.left, key) && t'.right == t.right
    requires key > t.key ==> Deleted(t.right, t'.right, key) && t'.left == t.left
    ensures Deleted(t, t', key)
    ensures Lookup(t, key) == if key < t.key then Lookup(t.left, key) else Lookup(t.right, key)
  {
  }

  /** A node with one child at most is its own whole tree but for that child. */
  lemma DeletedRoot(t: Tree)
    requires t.Node? && Sorted(t) && (t.left.Leaf? || t.right.Leaf?)
    ensures Deleted(t, if t.left.Leaf? then t.right else t.left, t.key)
  {
    var t' := if t.left.Leaf? then t.right else t.left;
    assert Sorted(t');
    assert Keys(t') == Keys(t) - {t.key};
    forall x ensures Lookup(t', x) == if x == t.key then null else Lookup(t, x) {
      LookupFindsAll(t.left, x);
      LookupFindsAll(t.right, x);
    }
  }

  /** The two-child case: the successor's key is deleted from the right subtree
      into which the doomed job was moved, and takes the place of the root. */
  lemma DeletedTakenOver(t: Tree, t': Tree)
    requires t.Node? && Sorted(t) && t.right.Node? && t'.Node? && t'.left == t.left
    requires t'.key == Min(t.right).key && t'.job == Min(t.right).job
    requires Deleted(WithMinJob(t.right, t.job), t'.right, t'.key)
    ensures Deleted(t, t', t.key)
    ensures Lookup(WithMinJob(t.right, t.job), t'.key) == t.job
  {
    MinJobLookups(t.right, t.job);
    LookupFindsAll(t.left, t.key);
    LookupFindsAll(t.right, t.key);
    hide WithMinJob, Min;
    forall x ensures Lookup(t', x) == if x == t.key then null else Lookup(t, x) {
      LookupFindsAll(t.left, x);
      LookupFindsAll(t.right, x);
    }
  }

  /** The two-child case. */
  method ReplaceBySuccessor(leaf: TNode, ghost t: Tree)
      returns (ghost t': Tree, freedJob: Job?, freedNode: TNode?)
    requires Shape(leaf, t) && Sorted(t) && leaf.left != null && leaf.right != null
    modifies Nodes(t)
    ensures Shape(leaf, t') && Deleted(t, t', t.key)
    ensures freedJob == Lookup(t, t.key)
    ensures freedNode in Nodes(t) && Nodes(t') == Nodes(t) - {freedNode}
    decreases Nodes(t), 0
  {
    hide Shape, Deleted, Sorted, Keys, Lookup, WithMinJob;
    Open(leaf, t);
    SortedParts(t);
    SwapWithSuccessor(leaf, t);
    ghost var u;
    leaf.right, u, freedJob, freedNode := DeleteTNode(leaf.key, leaf.right, WithMinJob(t.right, t.job));
    t' := Node(leaf, leaf.key, leaf.job, t.left, u);
    Close(leaf, t');
    DeletedTakenOver(t, t');
  }

  /** The two-child case up to its recursive call: key and job of the successor
      move up, the node's own job moves down. */
  method SwapWithSuccessor(leaf: TNode, ghost t: Tree)
    requires Shape(leaf, t) && Sorted(t) && leaf.left != null && leaf.right != null
    modifies Nodes(t)
    ensures t.Node? && t.right.Node?
    ensures leaf.left == old(leaf.left) && leaf.right == old(leaf.right)
    ensures leaf.key == Min(t.right).key && leaf.job == Min(t.right).job
    ensures Shape(leaf.left, t.left) && Shape(leaf.right, WithMinJob(t.right, t.job))
    ensures Sorted(WithMinJob(t.right, t.job))
  {
    hide Cells, Unshared, Lookup, Nodes, Keys, WithMinJob, Min;
    Open(leaf, t);
    MinJobLookups(t.right, t.job);
    MinJobCells(t.right, t.job);
    assert allocated(Cells(WithMinJob(t.right, t.job)));
    var tmpleaf := FindMin(leaf.right, t.right);
    leaf.key := tmpleaf.key;
    var tmpjob := leaf.job;
    leaf.job := tmpleaf.job;
    tmpleaf.job := tmpjob;
  }

  /** Deletes `key`. `freedJob` and `freedNode` are what `free` is called on.
      With two children, the node takes key and job of its successor, hands the
      successor its own job, and deletes the successor's key further down: for a
      while that key is in the tree twice. */
  method DeleteTNode(key: TaskId, leaf: TNode?, ghost t: Tree)
      returns (r: TNode?, ghost t': Tree, freedJob: Job?, freedNode: TNode?)
    requires Shape(leaf, t) && Sorted(t)
    modifies Nodes(t)
    ensures Shape(r, t') && Deleted(t, t', key)
    ensures freedJob == Lookup(t, key)
    ensures key !in Keys(t) ==> freedNode == null && Nodes(t') == Nodes(t)
    ensures key in Keys(t) ==> freedNode in Nodes(t) && Nodes(t') == Nodes(t) - {freedNode}
    decreases Nodes(t), 1
  {
    hide Shape, Deleted, Sorted, Nodes, Keys, Lookup, WithMinJob, Min;
    if leaf == null {
      r, t', freedJob, freedNode := null, Leaf, null, null;
      Empty(t);
      return;
    }
    Open(leaf, t);
    SortedParts(t);
    r := leaf;
    if key < leaf.key {
      ghost var l;
      leaf.left, l, freedJob, freedNode := DeleteTNode(key, leaf.left, t.left);
      t' := t.(left := l);
      Close(leaf, t');
      DeletedBelow(t, t', key);
    } else if key > leaf.key {
      ghost var u;
      leaf.right, u, freedJob, freedNode := DeleteTNode(key, leaf.right, t.right);
      t' := t.(right := u);
      Close(leaf, t');
      DeletedBelow(t, t', key);
    } else if leaf.left != null && leaf.right != null {
      t', freedJob, freedNode := ReplaceBySuccessor(leaf, t);
    } else {
      freedJob, freedNode := leaf.job, leaf;
      DeletedRoot(t);
      if leaf.left == null {
        r, t' := leaf.right, t.right;
      } else {
        r, t' := leaf.left, t.left;
      }
    }
  }
}
